/** Splitting an array of measurements into the chunks of a page. */
module Compress {
  import opened Measurements
  import opened Streams
  import opened Statistics
  import opened RecordCodec
  import opened RunCodec
  import opened PackedRuns
  import opened Chunks

  /** Every two neighbouring values have a writable XOR. */
  ghost predicate Writable(ms: seq<Meas>) {
    forall i | 0 <= i < |ms| - 1 :: ValueFits(XorOf(ms[i].value, ms[i + 1].value))
  }

  ghost predicate Holds(ch: Chunk, h: seq<Meas>, used: set<object>)
    reads used
  {
    ch.Repr() <= used && ch.Valid() && ch.history == h
  }

  /** Separate chunks, each holding its own run. */
  ghost predicate AllHold(chunks: seq<Chunk>, runs: seq<seq<Meas>>, used: set<object>)
    reads used
  {
    && |runs| == |chunks|
    && (forall k | 0 <= k < |chunks| :: Holds(chunks[k], runs[k], used))
    && (forall k, l | 0 <= k < l < |chunks| :: chunks[k].Repr() !! chunks[l].Repr())
  }

  lemma HoldsMore(ch: Chunk, h: seq<Meas>, used: set<object>, more: set<object>)
    requires Holds(ch, h, used) && used <= more
    ensures Holds(ch, h, more)
  {
    hide Packed, Final, Initial, StatOf;
  }

  lemma HoldsIn(ch: Chunk, h: seq<Meas>, used: set<object>)
    requires Holds(ch, h, used)
    ensures ch.Repr() <= used
  {
    hide Packed, Final, Initial, StatOf;
  }

  lemma AddHolder(chunks: seq<Chunk>, runs: seq<seq<Meas>>, used: set<object>, ch: Chunk, h: seq<Meas>)
    requires AllHold(chunks, runs, used) && ch.Repr() !! used && Holds(ch, h, ch.Repr())
    ensures AllHold(chunks + [ch], runs + [h], used + ch.Repr())
    ensures Concat(runs + [h]) == Concat(runs) + h
  {
    hide Holds, Concat;
    var more := used + ch.Repr();
    forall k | 0 <= k < |chunks|
      ensures Holds(chunks[k], runs[k], more) && chunks[k].Repr() <= used
    {
      HoldsIn(chunks[k], runs[k], used);
      HoldsMore(chunks[k], runs[k], used, more);
    }
    HoldsMore(ch, h, ch.Repr(), more);
    ConcatSnoc(runs, h);
  }

  lemma HeaderStat(ch: Chunk, h: seq<Meas>, used: set<object>)
    requires Holds(ch, h, used)
    ensures ch.header.stat.Current() == StatOf(ch.header.stat.env, h)
  {
    hide Packed, Final, Initial, StatOf;
  }

  /** The record of m is larger than what is left of the chunk of the run h. */
  ghost predicate Overflows(ch: Chunk, h: seq<Meas>, m: Meas)
    reads ch.header
  {
    && h != [] && ValueFits(XorOf(Final(Initial(h[0]), h[1..]).prevValue, m.value))
    && |EncodeOne(Final(Initial(h[0]), h[1..]), m)| > ch.header.bwPos
  }

  lemma SliceMore(ms: seq<Meas>, i: nat, j: nat)
    requires i <= j < |ms|
    ensures ms[i..j] + [ms[j]] == ms[i..j + 1]
  {
  }

  /** Fills one chunk with as much of ms[from..] as fits. */
  method FillChunk(ms: seq<Meas>, from: nat, size: nat, env: Numerics) returns (ch: Chunk, next: nat)
    requires from < |ms| && 1 <= size < TWO_32 && Writable(ms)
    ensures fresh(ch.Repr()) && from < next <= |ms| && Holds(ch, ms[from..next], ch.Repr())
    ensures ch.header.stat.env == env
    ensures next < |ms| ==> ch.writer.isFull && Overflows(ch, ms[from..next], ms[next])
  {
    hide Packed, Final, Initial, EncodeOne, ValueFits, XorOf, StatOf, Empty;
    var hdr := new ChunkHeader(env);
    var buffer := new byte[size];
    ch := new Chunk.Create(hdr, buffer, ms[from]);
    next := from + 1;
    while next < |ms|
      invariant fresh(ch.Repr()) && ch.Valid() && !ch.writer.isFull && ch.header == hdr
      invariant from < next <= |ms| && ch.history == ms[from..next]
      decreases |ms| - next
    {
      var ok := ch.Append(ms[next]);
      if !ok {
        return;
      }
      SliceMore(ms, from, next);
      next := next + 1;
    }
  }

  /** No measurement is lost, repeated or reordered; the page's statistic counts
      each of them. */
  method CompressValues(ms: seq<Meas>, size: nat, footer: Statistic, ghost seen: seq<Meas>)
    returns (chunks: seq<Chunk>, ghost runs: seq<seq<Meas>>, ghost used: set<object>)
    requires 1 <= size < TWO_32 && Writable(ms) && footer.Current() == StatOf(footer.env, seen)
    modifies footer
    ensures AllHold(chunks, runs, used) && fresh(used) && Concat(runs) == ms
    ensures forall k | 0 <= k < |chunks| :: chunks[k].header.stat.env == footer.env
    ensures footer.Current() == StatOf(footer.env, seen + ms)
  {
    hide *;
    chunks, runs, used := [], [], {};
    var it := 0;
    NothingHeld();
    assert seen + ms[..0] == seen && ms[..0] == [];
    while it < |ms|
      invariant it <= |ms| && fresh(used) && AllHold(chunks, runs, used) && Concat(runs) == ms[..it]
      invariant forall k | 0 <= k < |chunks| :: chunks[k].header.stat.env == footer.env
      invariant footer.Current() == StatOf(footer.env, seen + ms[..it])
      decreases |ms| - it
    {
      var ch, next := FillChunk(ms, it, size, footer.env);
      AddHolder(chunks, runs, used, ch, ms[it..next]);
      HeaderStat(ch, ms[it..next], ch.Repr());
      chunks := chunks + [ch];
      runs := runs + [ms[it..next]];
      used := used + ch.Repr();
      assert AllHold(chunks, runs, used) && footer !in used;
      footer.UpdateWith(ch.header.stat.Current());
      assert ms[..it] + ms[it..next] == ms[..next];
      assert seen + ms[..it] + ms[it..next] == seen + ms[..next];
      it := next;
    }
    assert ms[..it] == ms;
  }

  lemma NothingHeld()
    ensures AllHold([], [], {}) && Concat([]) == []
  {
  }

  /** Writing the chunks out counts them in the page's statistic once more. */
  method WriteChunks(chunks: seq<Chunk>, footer: Statistic, ghost runs: seq<seq<Meas>>, ghost used: set<object>,
                     ghost seen: seq<Meas>)
    requires AllHold(chunks, runs, used) && footer !in used && footer.Current() == StatOf(footer.env, seen)
    requires forall k | 0 <= k < |chunks| :: chunks[k].header.stat.env == footer.env
    modifies footer
    ensures AllHold(chunks, runs, used) && footer.Current() == StatOf(footer.env, seen + Concat(runs))
  {
    hide Holds, StatOf, Concat;
    NothingHeld();
    assert seen + [] == seen && runs[..0] == [];
    for i := 0 to |chunks|
      invariant AllHold(chunks, runs, used) && footer.Current() == StatOf(footer.env, seen + Concat(runs[..i]))
    {
      HeaderStat(chunks[i], runs[i], used);
      footer.UpdateWith(chunks[i].header.stat.Current());
      ConcatSnoc(runs[..i], runs[i]);
      assert runs[..i] + [runs[i]] == runs[..i + 1];
      assert seen + Concat(runs[..i]) + runs[i] == seen + (Concat(runs[..i]) + runs[i]);
    }
    assert runs[..|runs|] == runs;
  }

  /** A new page of one array. Its chunks hold the array once, its footer's
      statistic counts it twice. */
  method CreatePage(ms: seq<Meas>, size: nat, env: Numerics)
    returns (footer: Statistic, chunks: seq<Chunk>, ghost runs: seq<seq<Meas>>, ghost used: set<object>)
    requires 1 <= size < TWO_32 && Writable(ms)
    ensures AllHold(chunks, runs, used) && Concat(runs) == ms
    ensures footer.Current() == StatOf(env, ms + ms)
  {
    hide AllHold, StatOf, Concat, Writable;
    footer := new Statistic(env);
    StatOfNone(env);
    assert [] + ms == ms;
    chunks, runs, used := CompressValues(ms, size, footer, []);
    WriteChunks(chunks, footer, runs, used, ms);
  }

  lemma StatOfNone(env: Numerics)
    ensures StatOf(env, []) == Empty(env)
  {
  }

  // ------------------------------------------------------------ reading it back

  /** What a reader makes of each run. */
  ghost function DecodedRuns(runs: seq<seq<Meas>>): (ds: seq<seq<Meas>>)
    requires forall k | 0 <= k < |runs| :: runs[k] != []
    ensures |ds| == |runs| && forall k | 0 <= k < |runs| :: ds[k] == Decoded(runs[k])
  {
    if runs == [] then [] else [Decoded(runs[0])] + DecodedRuns(runs[1..])
  }

  /** The page round trip: decoding the runs and putting them end to end gives
      the array back exactly if every run is exact. */
  lemma {:induction false} PageRoundTrip(runs: seq<seq<Meas>>)
    requires forall k | 0 <= k < |runs| :: runs[k] != []
    ensures Concat(DecodedRuns(runs)) == Concat(runs) <==> forall k | 0 <= k < |runs| :: Exact(runs[k])
    decreases |runs|
  {
    hide Decoded, Exact;
    if runs != [] {
      var d, rest := Decoded(runs[0]), DecodedRuns(runs[1..]);
      DecodedIsExact(runs[0]);
      PageRoundTrip(runs[1..]);
      assert DecodedRuns(runs)[1..] == rest;
      SameParts(d, Concat(rest), runs[0], Concat(runs[1..]));
      assert forall k | 0 < k < |runs| :: runs[k] == runs[1..][k - 1];
    }
  }

  lemma SameParts(a: seq<Meas>, b: seq<Meas>, c: seq<Meas>, d: seq<Meas>)
    requires |a| == |c|
    ensures a + b == c + d <==> a == c && b == d
  {
    if a + b == c + d {
      assert (a + b)[..|a|] == a && (c + d)[..|c|] == c && (a + b)[|a|..] == b && (c + d)[|c|..] == d;
    }
  }
}
