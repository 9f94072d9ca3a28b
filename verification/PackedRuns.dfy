/** What the bytes of a chunk say about the measurements appended to it. */
module PackedRuns {
  import opened Measurements
  import opened Streams
  import opened RecordCodec
  import opened RunCodec
  import opened ByteBuffers

  ghost predicate Packable(h: seq<Meas>) {
    h != [] && Encodable(Initial(h[0]), h[1..])
  }

  /** The bytes from the top of the buffer down to `pos` are the packed form of
      the run h, whose first measurement is kept in the header. */
  ghost predicate Packed(data: seq<byte>, pos: nat, h: seq<Meas>) {
    && Packable(h) && pos < |data|
    && Down(data, pos, |data| - 1) == EncodeRun(Initial(h[0]), h[1..])
  }

  /** The run as a reader of the chunk reports it. */
  ghost function Decoded(h: seq<Meas>): (r: seq<Meas>)
    requires h != []
    ensures |r| == |h| && r[0] == h[0]
  {
    [h[0]] + Drifted(Initial(h[0]), 0, h[0].id, h[1..])
  }

  /** Every time survives the 3-byte code and every id is the chunk's. */
  ghost predicate Exact(h: seq<Meas>)
    requires h != []
  {
    forall i | 0 <= i < |h| - 1 :: !Bumped(Deltas(Initial(h[0]), h[1..])[i]) && h[1..][i].id == h[0].id
  }

  /** Round trip of a chunk: whatever lies below `pos`, reading |h| - 1 records
      from the top gives back the run, and ends at `pos`. */
  lemma PackedDecodes(data: seq<byte>, pos: nat, h: seq<Meas>)
    requires Packed(data, pos, h)
    ensures DecodeRun(Initial(h[0]), h[0].id, |h| - 1, Down(data, 0, |data| - 1))
            == Some((Decoded(h)[1..], |data| - 1 - pos))
  {
    hide *;
    PackedStream(data, pos, h);
    RunRoundTrip(Initial(h[0]), 0, h[0].id, h[1..], Down(data, 0, pos));
    ReaderStartsAsWriter(h[0]);
    DecodedTail(h);
  }

  /** The stream a reader sees: the packed run, then whatever lies below it. */
  lemma PackedStream(data: seq<byte>, pos: nat, h: seq<Meas>)
    requires Packed(data, pos, h)
    ensures h != [] && pos < |data| && Encodable(Initial(h[0]), h[1..])
    ensures var run := EncodeRun(Initial(h[0]), h[1..]);
            Down(data, 0, |data| - 1) == run + Down(data, 0, pos) && |run| == |data| - 1 - pos
  {
    hide EncodeRun, Encodable, Initial;
    DownSplit(data, 0, pos, |data| - 1);
  }

  lemma DecodedTail(h: seq<Meas>)
    requires h != []
    ensures Decoded(h)[1..] == Drifted(Initial(h[0]), 0, h[0].id, h[1..])
  {
    hide Drifted;
  }

  lemma ReaderStartsAsWriter(m: Meas)
    ensures ReaderState(Initial(m), 0) == Initial(m)
  {
  }

  /** ... bit for bit, exactly when no step is bumped. */
  lemma DecodedIsExact(h: seq<Meas>)
    requires h != []
    ensures Decoded(h) == h <==> Exact(h)
  {
    DriftIdentity(Initial(h[0]), h[0].id, h[1..]);
    hide Drifted;
    assert h == [h[0]] + h[1..];
    assert Decoded(h)[1..] == Drifted(Initial(h[0]), 0, h[0].id, h[1..]);
  }

  /** Appending a record keeps the run packed. */
  lemma PackedAppend(data: seq<byte>, pos: nat, data': seq<byte>, pos': nat, h: seq<Meas>, m: Meas)
    requires Packed(data, pos, h)
    requires ValueFits(XorOf(Final(Initial(h[0]), h[1..]).prevValue, m.value))
    requires Emitted(data, data', pos, pos', EncodeOne(Final(Initial(h[0]), h[1..]), m))
    ensures Packed(data', pos', h + [m])
    ensures Final(Initial(h[0]), (h + [m])[1..]) == After(Final(Initial(h[0]), h[1..]), m)
  {
    hide EncodeOne, After, ValueFits, XorOf;
    var st, top := Initial(h[0]), |data| - 1;
    EncodeAppend(st, h[1..], m);
    assert (h + [m])[1..] == h[1..] + [m];
    DownFrame(data, data', pos, top);
    DownSplit(data', pos', pos, top);
  }

  /** Nothing above the committed position changed: the run is still there. */
  lemma PackedFrame(data: seq<byte>, data': seq<byte>, pos: nat, h: seq<Meas>)
    requires Packed(data, pos, h) && |data'| == |data| && data'[pos..] == data[pos..]
    ensures Packed(data', pos, h)
  {
    DownFrame(data, data', pos, |data| - 1);
  }

  /** Dropping bytes below the committed position only moves it. */
  lemma PackedDrop(data: seq<byte>, pos: nat, skip: nat, h: seq<Meas>)
    requires Packed(data, pos, h) && skip <= pos
    ensures Packed(data[skip..], pos - skip, h)
  {
    assert Down(data[skip..], pos - skip, |data| - skip - 1) == Down(data, pos, |data| - 1);
  }

  /** A chunk holds fewer than 2^31 measurements, so its counter never wraps. */
  lemma PackedCount(data: seq<byte>, pos: nat, h: seq<Meas>)
    requires Packed(data, pos, h) && |data| < TWO_32
    ensures |h| < TWO_31
  {
    EncodeLength(Initial(h[0]), h[1..]);
  }

  // ------------------------------------------------- what a chunk cursor yields

  /** The cursor reads on until the time changes or nothing is left. */
  function Advance(l: seq<Meas>, t: Time): (r: seq<Meas>)
    requires l != []
    ensures r != [] && |r| <= |l|
  {
    if |l| == 1 || l[0].time != t then l else Advance(l[1..], t)
  }

  function AfterRead(l: seq<Meas>): (r: seq<Meas>)
    requires l != []
    ensures |r| < |l|
  {
    if |l| == 1 then [] else Advance(l[1..], l[0].time)
  }

  function Yielded(l: seq<Meas>): (r: seq<Meas>)
    ensures |r| <= |l|
    decreases |l|
  {
    if l == [] then [] else [l[0]] + Yielded(AfterRead(l))
  }

  /** The last run of equal times is longer than one. */
  predicate TrailingRun(l: seq<Meas>) {
    |l| >= 2 && l[|l| - 2].time == l[|l| - 1].time
  }

  lemma {:induction false} AdvanceIsSkip(l: seq<Meas>, t: Time)
    requires l != []
    ensures SkipRun(l, t) != [] ==> Advance(l, t) == SkipRun(l, t)
    ensures SkipRun(l, t) == [] ==> Advance(l, t) == [l[|l| - 1]] && l[|l| - 1].time == t
    ensures SkipRun(l, t) == [] && |l| >= 2 ==> l[|l| - 2].time == t
    decreases |l|
  {
    if l[0].time == t && |l| > 1 {
      AdvanceIsSkip(l[1..], t);
    } else if |l| == 1 {
      assert l[1..] == [];
    }
  }

  /** One step of the cursor skips to the next run, or to the last measurement. */
  lemma YieldedSkips(l: seq<Meas>, rest: seq<Meas>)
    requires |l| >= 2 && rest == SkipRun(l[1..], l[0].time)
    ensures Heads(l) == [l[0]] + Heads(rest)
    ensures rest == [] ==> Yielded(l) == [l[0], l[|l| - 1]] && TrailingRun(l)
    ensures rest != [] ==> Yielded(l) == [l[0]] + Yielded(rest)
    ensures rest != [] ==> |rest| < |l| && TrailingRun(rest) == TrailingRun(l) && rest[|rest| - 1] == l[|l| - 1]
  {
    hide SkipRun, Advance;
    var t := l[0].time;
    AdvanceIsSkip(l[1..], t);
    SkipRunSuffix(l[1..], t);
    if rest == [] {
      YieldedOne(l[|l| - 1]);
    } else {
      assert rest == l[|l| - |rest|..];
      forall i | 0 <= i < |l| - |rest|
        ensures l[i].time == t
      {
        if i > 0 { assert l[1..][i - 1].time == t; }
      }
      TrailingOfSuffix(l, rest);
    }
  }

  /** The first of every run, plus the last of the trailing run if that run is
      longer than one. */
  lemma {:induction false} YieldedIsHeads(l: seq<Meas>)
    requires l != []
    ensures Yielded(l) == Heads(l) + (if TrailingRun(l) then [l[|l| - 1]] else [])
    decreases |l|
  {
    if |l| == 1 {
      YieldedOne(l[0]);
      HeadsOne(l[0]);
      assert l == [l[0]];
    } else {
      hide SkipRun, Yielded, Heads, TrailingRun;
      var rest := SkipRun(l[1..], l[0].time);
      YieldedSkips(l, rest);
      if rest == [] {
        HeadsNone();
      } else {
        YieldedIsHeads(rest);
      }
    }
  }

  lemma HeadsNone()
    ensures Heads([]) == []
  {
  }

  lemma HeadsOne(m: Meas)
    ensures Heads([m]) == [m]
  {
    assert SkipRun([m][1..], m.time) == [];
  }

  lemma YieldedOne(m: Meas)
    ensures Yielded([m]) == [m]
  {
    assert AfterRead([m]) == [];
  }

  lemma TrailingOfSuffix(l: seq<Meas>, rest: seq<Meas>)
    requires rest != [] && |rest| < |l| && rest == l[|l| - |rest|..]
    requires rest[0].time != l[0].time && (forall i | 0 <= i < |l| - |rest| :: l[i].time == l[0].time)
    ensures TrailingRun(rest) == TrailingRun(l) && rest[|rest| - 1] == l[|l| - 1]
  {
  }

  ghost predicate DistinctTimes(l: seq<Meas>) {
    forall i, j | 0 <= i < j < |l| :: l[i].time != l[j].time
  }

  /** With distinct times nothing is skipped and nothing repeated. */
  lemma {:induction false} YieldedDistinct(l: seq<Meas>)
    requires DistinctTimes(l)
    ensures Yielded(l) == l
    decreases |l|
  {
    if |l| == 1 {
      YieldedOne(l[0]);
    } else if l != [] {
      assert AfterRead(l) == l[1..];
      YieldedDistinct(l[1..]);
    }
  }

  lemma {:induction false} AdvanceFrom(l: seq<Meas>, t: Time)
    requires l != []
    ensures forall m | m in Advance(l, t) :: m in l
    decreases |l|
  {
    if |l| > 1 && l[0].time == t {
      AdvanceFrom(l[1..], t);
    }
  }

  lemma AfterReadFrom(l: seq<Meas>)
    requires l != []
    ensures forall m | m in AfterRead(l) :: m in l
  {
    if |l| > 1 {
      AdvanceFrom(l[1..], l[0].time);
    }
  }

  /** Only what is held is yielded. */
  lemma {:induction false} YieldedFrom(l: seq<Meas>, i: nat)
    requires i < |Yielded(l)|
    ensures Yielded(l)[i] in l
    decreases |l|
  {
    if i > 0 {
      var r := AfterRead(l);
      YieldedFrom(r, i - 1);
      AfterReadFrom(l);
      assert Yielded(l)[i] == Yielded(r)[i - 1];
    }
  }

  lemma {:induction false} AdvanceLast(l: seq<Meas>, t: Time)
    requires l != []
    ensures var r := Advance(l, t); r[|r| - 1] == l[|l| - 1]
    decreases |l|
  {
    if |l| > 1 && l[0].time == t {
      AdvanceLast(l[1..], t);
    }
  }

  lemma YieldedStep(l: seq<Meas>)
    requires l != []
    ensures Yielded(l) == [l[0]] + Yielded(AfterRead(l))
  {
  }

  /** The last measurement is always yielded, last. */
  lemma {:induction false} YieldedLast(l: seq<Meas>)
    requires l != []
    ensures var ys := Yielded(l); ys != [] && ys[|ys| - 1] == l[|l| - 1]
    decreases |l|
  {
    hide Yielded, Advance;
    if |l| == 1 {
      YieldedOne(l[0]);
      assert l == [l[0]];
    } else {
      YieldedStep(l);
      AdvanceLast(l[1..], l[0].time);
      YieldedLast(AfterRead(l));
    }
  }

  /** Neighbours have different times, except perhaps the last two. */
  predicate Spaced(l: seq<Meas>) {
    forall i | 0 <= i < |l| - 2 :: l[i].time != l[i + 1].time
  }

  /** Everything is yielded exactly if times are spaced. */
  lemma {:induction false} YieldedAll(l: seq<Meas>)
    ensures Yielded(l) == l <==> Spaced(l)
    ensures |Yielded(l)| == |l| <==> Spaced(l)
    decreases |l|
  {
    if |l| == 1 {
      YieldedOne(l[0]);
    } else if |l| == 2 {
      YieldedOne(l[1]);
      assert AfterRead(l) == [l[1]];
    } else if |l| > 2 {
      var r := AfterRead(l);
      assert Yielded(l) == [l[0]] + Yielded(r);
      if l[0].time != l[1].time {
        assert r == l[1..];
        YieldedAll(r);
        SpacedTail(l);
        assert l == [l[0]] + r;
      } else {
        assert r == Advance(l[1..], l[0].time) == Advance(l[2..], l[0].time) by { assert l[1..][1..] == l[2..]; }
        assert |Yielded(r)| <= |r| <= |l| - 2;
      }
    }
  }

  lemma SpacedTail(l: seq<Meas>)
    requires |l| > 2 && l[0].time != l[1].time
    ensures Spaced(l) <==> Spaced(l[1..])
  {
    if Spaced(l[1..]) {
      forall i | 0 <= i < |l| - 2
        ensures l[i].time != l[i + 1].time
      {
        if i > 0 { assert l[1..][i - 1].time != l[1..][i].time; }
      }
    }
  }
}
