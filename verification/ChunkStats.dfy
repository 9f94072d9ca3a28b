/** What the cursor of a chunk yields when times are distinct, and why the
    statistic of an interval does not depend on the path taken to compute it. */
module ChunkStats {
  import opened Measurements
  import opened Streams
  import opened Statistics
  import opened PackedRuns
  import opened Drift
  import opened ArrayCursors
  import opened Chunks
  import opened ChunkCursors

  // ------------------------------------------------------ permutations of a run

  lemma {:induction false} TwiceCounted(s: seq<Meas>, i: nat, j: nat)
    requires i < j < |s| && s[i] == s[j]
    ensures multiset(s)[s[i]] >= 2
  {
    assert s == s[..j] + [s[j]] + s[j + 1..];
    assert s[i] in s[..j];
  }

  lemma {:induction false} OnceCounted(s: seq<Meas>, m: Meas)
    requires DistinctTimes(s)
    ensures multiset(s)[m] <= 1
    decreases |s|
  {
    if s != [] {
      var n := |s| - 1;
      OnceCounted(s[..n], m);
      assert s == s[..n] + [s[n]];
      if s[n] == m {
        assert m !in s[..n];
      }
    }
  }

  /** A sorted permutation of a run with distinct times is strictly sorted. */
  lemma SortedDistinct(ma: seq<Meas>, l: seq<Meas>)
    requires Nondecreasing(ma) && multiset(ma) == multiset(l) && DistinctTimes(l)
    ensures Increasing(ma)
  {
    forall i, j | 0 <= i < j < |ma|
      ensures ma[i].time != ma[j].time
    {
      assert ma[i] in multiset(l) && ma[j] in multiset(l);
      var a :| 0 <= a < |l| && l[a] == ma[i];
      var b :| 0 <= b < |l| && l[b] == ma[j];
      if ma[i] == ma[j] { TwiceCounted(ma, i, j); }
      OnceCounted(l, ma[i]);
    }
  }

  /** With distinct times, the cursor of an out-of-order chunk yields the
      time-sorted permutation of all the decoded measurements. */
  lemma SortedCopyYields(ma: seq<Meas>, l: seq<Meas>)
    requires IsSortedCopy(ma, l) && DistinctTimes(l)
    ensures Increasing(ma) && multiset(ma) == multiset(l) && Heads(ma) == ma
  {
    YieldedDistinct(l);
    assert Blanks(0) == [];
    assert l + [] == l;
    SortedDistinct(ma, l);
    HeadsOfIncreasing(ma);
  }

  // ------------------------------------------------------------------ intervals

  function InRange(s: seq<Meas>, from: Time, to: Time): seq<Meas> {
    if s == [] then []
    else
      var n := |s| - 1;
      InRange(s[..n], from, to) + (if from <= s[n].time <= to then [s[n]] else [])
  }

  lemma {:induction false} InRangeCount(s: seq<Meas>, from: Time, to: Time, m: Meas)
    ensures multiset(InRange(s, from, to))[m] == if from <= m.time <= to then multiset(s)[m] else 0
  {
    if s != [] {
      var n := |s| - 1;
      InRangeCount(s[..n], from, to, m);
      assert s == s[..n] + [s[n]];
    }
  }

  lemma InRangePermutation(a: seq<Meas>, b: seq<Meas>, from: Time, to: Time)
    requires multiset(a) == multiset(b)
    ensures multiset(InRange(a, from, to)) == multiset(InRange(b, from, to))
  {
    forall m: Meas
      ensures multiset(InRange(a, from, to))[m] == multiset(InRange(b, from, to))[m]
    {
      InRangeCount(a, from, to, m);
      InRangeCount(b, from, to, m);
    }
  }

  lemma {:induction false} InRangeAll(s: seq<Meas>, from: Time, to: Time)
    requires forall i | 0 <= i < |s| :: from <= s[i].time <= to
    ensures InRange(s, from, to) == s
  {
    if s != [] {
      InRangeAll(s[..|s| - 1], from, to);
    }
  }

  lemma {:induction false} StatBounds(env: Numerics, s: seq<Meas>, i: nat)
    requires i < |s|
    ensures StatOf(env, s).minTime <= s[i].time <= StatOf(env, s).maxTime
  {
    if i < |s| - 1 {
      StatBounds(env, s[..|s| - 1], i);
    }
  }

  /** ys is what the cursor of a chunk with decoded run l can yield. */
  ghost predicate CanYield(sorted: bool, l: seq<Meas>, ys: seq<Meas>) {
    if sorted then ys == Yielded(l) else exists ma :: IsSortedCopy(ma, l) && ys == Heads(ma)
  }

  /** With distinct times every path gives the fold over the interval. */
  lemma YieldStat(env: Numerics, sorted: bool, l: seq<Meas>, ys: seq<Meas>, from: Time, to: Time)
    requires CanYield(sorted, l, ys) && DistinctTimes(l)
    ensures StatOf(env, InRange(ys, from, to)) == StatOf(env, InRange(l, from, to))
  {
    if sorted {
      YieldedDistinct(l);
    } else {
      var ma :| IsSortedCopy(ma, l) && ys == Heads(ma);
      SortedCopyYields(ma, l);
      hide IsSortedCopy, StatOf, InRange;
      InRangePermutation(ma, l, from, to);
      StatOfPermutation(env, InRange(ma, from, to), InRange(l, from, to));
    }
  }

  /** Folds the measurements of an interval that a chunk's cursor yields. */
  method ScanPacked(reader: ChunkReader, env: Numerics, from: Time, to: Time) returns (st: Stat, ghost ys: seq<Meas>)
    requires reader.Valid()
    modifies reader.Objects()
    ensures st == StatOf(env, InRange(ys, from, to)) && ys == Yielded(old(reader.Items()))
  {
    hide StatOf, InRange, Yielded, Combine, Single, Remaining, AfterRead, Empty;
    var result := new Statistic(env);
    ys := [];
    StartFold(env, from, to);
    ghost var l := reader.Items();
    assert [] + Yielded(l) == Yielded(l);
    while !reader.IsEnd()
      invariant reader.Valid() && result.env == env
      invariant Yielded(l) == ys + Yielded(reader.Items())
      invariant result.Current() == StatOf(env, InRange(ys, from, to))
      decreases |reader.Items()|
    {
      ghost var before := reader.Items();
      var m := reader.ReadNext();
      YieldedStep(before);
      FoldStep(env, ys, m, from, to);
      if from <= m.time <= to {
        result.Update(m);
      }
      assert ys + ([m] + Yielded(reader.Items())) == ys + [m] + Yielded(reader.Items());
      ys := ys + [m];
    }
    YieldedNothing();
    assert ys + [] == ys;
    st := result.Current();
  }

  method ScanSorted(full: FullCursor, env: Numerics, from: Time, to: Time) returns (st: Stat, ghost ys: seq<Meas>)
    requires full.Valid() && full.index == 0
    modifies full
    ensures st == StatOf(env, InRange(ys, from, to)) && ys == Heads(full.ma)
  {
    hide StatOf, InRange, Heads, Combine, Single, Empty;
    var result := new Statistic(env);
    ys := [];
    StartFold(env, from, to);
    assert full.ma[0..] == full.ma;
    assert [] + full.Pending() == full.Pending();
    while !full.IsEnd()
      invariant full.Valid() && result.env == env
      invariant Heads(full.ma) == ys + full.Pending()
      invariant result.Current() == StatOf(env, InRange(ys, from, to))
      decreases |full.ma| - full.index
    {
      var m := full.ReadNext();
      FoldStep(env, ys, m, from, to);
      if from <= m.time <= to {
        result.Update(m);
      }
      assert ys + ([m] + full.Pending()) == ys + [m] + full.Pending();
      ys := ys + [m];
    }
    full.EndIsEmpty();
    assert ys + [] == ys;
    st := result.Current();
  }

  lemma StartFold(env: Numerics, from: Time, to: Time)
    ensures StatOf(env, InRange([], from, to)) == Empty(env)
  {
  }

  lemma FoldStep(env: Numerics, ys: seq<Meas>, m: Meas, from: Time, to: Time)
    ensures StatOf(env, InRange(ys + [m], from, to))
            == if from <= m.time <= to then Combine(StatOf(env, InRange(ys, from, to)), Single(env, m))
               else StatOf(env, InRange(ys, from, to))
  {
    assert (ys + [m])[..|ys|] == ys;
    var r := InRange(ys, from, to);
    assert (r + [m])[..|r|] == r;
    assert r + [] == r;
  }

  /** The header's range lies in the interval. */
  predicate Covers(env: Numerics, h: seq<Meas>, from: Time, to: Time) {
    from <= StatOf(env, h).minTime <= to && from <= StatOf(env, h).maxTime <= to
  }

  /** What a chunk of history h answers, if its cursor yields ys: the header's
      statistic if the whole chunk lies in the interval, else the scan's. */
  function IntervalStat(env: Numerics, h: seq<Meas>, ys: seq<Meas>, from: Time, to: Time): Stat {
    if Covers(env, h, from, to) then StatOf(env, h) else StatOf(env, InRange(ys, from, to))
  }

  lemma CoversAll(env: Numerics, h: seq<Meas>, from: Time, to: Time)
    requires Covers(env, h, from, to)
    ensures InRange(h, from, to) == h
  {
    hide InRange, StatOf;
    forall i | 0 <= i < |h|
      ensures from <= h[i].time <= to
    {
      StatBounds(env, h, i);
    }
    InRangeAll(h, from, to);
  }

  /** a and b differ in ids only. */
  ghost predicate SameButIds(a: seq<Meas>, b: seq<Meas>) {
    |a| == |b| && forall i | 0 <= i < |a| :: a[i] == b[i].(id := a[i].id)
  }

  /** Statistics do not look at ids. */
  lemma {:induction false} StatIgnoresIds(env: Numerics, a: seq<Meas>, b: seq<Meas>, from: Time, to: Time)
    requires SameButIds(a, b)
    ensures StatOf(env, InRange(a, from, to)) == StatOf(env, InRange(b, from, to))
    decreases |a|
  {
    if a != [] {
      var n := |a| - 1;
      StatIgnoresIds(env, a[..n], b[..n], from, to);
      FoldStep(env, a[..n], a[n], from, to);
      FoldStep(env, b[..n], b[n], from, to);
      assert a == a[..n] + [a[n]] && b == b[..n] + [b[n]];
      assert a[n] == b[n].(id := a[n].id);
      hide InRange, StatOf, Combine;
      assert Single(env, a[n]) == Single(env, b[n]);
    }
  }

  lemma DecodedButIds(h: seq<Meas>)
    requires h != [] && NoBumps(h)
    ensures SameButIds(Decoded(h), h)
  {
    hide Decoded, NoBumps;
    forall i | 0 <= i < |h|
      ensures Decoded(h)[i] == h[i].(id := Decoded(h)[i].id)
    {
      DecodedWithoutBumps(h, i);
    }
  }

  /** Without bumped steps, every cursor of a chunk with distinct times gives
      the fold over the appended measurements. */
  lemma StatWithoutBumps(env: Numerics, sorted: bool, h: seq<Meas>, ys: seq<Meas>, from: Time, to: Time)
    requires h != [] && CanYield(sorted, Decoded(h), ys) && NoBumps(h) && DistinctTimes(h)
    ensures StatOf(env, InRange(ys, from, to)) == StatOf(env, InRange(h, from, to))
  {
    hide Decoded, NoBumps, InRange, StatOf, CanYield;
    DecodedButIds(h);
    assert DistinctTimes(Decoded(h));
    YieldStat(env, sorted, Decoded(h), ys, from, to);
    StatIgnoresIds(env, Decoded(h), h, from, to);
  }

  /** The statistic of an interval: the header's if the whole chunk lies in it,
      a scan otherwise. */
  method StatOfInterval(chunk: Chunk, from: Time, to: Time) returns (st: Stat)
    requires chunk.Valid()
    ensures Covers(chunk.header.stat.env, chunk.history, from, to) ==>
              st == StatOf(chunk.header.stat.env, chunk.history)
    ensures !Covers(chunk.header.stat.env, chunk.history, from, to) ==>
              exists ys :: && CanYield(chunk.header.isSorted, Decoded(chunk.history), ys)
                           && st == StatOf(chunk.header.stat.env, InRange(ys, from, to))
    ensures NoBumps(chunk.history) && DistinctTimes(chunk.history) ==>
              st == StatOf(chunk.header.stat.env, InRange(chunk.history, from, to))
  {
    hide Packed, StatOf, InRange, Decoded, Nondecreasing, Heads, Yielded, NoBumps, DistinctTimes, IsSortedCopy;
    ghost var h, env := chunk.history, chunk.header.stat.env;
    if from <= chunk.header.stat.minTime <= to && from <= chunk.header.stat.maxTime <= to {
      CoversAll(env, h, from, to);
      return chunk.header.stat.Current();
    }
    var c := GetReader(chunk);
    ghost var sorted := chunk.header.isSorted;
    ghost var ys;
    if c.PackedCursor? {
      st, ys := ScanPacked(c.reader, chunk.header.stat.env, from, to);
    } else {
      st, ys := ScanSorted(c.full, chunk.header.stat.env, from, to);
    }
    assert CanYield(sorted, Decoded(h), ys);
    if NoBumps(h) && DistinctTimes(h) {
      StatWithoutBumps(env, sorted, h, ys, from, to);
    }
  }
}
