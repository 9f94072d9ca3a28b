/** Exactly which chunks answer every interval with the statistic of the
    measurements appended. */
module IntervalStats {
  import opened Measurements
  import opened Streams
  import opened Statistics
  import opened RecordCodec
  import opened RunCodec
  import opened PackedRuns
  import opened Drift
  import opened ChunkCursors
  import opened ChunkStats

  /** Every interval is answered right by a cursor that yields ys. */
  ghost predicate AllRight(env: Numerics, h: seq<Meas>, ys: seq<Meas>) {
    forall from: Time, to: Time :: IntervalStat(env, h, ys, from, to) == StatOf(env, InRange(h, from, to))
  }

  ghost predicate Uniform(h: seq<Meas>) {
    forall i, j | 0 <= i < j < |h| :: h[i].time == h[j].time
  }

  // ------------------------------------------------------------------ counting

  lemma {:induction false} CountAt(s: seq<Meas>, t: Time)
    ensures |InRange(s, t, t)| == |At(s, t)|
    decreases |s|
  {
    if s != [] {
      var n := |s| - 1;
      CountAt(s[..n], t);
      AtConcat(s[..n], [s[n]], t);
      assert s == s[..n] + [s[n]];
      AtOne(s[n], t);
    }
  }

  lemma AtOne(m: Meas, t: Time)
    ensures At([m], t) == if m.time == t then [m] else []
  {
    assert [m][1..] == [];
  }

  function TimeSum(s: seq<Meas>): nat {
    if s == [] then 0 else TimeSum(s[..|s| - 1]) + s[|s| - 1].time
  }

  lemma {:induction false} TimeSumConcat(a: seq<Meas>, b: seq<Meas>)
    ensures TimeSum(a + b) == TimeSum(a) + TimeSum(b)
    decreases |b|
  {
    if b == [] {
      assert a + b == a;
    } else {
      var n := |b| - 1;
      TimeSumConcat(a, b[..n]);
      assert (a + b)[..|a + b| - 1] == a + b[..n];
    }
  }

  ghost predicate SameCounts(a: seq<Meas>, b: seq<Meas>) {
    forall t: Time :: |At(a, t)| == |At(b, t)|
  }

  /** As many of every time: as many in all, and the same sum. */
  lemma {:induction false} CountsTell(a: seq<Meas>, b: seq<Meas>)
    requires SameCounts(a, b)
    ensures |a| == |b| && TimeSum(a) == TimeSum(b)
    decreases |a|
  {
    hide At, TimeSum;
    if a == [] {
      if b != [] {
        SomeAt(b);
      }
    } else {
      var n, t := |a| - 1, a[|a| - 1].time;
      assert |At(a, t)| == |At(b, t)|;
      var i :| 0 <= i < |b| && b[i].time == t;
      var b' := b[..i] + b[i + 1..];
      forall u: Time
        ensures |At(a[..n], u)| == |At(b', u)|
      {
        assert |At(a, u)| == |At(b, u)|;
        Without(a, n, u);
        Without(b, i, u);
        assert a[..n] + a[n + 1..] == a[..n];
      }
      CountsTell(a[..n], b');
      SumWithout(a, n);
      SumWithout(b, i);
      assert a[..n] + a[n + 1..] == a[..n];
    }
  }

  lemma SomeAt(s: seq<Meas>)
    requires s != []
    ensures |At(s, s[0].time)| > 0
  {
  }

  lemma Without(s: seq<Meas>, i: nat, t: Time)
    requires i < |s|
    ensures |At(s, t)| == |At(s[..i] + s[i + 1..], t)| + if s[i].time == t then 1 else 0
  {
    hide At;
    var a, b := s[..i], s[i + 1..];
    assert s == a + ([s[i]] + b);
    AtConcat(a, [s[i]] + b, t);
    AtConcat([s[i]], b, t);
    AtConcat(a, b, t);
    AtOne(s[i], t);
  }

  lemma SumWithout(s: seq<Meas>, i: nat)
    requires i < |s|
    ensures TimeSum(s) == TimeSum(s[..i] + s[i + 1..]) + s[i].time
  {
    hide TimeSum;
    var a, b := s[..i], s[i + 1..];
    assert s == a + ([s[i]] + b);
    TimeSumConcat(a, [s[i]] + b);
    TimeSumConcat([s[i]], b);
    TimeSumConcat(a, b);
    SumOne(s[i]);
  }

  lemma SumOne(m: Meas)
    ensures TimeSum([m]) == m.time
  {
    assert TimeSum([m][..0]) == 0;
  }

  // ------------------------------------------------------- the sum of the drift

  function DriftSum(h: seq<Meas>, k: nat): nat
    requires k <= |h|
  {
    if k == 0 then 0 else DriftSum(h, k - 1) + DriftOf(h, k - 1)
  }

  /** Up to multiples of 2^64, the decoded times sum up to the drift more. */
  lemma {:induction false} DecodedSum(h: seq<Meas>, k: nat) returns (w: nat)
    requires h != [] && k <= |h|
    ensures TimeSum(Decoded(h)[..k]) + w * TWO_64 == TimeSum(h[..k]) + DriftSum(h, k)
    decreases k
  {
    hide Decoded, DriftOf;
    if k == 0 {
      w := 0;
    } else {
      var d := Decoded(h);
      var w' := DecodedSum(h, k - 1);
      DecodedAt(h, k - 1);
      var x := h[k - 1].time + DriftOf(h, k - 1);
      var q := x / TWO_64;
      assert x == Wrap(x) + q * TWO_64;
      assert d[..k][..k - 1] == d[..k - 1] && h[..k][..k - 1] == h[..k - 1];
      w := w' + q;
    }
  }

  lemma {:induction false} DriftSumBound(h: seq<Meas>, k: nat)
    requires k <= |h|
    ensures DriftSum(h, k) <= 2 * |h| * k
    ensures k > 0 ==> DriftOf(h, k - 1) <= DriftSum(h, k)
    decreases k
  {
    hide DriftOf;
    if k > 0 {
      DriftSumBound(h, k - 1);
      DriftStarts(h);
      DriftGrows(h, 0, k - 1);
      assert 2 * |h| * k == 2 * |h| * (k - 1) + 2 * |h|;
    }
  }

  /** A chunk is small enough for the sum to tell whether a step is bumped. */
  lemma SumTellsBumps(h: seq<Meas>)
    requires h != [] && |h| < TWO_31
    ensures TimeSum(Decoded(h)) == TimeSum(h) ==> NoBumps(h)
  {
    hide Decoded, DriftOf, NoBumps, TimeSum;
    var n := |h|;
    var w := DecodedSum(h, n);
    assert Decoded(h)[..n] == Decoded(h) && h[..n] == h;
    DriftSumBound(h, n);
    LastDrifts(h);
    SquareSmall(n);
    hide DriftSum;
  }

  lemma SquareSmall(n: nat)
    requires n < TWO_31
    ensures 2 * n * n < TWO_64
  {
    Squares(n, 0x8000_0000);
    assert 2 * n * n == 2 * (n * n);
  }

  lemma Squares(n: nat, m: nat)
    requires n <= m
    ensures n * n <= m * m
  {
    var d := m - n;
    assert m * m == n * n + 2 * (n * d) + d * d;
  }

  // ------------------------------------------------------------- chunks in order

  lemma PointNotCovered(env: Numerics, h: seq<Meas>, t: Time)
    requires !Uniform(h)
    ensures !Covers(env, h, t, t)
  {
    hide StatOf;
    var i, j :| 0 <= i < j < |h| && h[i].time != h[j].time;
    StatBounds(env, h, i);
    StatBounds(env, h, j);
  }

  /** If every moment is answered right, the cursor yields as many of every
      time as were appended. */
  lemma RightCounts(env: Numerics, h: seq<Meas>, ys: seq<Meas>)
    requires AllRight(env, h, ys) && !Uniform(h)
    ensures SameCounts(ys, h)
  {
    hide StatOf, InRange, Covers, Uniform, At;
    forall t: Time
      ensures |At(ys, t)| == |At(h, t)|
    {
      PointNotCovered(env, h, t);
      assert IntervalStat(env, h, ys, t, t) == StatOf(env, InRange(h, t, t));
      StatCount(env, InRange(ys, t, t));
      StatCount(env, InRange(h, t, t));
      CountAt(ys, t);
      CountAt(h, t);
    }
  }

  lemma {:induction false} SameTimeSteps(st: State, ms: seq<Meas>, i: nat)
    requires st.prevDelta == 0 && (forall k | 0 <= k < |ms| :: ms[k].time == st.prevTime) && i < |ms|
    ensures Deltas(st, ms)[i] == 0
    decreases |ms|
  {
    assert StepDelta(st, ms[0].time) == 0;
    if i > 0 {
      SameTimeSteps(After(st, ms[0]), ms[1..], i - 1);
    }
  }

  lemma UniformNoBumps(h: seq<Meas>)
    requires h != [] && Uniform(h)
    ensures NoBumps(h)
  {
    forall i | 0 <= i < |h| - 1
      ensures Steps(h)[i] == 0
    {
      SameTimeSteps(Initial(h[0]), h[1..], i);
    }
  }

  lemma {:induction false} UniformStat(env: Numerics, h: seq<Meas>)
    requires h != [] && Uniform(h)
    ensures StatOf(env, h).minTime == StatOf(env, h).maxTime == h[0].time
    decreases |h|
  {
    var n := |h| - 1;
    if n > 0 {
      UniformStat(env, h[..n]);
    } else {
      assert h[..0] == [];
    }
  }

  lemma {:induction false} InRangeNone(s: seq<Meas>, from: Time, to: Time)
    requires forall i | 0 <= i < |s| :: !(from <= s[i].time <= to)
    ensures InRange(s, from, to) == []
  {
    if s != [] {
      InRangeNone(s[..|s| - 1], from, to);
    }
  }

  /** A chunk of one single time is always right. */
  lemma UniformRight(env: Numerics, h: seq<Meas>)
    requires h != [] && Uniform(h)
    ensures AllRight(env, h, Yielded(Decoded(h)))
  {
    hide Decoded, StatOf, InRange, NoBumps, Yielded;
    UniformNoBumps(h);
    DecodedButIds(h);
    UniformStat(env, h);
    var d := Decoded(h);
    var ys := Yielded(d);
    forall from: Time, to: Time
      ensures IntervalStat(env, h, ys, from, to) == StatOf(env, InRange(h, from, to))
    {
      if Covers(env, h, from, to) {
        CoversAll(env, h, from, to);
      } else {
        forall i | 0 <= i < |ys|
          ensures ys[i].time == h[0].time
        {
          YieldedFrom(d, i);
          var j :| 0 <= j < |d| && d[j] == ys[i];
          assert h[j].time == h[0].time;
        }
        InRangeNone(ys, from, to);
        InRangeNone(h, from, to);
      }
    }
  }

  lemma SpacedRight(env: Numerics, h: seq<Meas>)
    requires h != [] && NoBumps(h) && Spaced(h)
    ensures AllRight(env, h, Yielded(Decoded(h)))
  {
    hide Decoded, StatOf, InRange, NoBumps, Yielded;
    DecodedButIds(h);
    var d := Decoded(h);
    assert Spaced(d);
    YieldedAll(d);
    forall from: Time, to: Time
      ensures IntervalStat(env, h, d, from, to) == StatOf(env, InRange(h, from, to))
    {
      if Covers(env, h, from, to) {
        CoversAll(env, h, from, to);
      } else {
        StatIgnoresIds(env, d, h, from, to);
      }
    }
  }

  /** Read straight off its bytes, as a chunk in order is, a chunk answers every
      interval right exactly if all its times are one, or no step is bumped and
      neighbouring times differ, except perhaps the last two. */
  lemma InOrderRight(env: Numerics, h: seq<Meas>)
    requires h != [] && |h| < TWO_31
    ensures AllRight(env, h, Yielded(Decoded(h))) <==> Uniform(h) || (NoBumps(h) && Spaced(h))
  {
    hide Decoded, StatOf, InRange, NoBumps, Yielded, AllRight, Uniform, SameCounts;
    var d := Decoded(h);
    var ys := Yielded(d);
    if Uniform(h) {
      UniformRight(env, h);
    } else if NoBumps(h) && Spaced(h) {
      SpacedRight(env, h);
    } else if AllRight(env, h, ys) {
      RightCounts(env, h, ys);
      CountsTell(ys, h);
      YieldedAll(d);
      SumTellsBumps(h);
      DecodedButIds(h);
    }
  }

  // --------------------------------------------------------- chunks out of order

  lemma OncePerTime(h: seq<Meas>)
    requires forall t: Time :: |At(h, t)| <= 1
    ensures DistinctTimes(h)
  {
    forall i, j | 0 <= i < j < |h|
      ensures h[i].time != h[j].time
    {
      if h[i].time == h[j].time {
        TwiceAt(h, i, j);
      }
    }
  }

  lemma TwiceAt(h: seq<Meas>, i: nat, j: nat)
    requires i < j < |h| && h[i].time == h[j].time
    ensures |At(h, h[i].time)| >= 2
  {
    hide At;
    var t, r := h[i].time, h[..j] + h[j + 1..];
    Without(h, j, t);
    assert r[i].time == t;
    Without(r, i, t);
  }

  lemma HeadsCons(s: seq<Meas>)
    requires s != []
    ensures Heads(s) == [s[0]] + Heads(SkipRun(s[1..], s[0].time))
  {
  }

  lemma {:induction false} HeadsAll(s: seq<Meas>)
    requires |Heads(s)| == |s|
    ensures Heads(s) == s
    decreases |s|
  {
    hide Heads, SkipRun;
    if s != [] {
      HeadsCons(s);
      SkipRunSuffix(s[1..], s[0].time);
      var r := SkipRun(s[1..], s[0].time);
      assert r == s[1..];
      HeadsAll(r);
      assert s == [s[0]] + r;
    }
  }

  lemma {:induction false} SumPermutation(a: seq<Meas>, b: seq<Meas>)
    requires multiset(a) == multiset(b)
    ensures |a| == |b| && TimeSum(a) == TimeSum(b)
    decreases |a|
  {
    hide TimeSum;
    assert |multiset(a)| == |a| && |multiset(b)| == |b|;
    if a != [] {
      var n := |a| - 1;
      var i := FindIn(a, b);
      SumPermutation(a[..n], b[..i] + b[i + 1..]);
      SumWithout(b, i);
      SumWithout(a, n);
      assert a[..n] + a[n + 1..] == a[..n];
    } else {
      assert b == [];
    }
  }

  lemma FindIn(a: seq<Meas>, b: seq<Meas>) returns (i: nat)
    requires a != [] && multiset(a) == multiset(b)
    ensures i < |b| && b[i] == a[|a| - 1] && multiset(a[..|a| - 1]) == multiset(b[..i] + b[i + 1..])
  {
    var n, m := |a| - 1, a[|a| - 1];
    assert a == a[..n] + [m];
    assert m in multiset(b);
    i :| 0 <= i < |b| && b[i] == m;
    assert b == b[..i] + [m] + b[i + 1..];
    assert multiset(b[..i] + b[i + 1..]) == multiset(b) - multiset{m} == multiset(a[..n]);
  }

  lemma CopyOfSpaced(ma: seq<Meas>, l: seq<Meas>)
    requires IsSortedCopy(ma, l) && Spaced(l)
    ensures multiset(ma) == multiset(l)
  {
    YieldedAll(l);
    hide Yielded;
    assert Blanks(0) == [] && l + [] == l;
  }

  /** Where times repeat, a sorted copy is never right everywhere; where they do
      not, and as long as no two decoded neighbours fall together, it is right
      exactly if no step is bumped. */
  lemma OutOfOrderRight(env: Numerics, h: seq<Meas>, ma: seq<Meas>)
    requires h != [] && !Nondecreasing(h) && |h| < TWO_31 && IsSortedCopy(ma, Decoded(h))
    ensures AllRight(env, h, Heads(ma)) ==> DistinctTimes(h)
    ensures NoBumps(h) || Spaced(Decoded(h)) ==>
              (AllRight(env, h, Heads(ma)) <==> NoBumps(h) && DistinctTimes(h))
  {
    assert !Uniform(h);
    hide Decoded, NoBumps, AllRight, Uniform, Heads, StatOf, InRange, DistinctTimes, Spaced;
    var ys := Heads(ma);
    if AllRight(env, h, ys) {
      RightCounts(env, h, ys);
      CopyIsDistinct(h, ma);
      if Spaced(Decoded(h)) {
        hide IsSortedCopy, SameCounts;
        CountsTell(ys, h);
        CopyOfSpaced(ma, Decoded(h));
        SumPermutation(ma, Decoded(h));
        HeadsAll(ma);
        SumTellsBumps(h);
      }
    } else if NoBumps(h) && DistinctTimes(h) {
      DistinctRight(env, h, ma);
    }
  }

  lemma CopyIsDistinct(h: seq<Meas>, ma: seq<Meas>)
    requires Nondecreasing(ma) && SameCounts(Heads(ma), h)
    ensures DistinctTimes(h)
  {
    hide Heads, At, DistinctTimes;
    HeadsIncreasing(ma);
    forall t: Time
      ensures |At(h, t)| <= 1
    {
      IncreasingAt(Heads(ma), t);
      assert |At(Heads(ma), t)| == |At(h, t)|;
    }
    OncePerTime(h);
  }

  lemma DistinctRight(env: Numerics, h: seq<Meas>, ma: seq<Meas>)
    requires h != [] && IsSortedCopy(ma, Decoded(h)) && NoBumps(h) && DistinctTimes(h)
    ensures AllRight(env, h, Heads(ma))
  {
    hide Decoded, NoBumps, DistinctTimes, Heads, StatOf, InRange, IsSortedCopy;
    forall from: Time, to: Time
      ensures IntervalStat(env, h, Heads(ma), from, to) == StatOf(env, InRange(h, from, to))
    {
      if Covers(env, h, from, to) {
        CoversAll(env, h, from, to);
      } else {
        StatWithoutBumps(env, false, h, Heads(ma), from, to);
      }
    }
  }

  // -------------------------------------------------------------------- examples

  /** The moment 5904 is answered with nothing, though a measurement was
      appended there. */
  lemma LostMoment(env: Numerics)
    ensures Packable(BUMPED) && Nondecreasing(BUMPED) && DistinctTimes(BUMPED) && !NoBumps(BUMPED)
    ensures Decoded(BUMPED) == BUMPED[2 := Meas(1, 5905, 0, 0)]
    ensures IntervalStat(env, BUMPED, Yielded(Decoded(BUMPED)), 5904, 5904).count == 0
    ensures StatOf(env, InRange(BUMPED, 5904, 5904)).count == 1
  {
    BumpedDecodes();
    hide Decoded, Yielded, NoBumps, Packable, StatOf, InRange;
    var h, d := BUMPED, BUMPED[2 := Meas(1, 5905, 0, 0)];
    YieldedDistinct(d);
    assert h[0].time != h[1].time;
    PointNotCovered(env, h, 5904);
    StatCount(env, InRange(d, 5904, 5904));
    StatCount(env, InRange(h, 5904, 5904));
    InRangeNone(d, 5904, 5904);
    CountAt(h, 5904);
    assert h[1..][1..] == [h[2]] && [h[2]][1..] == [];
  }

  /** Out of order, two faults can cancel: a bumped step makes two neighbours
      fall together, the second is skipped, and the default measurement that
      pads the copy stands in for the one at time 0. */
  const MENDED := [Meas(0, 4102, 0, 0), Meas(0, 5, 0, 0), Meas(0, 3, 0, 0), Meas(0, 2, 0, 0), NO_MEAS]
  const MENDED_COPY := [NO_MEAS, Meas(0, 2, 0, 0), Meas(0, 3, 0, 0), Meas(0, 5, 0, 0), Meas(0, 4102, 0, 0)]

  lemma BumpedYetRight(env: Numerics)
    ensures Packable(MENDED) && !Nondecreasing(MENDED) && !NoBumps(MENDED)
    ensures IsSortedCopy(MENDED_COPY, Decoded(MENDED)) && AllRight(env, MENDED, Heads(MENDED_COPY))
  {
    MendedDecodes();
    MendedCopy();
    MendedPermutes();
    MendedSorted();
    hide *;
    var h, ma := MENDED, MENDED_COPY;
    HeadsOfIncreasing(ma);
    MendedRight(env, h, ma);
  }

  lemma MendedRight(env: Numerics, h: seq<Meas>, ma: seq<Meas>)
    requires multiset(ma) == multiset(h)
    ensures AllRight(env, h, ma)
  {
    hide StatOf, InRange;
    forall from: Time, to: Time
      ensures IntervalStat(env, h, ma, from, to) == StatOf(env, InRange(h, from, to))
    {
      if Covers(env, h, from, to) {
        CoversAll(env, h, from, to);
      } else {
        InRangePermutation(ma, h, from, to);
        StatOfPermutation(env, InRange(ma, from, to), InRange(h, from, to));
      }
    }
  }

  lemma MendedPermutes()
    ensures multiset(MENDED_COPY) == multiset(MENDED)
  {
  }

  lemma MendedSorted()
    ensures Increasing(MENDED_COPY) && !Nondecreasing(MENDED)
  {
    assert MENDED[0].time > MENDED[1].time;
  }

  const MENDED_READ := [Meas(0, 4102, 0, 0), Meas(0, 5, 0, 0), Meas(0, 3, 0, 0), Meas(0, 3, 0, 0), Meas(0, 2, 0, 0)]

  lemma MendedDecodes()
    ensures Packable(MENDED) && !NoBumps(MENDED) && Decoded(MENDED) == MENDED_READ
  {
    var h := MENDED;
    MendedSteps();
    hide Steps;
    assert Bumped(Steps(h)[2]);
    DriftStep(h, 0);
    DriftStep(h, 1);
    DriftStep(h, 2);
    DriftStep(h, 3);
    DecodedAt(h, 0);
    DecodedAt(h, 1);
    DecodedAt(h, 2);
    DecodedAt(h, 3);
    DecodedAt(h, 4);
  }

  lemma MendedSteps()
    ensures Packable(MENDED) && Steps(MENDED) == [-4097, 4095, -4096, 4094]
  {
    var h := MENDED;
    var a, b, c := State(4102, 0, 0), State(5, -4097, 0), State(3, 4095, 0);
    var d, e := State(2, -4096, 0), State(0, 4094, 0);
    assert h[1..][1..] == h[2..] && h[2..][1..] == h[3..] && h[3..][1..] == h[4..] && h[4..][1..] == [];
    StepTo(a, h[1], b);
    StepTo(b, h[2], c);
    StepTo(c, h[3], d);
    StepTo(d, h[4], e);
    assert Deltas(e, []) == [] && Encodable(e, []);
    assert Deltas(d, h[4..]) == [4094] + Deltas(e, []);
    assert Deltas(c, h[3..]) == [-4096] + Deltas(d, h[4..]);
    assert Deltas(b, h[2..]) == [4095] + Deltas(c, h[3..]);
    assert Deltas(a, h[1..]) == [-4097] + Deltas(b, h[2..]);
    assert Encodable(c, h[3..]) by { assert Encodable(d, h[4..]); }
  }

  lemma MendedCopy()
    ensures IsSortedCopy(MENDED_COPY, MENDED_READ)
  {
    MendedYields();
    hide Yielded;
    assert Blanks(1) == [NO_MEAS];
    assert MENDED_READ[..3] + MENDED_READ[4..] + [NO_MEAS] == MENDED;
    MendedPermutes();
    MendedSorted();
    assert Nondecreasing(MENDED_COPY);
  }

  lemma MendedYields()
    ensures Yielded(MENDED_READ) == MENDED_READ[..3] + MENDED_READ[4..]
  {
    var l := MENDED_READ;
    assert AfterRead(l) == l[1..] && AfterRead(l[1..]) == l[2..];
    assert AfterRead(l[2..]) == l[4..];
    YieldedOne(l[4]);
    assert l[4..] == [l[4]];
    assert Yielded(l[2..]) == [l[2]] + Yielded(l[4..]);
    assert Yielded(l[1..]) == [l[1]] + Yielded(l[2..]);
  }
}
