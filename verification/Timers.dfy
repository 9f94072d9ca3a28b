/** The aggregation timer: a queue of callbacks, each with the moment it is
    due; a callback aggregates one calendar interval and says when to call it
    again. */
module Timers {
  import opened Calendar
  import opened Sorting

  /** A queued callback and the intervals it has aggregated so far. */
  datatype Record = Record(target: nat, period: Period, fired: seq<(int, int)>)

  /** When a callback called for moment t wants to be called next. */
  function NextCall(p: Period, t: nat): (e: nat)
  {
    Contains(p, t + IntervalTime(p) / 2);
    Interval(p, t + IntervalTime(p) / 2).1
  }

  function Fire(r: Record): Record {
    Record(NextCall(r.period, r.target), r.period, r.fired + [Interval(r.period, r.target)])
  }

  /** Each interval begins where the one before it ended. */
  ghost predicate Consecutive(s: seq<(int, int)>) {
    forall i | 0 < i < |s| :: s[i].0 == s[i - 1].1 + 1
  }

  /** The callback waits for the end of the interval after those it has done. */
  ghost predicate RecordOk(r: Record) {
    && Interval(r.period, r.target).1 == r.target
    && Consecutive(r.fired)
    && (forall i | 0 <= i < |r.fired| :: r.fired[i].1 >= 0 && r.fired[i] == Interval(r.period, r.fired[i].1))
    && (r.fired != [] ==> Interval(r.period, r.target).0 == r.fired[|r.fired| - 1].1 + 1)
  }

  /** Firing keeps it so: no interval is skipped or repeated. */
  lemma FireKeeps(r: Record)
    requires RecordOk(r)
    ensures RecordOk(Fire(r))
  {
    hide Interval, IntervalTime;
    var p, t := r.period, r.target;
    var e := NextCall(p, t);
    Tiles(p, t);
    Contains(p, t);
    Contains(p, t + IntervalTime(p) / 2);
    Same(p, t + IntervalTime(p) / 2, e);
    assert Interval(p, e) == Interval(p, t + IntervalTime(p) / 2);
  }

  lemma NewRecordOk(p: Period, t: nat)
    ensures Interval(p, t).1 >= 0 && Interval(p, Interval(p, t).1).1 == Interval(p, t).1
    ensures RecordOk(Record(Interval(p, t).1, p, []))
  {
    hide Interval;
    Contains(p, t);
    Same(p, t, Interval(p, t).1);
  }

  /** A callback first called at any moment f of an interval goes on to the
      next interval exactly if half a period takes it past the end of this one. */
  lemma FirstCall(p: Period, f: nat)
    ensures Interval(p, f + IntervalTime(p) / 2).0 == Interval(p, f).1 + 1
            <==> f + IntervalTime(p) / 2 > Interval(p, f).1
  {
    hide Interval, IntervalTime;
    Contains(p, f);
    Tiles(p, f);
    var e, x := Interval(p, f).1, f + IntervalTime(p) / 2;
    Contains(p, e + IntervalTime(p) / 2);
    Contains(p, x);
    if x > e {
      Same(p, e + IntervalTime(p) / 2, x);
    }
  }

  /** First called at the start of an hour, a callback aggregates that hour twice. */
  lemma HourTwice()
    ensures Fire(Fire(Record(0, Hour, []))).fired == [Interval(Hour, 0), Interval(Hour, 0)]
  {
    hide Interval;
    FixedInterval(Hour, 0);
    FixedInterval(Hour, HOUR / 2);
    FixedInterval(Hour, HOUR - 1);
  }

  /** Every moment from the first interval to the last is in exactly one of them. */
  lemma {:induction false} EachMomentOnce(r: Record, x: int) returns (k: nat)
    requires RecordOk(r) && r.fired != [] && r.fired[0].0 <= x <= r.fired[|r.fired| - 1].1
    ensures k < |r.fired| && forall i | 0 <= i < |r.fired| :: r.fired[i].0 <= x <= r.fired[i].1 <==> i == k
  {
    hide Interval;
    k := 0;
    while x > r.fired[k].1
      invariant k < |r.fired| && r.fired[k].0 <= x
      decreases |r.fired| - k
    {
      k := k + 1;
    }
    forall i | 0 <= i < |r.fired| && i != k
      ensures !(r.fired[i].0 <= x <= r.fired[i].1)
    {
      if i < k {
        Ascending(r, i, k);
      } else {
        Ascending(r, k, i);
      }
    }
  }

  lemma {:induction false} Ascending(r: Record, i: nat, j: nat)
    requires RecordOk(r) && i < j < |r.fired|
    ensures r.fired[i].1 < r.fired[j].0
    decreases j
  {
    hide Interval;
    if i < j - 1 {
      Ascending(r, i, j - 1);
      Contains(r.period, r.fired[j - 1].1);
    }
  }

  // -------------------------------------------------------------------- queue

  /** What one pass of the timer does to a record at time ct. */
  function Due(r: Record, ct: nat): Record {
    if r.target <= ct then Fire(r) else r
  }

  function AllDue(q: seq<Record>, ct: nat): (r: seq<Record>)
    ensures |r| == |q|
  {
    seq(|q|, i requires 0 <= i < |q| => Due(q[i], ct))
  }

  ghost predicate Sorted(q: seq<Record>) {
    forall i, j | 0 <= i < j < |q| :: q[i].target <= q[j].target
  }

  ghost predicate AllOk(q: seq<Record>) {
    forall i | 0 <= i < |q| :: RecordOk(q[i])
  }

  method SortQueue(q: seq<Record>) returns (s: seq<Record>)
    ensures Sorted(s) && multiset(s) == multiset(q)
  {
    hide Permuted, RecordOk;
    ghost var perm;
    s, perm := InsertionSort(q, (r: Record) => r.target);
    PermutedMultiset(q, s, perm);
    assert forall i, j | 0 <= i < j < |s| :: ((r: Record) => r.target)(s[i]) <= ((r: Record) => r.target)(s[j]);
  }

  lemma OkPermuted(q: seq<Record>, s: seq<Record>)
    requires AllOk(q) && multiset(q) == multiset(s)
    ensures AllOk(s)
  {
    hide RecordOk;
    forall i | 0 <= i < |s|
      ensures RecordOk(s[i])
    {
      assert s[i] in multiset(q);
    }
  }

  class Timer {
    var queue: seq<Record>

    ghost predicate Valid()
      reads this
    {
      Sorted(queue)
    }

    constructor ()
      ensures Valid() && queue == []
    {
      queue := [];
    }

    method AddCallback(first: nat, p: Period)
      requires Valid()
      modifies this
      ensures Valid() && multiset(queue) == multiset(old(queue)) + multiset{Record(first, p, [])}
      ensures old(AllOk(queue)) && Interval(p, first).1 == first ==> AllOk(queue)
    {
      hide RecordOk;
      NewRecordOk(p, first);
      var q := queue + [Record(first, p, [])];
      queue := SortQueue(q);
      if AllOk(q) {
        OkPermuted(q, queue);
      }
    }

    /** One callback per period, due at the end of the interval of the start. */
    method FillTimer(start: nat)
      requires Valid() && queue == []
      modifies this
      ensures Valid() && AllOk(queue) && |queue| == 7
      ensures forall p :: NewRecord(p, start) in multiset(queue)
    {
      hide RecordOk, Interval;
      var periods := [Minute, HalfHour, Hour, Day, Week, Month, Year];
      for i := 0 to |periods|
        invariant Valid() && AllOk(queue)
                  && multiset(queue) == multiset(seq(i, k requires 0 <= k < i => NewRecord(periods[k], start)))
      {
        ghost var was := seq(i, k requires 0 <= k < i => NewRecord(periods[k], start));
        NewRecordOk(periods[i], start);
        assert seq(i + 1, k requires 0 <= k < i + 1 => NewRecord(periods[k], start))
               == was + [NewRecord(periods[i], start)];
        AddCallback(Interval(periods[i], start).1, periods[i]);
      }
      ghost var all := seq(7, k requires 0 <= k < 7 => NewRecord(periods[k], start));
      forall p: Period
        ensures NewRecord(p, start) in multiset(queue)
      {
        var k := match p
          case Minute => 0
          case HalfHour => 1
          case Hour => 2
          case Day => 3
          case Week => 4
          case Month => 5
          case Year => 6;
        assert all[k] == NewRecord(p, start);
      }
    }

    /** One pass of the loop, at whatever time it comes. */
    method Pass(ct: nat)
      requires Valid()
      modifies this
      ensures Valid() && multiset(queue) == multiset(AllDue(old(queue), ct))
      ensures old(AllOk(queue)) ==> AllOk(queue)
    {
      hide RecordOk, Due;
      ghost var q := queue;
      for i := 0 to |queue|
        invariant |queue| == |q|
        invariant forall k | 0 <= k < |q| :: queue[k] == if k < i then Due(q[k], ct) else q[k]
      {
        queue := queue[i := Due(queue[i], ct)];
      }
      assert queue == AllDue(q, ct);
      ghost var done := queue;
      queue := SortQueue(queue);
      if AllOk(q) {
        AllDueKeeps(q, ct);
        OkPermuted(done, queue);
      }
    }
  }

  function NewRecord(p: Period, start: nat): Record {
    Contains(p, start);
    Record(Interval(p, start).1, p, [])
  }

  lemma DueKeeps(r: Record, ct: nat)
    requires RecordOk(r)
    ensures RecordOk(Due(r, ct))
  {
    hide RecordOk;
    if r.target <= ct {
      FireKeeps(r);
    }
  }

  lemma AllDueKeeps(q: seq<Record>, ct: nat)
    requires AllOk(q)
    ensures AllOk(AllDue(q, ct))
  {
    hide RecordOk, Due;
    forall i | 0 <= i < |q|
      ensures RecordOk(AllDue(q, ct)[i])
    {
      DueKeeps(q[i], ct);
    }
  }

  // --------------------------------------------------------------------- runs

  /** A record after passes at the given times, in that order. */
  function After(r: Record, times: seq<nat>): Record {
    if times == [] then r else Due(After(r, times[..|times| - 1]), times[|times| - 1])
  }

  /** However many passes, and however late: the intervals aggregated so far
      are consecutive, and the callback waits for the end of the next. */
  lemma {:induction false} RunTiles(p: Period, start: nat, times: seq<nat>)
    ensures var r := After(NewRecord(p, start), times);
            && RecordOk(r) && r.period == p && |r.fired| <= |times|
            && (r.fired != [] ==> r.fired[0] == Interval(p, start))
            && (r.fired == [] ==> r.target == Interval(p, start).1)
  {
    hide RecordOk, Interval;
    if times == [] {
      NewRecordOk(p, start);
    } else {
      var n := |times| - 1;
      RunTiles(p, start, times[..n]);
      DueKeeps(After(NewRecord(p, start), times[..n]), times[n]);
      Contains(p, start);
      Same(p, start, Interval(p, start).1);
    }
  }
}
