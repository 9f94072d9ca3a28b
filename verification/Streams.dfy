/** What reading a cursor to its end yields, as functions of the measurements
    behind it, and the algebra of merging. */
module Streams {
  import opened Measurements

  /** Streams one after another. */
  function Concat(ss: seq<seq<Meas>>): seq<Meas> {
    if ss == [] then [] else ss[0] + Concat(ss[1..])
  }

  lemma {:induction false} ConcatSnoc(ss: seq<seq<Meas>>, last: seq<Meas>)
    ensures Concat(ss + [last]) == Concat(ss) + last
  {
    if ss == [] {
      assert ss + [last] == [last] && Concat([last]) == last + Concat([last][1..]);
    } else {
      ConcatSnoc(ss[1..], last);
      assert (ss + [last])[1..] == ss[1..] + [last];
    }
  }

  lemma {:induction false} ConcatJoin(a: seq<seq<Meas>>, b: seq<seq<Meas>>)
    ensures Concat(a + b) == Concat(a) + Concat(b)
  {
    if a == [] {
      assert a + b == b;
    } else {
      ConcatJoin(a[1..], b);
      assert (a + b)[1..] == a[1..] + b && (a + b)[0] == a[0];
      assert a[0] + (Concat(a[1..]) + Concat(b)) == a[0] + Concat(a[1..]) + Concat(b);
    }
  }

  ghost predicate Nondecreasing(s: seq<Meas>) {
    forall i, j | 0 <= i < j < |s| :: s[i].time <= s[j].time
  }

  ghost predicate Increasing(s: seq<Meas>) {
    forall i, j | 0 <= i < j < |s| :: s[i].time < s[j].time
  }

  /** s without its leading measurements of time t. */
  function SkipRun(s: seq<Meas>, t: Time): (r: seq<Meas>)
    ensures |r| <= |s|
  {
    if s != [] && s[0].time == t then SkipRun(s[1..], t) else s
  }

  lemma {:induction false} SkipRunSuffix(s: seq<Meas>, t: Time)
    ensures var r := SkipRun(s, t);
            && r == s[|s| - |r|..] && (r != [] ==> r[0].time != t)
            && forall i | 0 <= i < |s| - |r| :: s[i].time == t
  {
    if s != [] && s[0].time == t {
      SkipRunSuffix(s[1..], t);
      var r := SkipRun(s[1..], t);
      hide SkipRun;
      forall i | 0 <= i < |s| - |r|
        ensures s[i].time == t
      {
        if i > 0 { assert s[1..][i - 1].time == t; }
      }
    }
  }

  /** The first measurement of every run of equal times: what a cursor that
      skips duplicates yields. */
  function Heads(s: seq<Meas>): (r: seq<Meas>)
    ensures |r| <= |s|
    ensures s != [] ==> r != [] && r[0] == s[0]
    decreases |s|
  {
    if s == [] then [] else [s[0]] + Heads(SkipRun(s[1..], s[0].time))
  }

  /** The first measurement of time t. */
  function Lookup(s: seq<Meas>, t: Time): (r: Option<Meas>)
    ensures r.None? <==> forall i | 0 <= i < |s| :: s[i].time != t
    ensures r.Some? ==> r.value in s && r.value.time == t
  {
    if s == [] then None else if s[0].time == t then Some(s[0]) else Lookup(s[1..], t)
  }

  /** A strictly increasing stream is determined by what it holds per time. */
  lemma {:induction false} SameLookups(a: seq<Meas>, b: seq<Meas>)
    requires Increasing(a) && Increasing(b)
    requires forall t: Time :: Lookup(a, t) == Lookup(b, t)
    ensures a == b
    decreases |a|
  {
    if a != [] {
      assert Lookup(a, a[0].time) == Lookup(b, a[0].time);
    }
    if b != [] {
      assert Lookup(a, b[0].time) == Lookup(b, b[0].time);
    }
    if a != [] && b != [] {
      var ta, tb := a[0].time, b[0].time;
      assert Lookup(a, ta) == Lookup(b, ta) && Lookup(a, tb) == Lookup(b, tb);
      LookupAtLeast(a, tb);
      LookupAtLeast(b, ta);
      assert a[0] == b[0];
      forall t: Time
        ensures Lookup(a[1..], t) == Lookup(b[1..], t)
      {
        assert Lookup(a, t) == Lookup(b, t);
        LookupTail(a, t);
        LookupTail(b, t);
      }
      SameLookups(a[1..], b[1..]);
      assert a == [a[0]] + a[1..] && b == [b[0]] + b[1..];
    }
  }

  lemma LookupAtLeast(s: seq<Meas>, t: Time)
    requires Increasing(s) && s != [] && Lookup(s, t).Some?
    ensures s[0].time <= t
  {
    var m := Lookup(s, t).value;
    var i :| 0 <= i < |s| && s[i] == m;
  }

  lemma LookupTail(s: seq<Meas>, t: Time)
    requires Increasing(s) && s != []
    ensures Lookup(s[1..], t) == if t == s[0].time then None else Lookup(s, t)
  {
  }

  lemma {:induction false} LookupConcat(a: seq<Meas>, b: seq<Meas>, t: Time)
    ensures Lookup(a + b, t) == if Lookup(a, t).Some? then Lookup(a, t) else Lookup(b, t)
    decreases |a|
  {
    if a == [] {
      assert a + b == b;
    } else {
      assert (a + b)[1..] == a[1..] + b;
      LookupConcat(a[1..], b, t);
    }
  }

  lemma {:induction false} LookupSkipRun(s: seq<Meas>, t: Time, u: Time)
    requires Nondecreasing(s)
    ensures u != t ==> Lookup(SkipRun(s, t), u) == Lookup(s, u)
    ensures s != [] && t <= s[0].time ==> Lookup(SkipRun(s, t), t) == None
    decreases |s|
  {
    if s != [] && s[0].time == t {
      LookupSkipRun(s[1..], t, u);
      if s[1..] != [] {
        assert t <= s[1..][0].time;
      }
    }
  }

  /** Skipping duplicates keeps the first measurement of every time. */
  lemma HeadsLookup(s: seq<Meas>)
    requires Nondecreasing(s)
    ensures Increasing(Heads(s))
    ensures forall t: Time :: Lookup(Heads(s), t) == Lookup(s, t)
  {
    HeadsIncreasing(s);
    forall t: Time
      ensures Lookup(Heads(s), t) == Lookup(s, t)
    {
      HeadsLookupAt(s, t);
    }
  }

  lemma {:induction false} HeadsLookupAt(s: seq<Meas>, t: Time)
    requires Nondecreasing(s)
    ensures Lookup(Heads(s), t) == Lookup(s, t)
    decreases |s|
  {
    if s != [] {
      var rest := SkipRun(s[1..], s[0].time);
      SkipRunLater(s);
      HeadsLookupAt(rest, t);
      LookupSkipRun(s[1..], s[0].time, t);
      assert Heads(s)[1..] == Heads(rest);
    }
  }

  lemma {:induction false} HeadsIncreasing(s: seq<Meas>)
    requires Nondecreasing(s)
    ensures Increasing(Heads(s))
    decreases |s|
  {
    if s != [] {
      var rest := SkipRun(s[1..], s[0].time);
      SkipRunLater(s);
      hide Nondecreasing, SkipRun;
      HeadsIncreasing(rest);
      IncreasingCons(s[0], Heads(rest));
      hide Increasing;
    }
  }

  lemma SkipRunLater(s: seq<Meas>)
    requires s != [] && Nondecreasing(s)
    ensures var rest := SkipRun(s[1..], s[0].time);
            Nondecreasing(rest) && (rest != [] ==> s[0].time < rest[0].time)
  {
    var rest := SkipRun(s[1..], s[0].time);
    SkipRunSuffix(s[1..], s[0].time);
    assert forall i | 0 <= i < |rest| :: rest[i] == s[|s| - |rest| + i];
  }

  lemma IncreasingCons(m: Meas, s: seq<Meas>)
    requires Increasing(s) && (s != [] ==> m.time < s[0].time)
    ensures Increasing([m] + s)
  {
  }

  /** Strictly increasing streams have nothing to skip. */
  lemma {:induction false} HeadsOfIncreasing(s: seq<Meas>)
    requires Increasing(s)
    ensures Heads(s) == s
    decreases |s|
  {
    if s != [] {
      hide Increasing, SkipRun;
      IncreasingTail(s);
      HeadsOfIncreasing(s[1..]);
      assert s == [s[0]] + s[1..];
    }
  }

  lemma IncreasingTail(s: seq<Meas>)
    requires s != [] && Increasing(s)
    ensures Increasing(s[1..]) && SkipRun(s[1..], s[0].time) == s[1..]
  {
  }

  // ------------------------------------------------------ streams time by time

  /** The measurements of time t, in order. */
  function At(s: seq<Meas>, t: Time): (r: seq<Meas>)
    ensures r == [] <==> Lookup(s, t).None?
    ensures r != [] ==> Lookup(s, t) == Some(r[0])
  {
    if s == [] then [] else if s[0].time == t then [s[0]] + At(s[1..], t) else At(s[1..], t)
  }

  lemma {:induction false} AtConcat(a: seq<Meas>, b: seq<Meas>, t: Time)
    ensures At(a + b, t) == At(a, t) + At(b, t)
    decreases |a|
  {
    if a == [] {
      assert a + b == b;
    } else {
      assert (a + b)[1..] == a[1..] + b;
      AtConcat(a[1..], b, t);
    }
  }

  lemma AtHead(s: seq<Meas>, t: Time)
    requires s != []
    ensures At(s, t) == if t == s[0].time then [s[0]] + At(s[1..], t) else At(s[1..], t)
  {
  }

  lemma SameHead(a: seq<Meas>, b: seq<Meas>)
    requires Nondecreasing(a) && Nondecreasing(b) && a != [] && b != []
    requires At(a, a[0].time) == At(b, a[0].time) && At(a, b[0].time) == At(b, b[0].time)
    ensures a[0] == b[0]
  {
    AtHead(a, a[0].time);
    AtHead(b, b[0].time);
    hide At, Lookup;
    var i :| 0 <= i < |a| && a[i].time == b[0].time;
    var j :| 0 <= j < |b| && b[j].time == a[0].time;
  }

  lemma SameTail(a: seq<Meas>, b: seq<Meas>, t: Time)
    requires a != [] && b != [] && a[0] == b[0] && At(a, t) == At(b, t)
    ensures At(a[1..], t) == At(b[1..], t)
  {
    assert a[0].time == t ==> At(a, t)[1..] == At(a[1..], t) && At(b, t)[1..] == At(b[1..], t);
  }

  /** A sorted stream is determined by what it holds per time. */
  lemma {:induction false} SameAt(a: seq<Meas>, b: seq<Meas>)
    requires Nondecreasing(a) && Nondecreasing(b)
    requires forall t: Time :: At(a, t) == At(b, t)
    ensures a == b
    decreases |a|
  {
    hide At, Lookup;
    if a != [] {
      assert At(a, a[0].time) == At(b, a[0].time);
      AtHead(a, a[0].time);
    }
    if b != [] {
      assert At(a, b[0].time) == At(b, b[0].time);
      AtHead(b, b[0].time);
    }
    if a != [] && b != [] {
      SameHead(a, b);
      assert Nondecreasing(a[1..]) && Nondecreasing(b[1..]);
      forall t: Time
        ensures At(a[1..], t) == At(b[1..], t)
      {
        assert At(a, t) == At(b, t);
        SameTail(a, b, t);
      }
      hide Nondecreasing;
      SameAt(a[1..], b[1..]);
      assert a == [a[0]] + a[1..] && b == [b[0]] + b[1..];
    }
  }

  /** Strictly sorted means: sorted, and each time at most once. */
  lemma {:induction false} IncreasingAt(s: seq<Meas>, t: Time)
    requires Increasing(s)
    ensures |At(s, t)| <= 1
    decreases |s|
  {
    if s != [] {
      IncreasingAt(s[1..], t);
      assert t == s[0].time ==> Lookup(s[1..], t).None?;
    }
  }

  lemma RepeatedAt(s: seq<Meas>) returns (t: Time)
    requires Nondecreasing(s) && !Increasing(s)
    ensures |At(s, t)| >= 2
  {
    var i, j :| 0 <= i < j < |s| && s[i].time >= s[j].time;
    t := s[i].time;
    var a, b := s[..i + 1], s[i + 1..];
    assert s == a + b;
    AtConcat(a, b, t);
    assert a[i].time == t && b[j - i - 1].time == t;
    assert Lookup(a, t).Some? && Lookup(b, t).Some?;
  }

  /** A stream has as many of time t as its multiset. */
  lemma {:induction false} AtMultiset(s: seq<Meas>, t: Time, m: Meas)
    ensures multiset(At(s, t))[m] == if m.time == t then multiset(s)[m] else 0
  {
    if s != [] {
      AtMultiset(s[1..], t, m);
      assert s == [s[0]] + s[1..];
    }
  }

  /** Streams with the same measurements have the same ones of time t; the same
      sequence of them if there is at most one. */
  lemma SameOnce(a: seq<Meas>, b: seq<Meas>, t: Time)
    requires multiset(a) == multiset(b) && |At(a, t)| <= 1
    ensures At(b, t) == At(a, t)
  {
    forall m: Meas
      ensures multiset(At(a, t))[m] == multiset(At(b, t))[m]
    {
      AtMultiset(a, t, m);
      AtMultiset(b, t, m);
    }
    hide At;
    ShortSame(At(a, t), At(b, t));
  }

  lemma ShortSame<T>(x: seq<T>, y: seq<T>)
    requires |x| <= 1 && multiset(x) == multiset(y)
    ensures y == x
  {
    assert |multiset(x)| == |x| && |multiset(y)| == |y|;
    if |x| == 1 {
      assert y[0] in multiset(y);
    }
  }

  /** The measurements of time t in the lowest-indexed stream that has any. */
  function AtFirst(ss: seq<seq<Meas>>, t: Time): seq<Meas> {
    if ss == [] then [] else if At(ss[0], t) != [] then At(ss[0], t) else AtFirst(ss[1..], t)
  }

  /** The sorted stream that joins streams which have no time in common. */
  ghost predicate IsJoinOf(out: seq<Meas>, ss: seq<seq<Meas>>) {
    Nondecreasing(out) && forall t: Time :: At(out, t) == AtFirst(ss, t)
  }

  lemma {:induction false} ConcatHas(ss: seq<seq<Meas>>, t: Time, k: nat)
    requires k < |ss|
    ensures |At(Concat(ss), t)| >= |At(ss[k], t)|
  {
    AtConcat(ss[0], Concat(ss[1..]), t);
    if k > 0 {
      ConcatHas(ss[1..], t, k - 1);
    }
  }

  lemma {:induction false} ConcatHasBoth(ss: seq<seq<Meas>>, t: Time, k: nat, l: nat)
    requires k < l < |ss|
    ensures |At(Concat(ss), t)| >= |At(ss[k], t)| + |At(ss[l], t)|
  {
    AtConcat(ss[0], Concat(ss[1..]), t);
    if k > 0 {
      ConcatHasBoth(ss[1..], t, k - 1, l - 1);
    } else {
      ConcatHas(ss[1..], t, l - 1);
    }
  }

  /** Only stream k may have time t. */
  lemma {:induction false} AtFirstOnly(ss: seq<seq<Meas>>, t: Time, k: nat)
    requires k <= |ss| && forall j | 0 <= j < |ss| && j != k :: At(ss[j], t) == []
    ensures AtFirst(ss, t) == if k < |ss| then At(ss[k], t) else []
    decreases |ss|
  {
    if ss != [] {
      AtFirstOnly(ss[1..], t, if k == 0 then |ss| - 1 else k - 1);
    }
  }

  lemma {:induction false} ConcatAt(ss: seq<seq<Meas>>, t: Time, k: nat)
    requires k <= |ss| && forall j | 0 <= j < |ss| && j != k :: At(ss[j], t) == []
    ensures At(Concat(ss), t) == if k < |ss| then At(ss[k], t) else []
    decreases |ss|
  {
    if ss != [] {
      AtConcat(ss[0], Concat(ss[1..]), t);
      ConcatAt(ss[1..], t, if k == 0 then |ss| - 1 else k - 1);
    }
  }

  // ------------------------------------------------------------------ merging

  function TopTime(s: seq<Meas>): Time {
    if s == [] then MAX_TIME else s[0].time
  }

  ghost predicate AllEmpty(ss: seq<seq<Meas>>) {
    forall i | 0 <= i < |ss| :: ss[i] == []
  }

  /** Streams a merge can be asked for: sorted, and no measurement at the time
      that stands for "nothing left". */
  ghost predicate Mergeable(ss: seq<seq<Meas>>) {
    forall i | 0 <= i < |ss| :: Readable(ss[i])
  }

  ghost predicate Readable(s: seq<Meas>) {
    Nondecreasing(s) && forall j | 0 <= j < |s| :: s[j].time < MAX_TIME
  }

  ghost predicate AllAfter(s: seq<Meas>, t: Time) {
    forall j | 0 <= j < |s| :: t < s[j].time
  }

  lemma SkipRunReadable(s: seq<Meas>, t: Time)
    requires Readable(s) && t <= TopTime(s)
    ensures Readable(SkipRun(s, t)) && AllAfter(SkipRun(s, t), t)
  {
    SkipRunSuffix(s, t);
    var r := SkipRun(s, t);
    assert forall j | 0 <= j < |r| :: r[j] == s[|s| - |r| + j];
  }

  /** The lowest index whose stream starts earliest. */
  ghost predicate IsFirstMin(ss: seq<seq<Meas>>, k: nat) {
    && k < |ss|
    && (forall i | 0 <= i < |ss| :: TopTime(ss[k]) <= TopTime(ss[i]))
    && (forall i | 0 <= i < k :: TopTime(ss[k]) < TopTime(ss[i]))
  }

  /** The value the lowest-indexed stream that holds time t has for it. */
  function FirstOf(ss: seq<seq<Meas>>, t: Time): (r: Option<Meas>)
    ensures r.None? <==> forall i | 0 <= i < |ss| :: Lookup(ss[i], t).None?
  {
    if ss == [] then None
    else if Lookup(ss[0], t).Some? then Lookup(ss[0], t)
    else FirstOf(ss[1..], t)
  }

  lemma {:induction false} FirstOfAt(ss: seq<seq<Meas>>, t: Time, k: nat)
    requires k < |ss| && Lookup(ss[k], t).Some? && forall i | 0 <= i < k :: Lookup(ss[i], t).None?
    ensures FirstOf(ss, t) == Lookup(ss[k], t)
    decreases |ss|
  {
    if k > 0 {
      FirstOfAt(ss[1..], t, k - 1);
    }
  }

  lemma {:induction false} FirstOfEqual(ss: seq<seq<Meas>>, rs: seq<seq<Meas>>, t: Time)
    requires |ss| == |rs| && forall i | 0 <= i < |ss| :: Lookup(ss[i], t) == Lookup(rs[i], t)
    ensures FirstOf(ss, t) == FirstOf(rs, t)
    decreases |ss|
  {
    if ss != [] {
      FirstOfEqual(ss[1..], rs[1..], t);
    }
  }

  lemma {:induction false} FirstOfAppend(a: seq<seq<Meas>>, b: seq<seq<Meas>>, t: Time)
    ensures FirstOf(a + b, t) == if FirstOf(a, t).Some? then FirstOf(a, t) else FirstOf(b, t)
    decreases |a|
  {
    if a == [] {
      assert a + b == b;
    } else {
      assert (a + b)[1..] == a[1..] + b;
      FirstOfAppend(a[1..], b, t);
    }
  }

  /** The specification of a merge: the strictly increasing stream that holds,
      for every time, what the lowest-indexed input has for it. */
  ghost predicate IsMergeOf(out: seq<Meas>, ss: seq<seq<Meas>>) {
    Increasing(out) && forall t: Time :: Lookup(out, t) == FirstOf(ss, t)
  }

  /** ... of which there is only one. */
  lemma MergeUnique(a: seq<Meas>, b: seq<Meas>, ss: seq<seq<Meas>>)
    requires IsMergeOf(a, ss) && IsMergeOf(b, ss)
    ensures a == b
  {
    forall t: Time
      ensures Lookup(a, t) == Lookup(b, t)
    {
      assert Lookup(a, t) == FirstOf(ss, t);
    }
    SameLookups(a, b);
  }

  /** One step of a merge: emit the earliest head, drop its time everywhere. */
  ghost predicate MergeStep(ss: seq<seq<Meas>>, m: Meas, rs: seq<seq<Meas>>) {
    && |rs| == |ss|
    && (exists k: nat | k < |ss| :: IsFirstMin(ss, k) && ss[k] != [] && m == ss[k][0])
    && (forall i | 0 <= i < |ss| :: rs[i] == SkipRun(ss[i], m.time))
  }

  lemma StepKeepsMergeable(ss: seq<seq<Meas>>, m: Meas, rs: seq<seq<Meas>>)
    requires Mergeable(ss) && MergeStep(ss, m, rs)
    ensures Mergeable(rs)
    ensures forall i | 0 <= i < |rs| :: AllAfter(rs[i], m.time)
  {
    hide Readable, AllAfter, SkipRun;
    forall i | 0 <= i < |rs|
      ensures Readable(rs[i]) && AllAfter(rs[i], m.time)
    {
      SkipRunReadable(ss[i], m.time);
    }
  }

  lemma StepEmits(ss: seq<seq<Meas>>, m: Meas, rs: seq<seq<Meas>>, t: Time)
    requires Mergeable(ss) && MergeStep(ss, m, rs)
    ensures FirstOf(ss, t) == if t == m.time then Some(m) else FirstOf(rs, t)
  {
    if t == m.time {
      var k: nat :| k < |ss| && IsFirstMin(ss, k) && ss[k] != [] && m == ss[k][0];
      forall i | 0 <= i < k
        ensures Lookup(ss[i], t).None?
      {
        assert TopTime(ss[k]) < TopTime(ss[i]) && Readable(ss[i]);
      }
      FirstOfAt(ss, t, k);
    } else {
      forall i | 0 <= i < |ss|
        ensures Lookup(ss[i], t) == Lookup(rs[i], t)
      {
        assert Readable(ss[i]);
        LookupSkipRun(ss[i], m.time, t);
      }
      FirstOfEqual(ss, rs, t);
    }
  }

  /** Emitting one step and then any merge of what is left is a merge. */
  lemma MergeCons(ss: seq<seq<Meas>>, m: Meas, rs: seq<seq<Meas>>, out: seq<Meas>)
    requires Mergeable(ss) && MergeStep(ss, m, rs) && IsMergeOf(out, rs)
    ensures IsMergeOf([m] + out, ss)
  {
    assert Increasing([m] + out) by {
      forall i | 0 <= i < |out|
        ensures m.time < out[i].time
      {
        StepBefore(ss, m, rs, out, i);
      }
    }
    forall t: Time
      ensures Lookup([m] + out, t) == FirstOf(ss, t)
    {
      StepEmits(ss, m, rs, t);
      assert ([m] + out)[1..] == out;
      assert Lookup(out, t) == FirstOf(rs, t);
      hide FirstOf, MergeStep, Mergeable;
    }
  }

  lemma StepBefore(ss: seq<seq<Meas>>, m: Meas, rs: seq<seq<Meas>>, out: seq<Meas>, i: nat)
    requires Mergeable(ss) && MergeStep(ss, m, rs) && IsMergeOf(out, rs) && i < |out|
    ensures m.time < out[i].time
  {
    StepKeepsMergeable(ss, m, rs);
    var t := out[i].time;
    assert Lookup(out, t) == FirstOf(rs, t);
    hide MergeStep, Mergeable;
    var j :| 0 <= j < |rs| && Lookup(rs[j], t).Some?;
    assert AllAfter(rs[j], m.time);
  }

  lemma MergeNothing(ss: seq<seq<Meas>>)
    requires AllEmpty(ss)
    ensures IsMergeOf([], ss)
  {
    forall t: Time
      ensures FirstOf(ss, t).None?
    {
    }
  }

  function Total(ss: seq<seq<Meas>>): nat {
    if ss == [] then 0 else |ss[0]| + Total(ss[1..])
  }

  function FirstMin(ss: seq<seq<Meas>>): (k: nat)
    requires ss != []
    ensures IsFirstMin(ss, k)
  {
    var n := |ss| - 1;
    if n == 0 then 0
    else
      var k := FirstMin(ss[..n]);
      if TopTime(ss[n]) < TopTime(ss[k]) then n else k
  }

  function SkipAll(ss: seq<seq<Meas>>, t: Time): (rs: seq<seq<Meas>>)
    ensures |rs| == |ss| && forall i | 0 <= i < |ss| :: rs[i] == SkipRun(ss[i], t)
  {
    if ss == [] then [] else [SkipRun(ss[0], t)] + SkipAll(ss[1..], t)
  }

  lemma {:induction false} SkipAllShrinks(ss: seq<seq<Meas>>, t: Time)
    ensures Total(SkipAll(ss, t)) <= Total(ss)
    ensures (exists i | 0 <= i < |ss| :: ss[i] != [] && ss[i][0].time == t) ==> Total(SkipAll(ss, t)) < Total(ss)
  {
    if ss != [] {
      SkipAllShrinks(ss[1..], t);
      assert SkipAll(ss, t)[1..] == SkipAll(ss[1..], t);
    }
  }

  lemma FirstMinStarts(ss: seq<seq<Meas>>)
    requires Mergeable(ss) && !AllEmpty(ss)
    ensures ss != [] && ss[FirstMin(ss)] != []
  {
    var i :| 0 <= i < |ss| && ss[i] != [];
    assert Readable(ss[i]);
    assert TopTime(ss[FirstMin(ss)]) <= TopTime(ss[i]) < MAX_TIME;
  }

  /** The merge of sorted streams, by repeated steps. */
  ghost function MergeAll(ss: seq<seq<Meas>>): (out: seq<Meas>)
    requires Mergeable(ss)
    decreases Total(ss)
  {
    if AllEmpty(ss) then []
    else
      FirstMinStarts(ss);
      var k := FirstMin(ss);
      var m := ss[k][0];
      var rs := SkipAll(ss, m.time);
      StepKeepsMergeable(ss, m, rs);
      SkipAllShrinks(ss, m.time);
      [m] + MergeAll(rs)
  }

  /** It meets the specification of a merge. */
  lemma {:induction false} MergeAllCorrect(ss: seq<seq<Meas>>)
    requires Mergeable(ss)
    ensures IsMergeOf(MergeAll(ss), ss)
    decreases Total(ss)
  {
    if AllEmpty(ss) {
      MergeNothing(ss);
    } else {
      FirstMinStarts(ss);
      var k := FirstMin(ss);
      var m := ss[k][0];
      var rs := SkipAll(ss, m.time);
      assert MergeStep(ss, m, rs);
      hide IsMergeOf, SkipAll;
      StepKeepsMergeable(ss, m, rs);
      SkipAllShrinks(ss, m.time);
      MergeAllCorrect(rs);
      MergeCons(ss, m, rs, MergeAll(rs));
    }
  }

  /** Whoever makes the step, the rest of the merge follows. */
  lemma MergeAllStep(ss: seq<seq<Meas>>, m: Meas, rs: seq<seq<Meas>>)
    requires Mergeable(ss) && MergeStep(ss, m, rs)
    ensures Mergeable(rs) && MergeAll(ss) == [m] + MergeAll(rs)
  {
    StepKeepsMergeable(ss, m, rs);
    MergeAllCorrect(ss);
    MergeAllCorrect(rs);
    MergeCons(ss, m, rs, MergeAll(rs));
    MergeUnique(MergeAll(ss), [m] + MergeAll(rs), ss);
  }
}
