/** Reading the value at a time point: the latest measurement at or before it. */
module TimePoints {
  import opened Measurements
  import opened Bits
  import opened Streams
  import opened RecordCodec
  import opened RunCodec
  import opened PackedRuns
  import opened Drift
  import opened Chunks
  import opened ChunkCursors
  import opened ChunkStats
  import opened Cursors
  import opened ChunkSources
  import TwoLevel

  datatype PointQuery = PointQuery(ids: seq<Id>, flag: Flag, timePoint: Time)

  predicate Matches(m: Meas, ids: seq<Id>, flag: Flag) {
    AndBits(flag, m.flag) == flag && (ids == [] || m.id in ids)
  }

  predicate Candidate(m: Meas, q: PointQuery) {
    m.time <= q.timePoint && Matches(m, q.ids, q.flag)
  }

  /** The last candidate of a stream. */
  function LastCandidate(s: seq<Meas>, q: PointQuery): Option<Meas> {
    if s == [] then None
    else if Candidate(s[|s| - 1], q) then Some(s[|s| - 1])
    else LastCandidate(s[..|s| - 1], q)
  }

  function OrNone(m: Option<Meas>): Meas {
    if m.Some? then m.value else NO_MEAS
  }

  /** Drains the cursor. The flag that should remember a first find is never
      set, so every candidate overwrites the one before it. */
  method ReadTimePoint(c: Cursor, q: PointQuery) returns (result: Meas)
    requires c.Valid()
    modifies c.Repr()
    ensures c.Valid() && c.Pending() == []
    ensures result == OrNone(LastCandidate(old(c.Pending()), q))
  {
    hide Cursor.Valid, Cursor.Pending, Candidate;
    var resultSet := false;
    result := NO_MEAS;
    ghost var s, done := c.Pending(), [];
    assert s == [] + c.Pending();
    var more := true;
    while more
      invariant c.Valid() && s == done + c.Pending() && !resultSet && (!more ==> c.Pending() == [])
      invariant result == OrNone(LastCandidate(done, q))
      decreases more, |c.Pending()|
    {
      var m;
      more, m := TwoLevel.Next(c);
      if more {
        assert (done + [m])[..|done|] == done && done + ([m] + c.Pending()) == done + [m] + c.Pending();
        done := done + [m];
        if Candidate(m, q) {
          if !resultSet {
            result := m;
          } else if m.time > result.time {
            result := m;
          }
        }
      }
    }
    assert s == done;
  }

  // -------------------------------------------------- when that is the latest

  /** The last candidate is a latest one. */
  ghost predicate AnswersLatest(s: seq<Meas>, q: PointQuery) {
    match LastCandidate(s, q)
    case None => forall i | 0 <= i < |s| :: !Candidate(s[i], q)
    case Some(m) => m in s && Candidate(m, q) && forall i | 0 <= i < |s| && Candidate(s[i], q) :: s[i].time <= m.time
  }

  /** Wherever a matching stream steps back, it comes to the same time again. */
  ghost predicate Recovers(s: seq<Meas>, ids: seq<Id>, flag: Flag) {
    forall i, j | 0 <= i < j < |s| && Matches(s[i], ids, flag) && Matches(s[j], ids, flag) && s[j].time < s[i].time ::
      Again(s, ids, flag, s[i].time, j)
  }

  ghost predicate Again(s: seq<Meas>, ids: seq<Id>, flag: Flag, t: Time, j: nat) {
    exists k | j < k < |s| :: Matches(s[k], ids, flag) && s[k].time == t
  }

  /** Where the last candidate stands, if there is any. */
  lemma {:induction false} LastAt(s: seq<Meas>, q: PointQuery) returns (k: nat)
    ensures k <= |s| && forall i | 0 <= i < |s| && (k == |s| || i > k) :: !Candidate(s[i], q)
    ensures LastCandidate(s, q) == if k < |s| then Some(s[k]) else None
    ensures k < |s| ==> Candidate(s[k], q)
    decreases |s|
  {
    hide Candidate;
    if s == [] {
      k := 0;
    } else {
      var n := |s| - 1;
      if Candidate(s[n], q) {
        k := n;
      } else {
        var k' := LastAt(s[..n], q);
        k := if k' == n then |s| else k';
        forall i | 0 <= i < |s| && (k == |s| || i > k)
          ensures !Candidate(s[i], q)
        {
          if i < n { assert s[..n][i] == s[i]; }
        }
      }
    }
  }

  lemma RecoversAnswers(s: seq<Meas>, q: PointQuery)
    requires Recovers(s, q.ids, q.flag)
    ensures AnswersLatest(s, q)
  {
    hide Matches;
    var j := LastAt(s, q);
    forall i | 0 <= i < |s| && Candidate(s[i], q)
      ensures s[i].time <= s[j].time
    {
      if s[j].time < s[i].time {
        StepsBack(s, q, i, j);
      }
    }
  }

  lemma StepsBack(s: seq<Meas>, q: PointQuery, i: nat, j: nat)
    requires Recovers(s, q.ids, q.flag) && i < j < |s| && s[j].time < s[i].time
    requires Candidate(s[i], q) && Candidate(s[j], q)
    ensures exists k | j < k < |s| :: Candidate(s[k], q)
  {
    hide Matches;
    assert Again(s, q.ids, q.flag, s[i].time, j);
    var k :| j < k < |s| && Matches(s[k], q.ids, q.flag) && s[k].time == s[i].time;
    assert Candidate(s[k], q);
  }

  lemma AnswersRecovers(s: seq<Meas>, ids: seq<Id>, flag: Flag, i: nat, j: nat)
    requires i < j < |s| && Matches(s[i], ids, flag) && Matches(s[j], ids, flag) && s[j].time < s[i].time
    requires AnswersLatest(s, PointQuery(ids, flag, s[i].time))
    ensures Again(s, ids, flag, s[i].time, j)
  {
    hide Matches;
    var q := PointQuery(ids, flag, s[i].time);
    var k := LastAt(s, q);
    assert Candidate(s[i], q) && Candidate(s[j], q);
    assert s[k].time == s[i].time;
  }

  /** Every time point is answered with a latest measurement exactly if the
      matching stream, wherever it steps back, comes to the same time again. */
  lemma LatestExactly(s: seq<Meas>, ids: seq<Id>, flag: Flag)
    ensures (forall t: Time :: AnswersLatest(s, PointQuery(ids, flag, t))) <==> Recovers(s, ids, flag)
  {
    hide AnswersLatest, Matches, Again;
    if Recovers(s, ids, flag) {
      forall t: Time
        ensures AnswersLatest(s, PointQuery(ids, flag, t))
      {
        RecoversAnswers(s, PointQuery(ids, flag, t));
      }
    } else if forall t: Time :: AnswersLatest(s, PointQuery(ids, flag, t)) {
      var i, j :| 0 <= i < j < |s| && Matches(s[i], ids, flag) && Matches(s[j], ids, flag) && s[j].time < s[i].time
                  && !Again(s, ids, flag, s[i].time, j);
      AnswersRecovers(s, ids, flag, i, j);
    }
  }

  /** A sorted stream never steps back. */
  lemma LatestInSorted(s: seq<Meas>, q: PointQuery)
    requires Nondecreasing(s)
    ensures AnswersLatest(s, q)
  {
    hide AnswersLatest, Matches;
    RecoversAnswers(s, q);
  }

  // -------------------------------------------------------------- over a chunk

  /** The time-point read of a chunk: of what is read back, the latest, unless a
      chunk in order drifts past the end of the clock. */
  method ChunkTimePoint(chunk: Chunk, q: PointQuery) returns (result: Meas)
    requires chunk.Valid()
    ensures exists s :: && CanYield(Nondecreasing(chunk.history), Decoded(chunk.history), s)
                        && result == OrNone(LastCandidate(s, q))
                        && (!Nondecreasing(chunk.history) || InClock(chunk.history) ==> AnswersLatest(s, q))
  {
    hide *;
    HistoryStarts(chunk);
    ghost var h := chunk.history;
    var c;
    ghost var s;
    c, s := OpenChunk(chunk);
    HoldsIs(c, s);
    result := ReadTimePoint(c, q);
    if !Nondecreasing(h) || InClock(h) {
      YieldSorted(h, s);
      LatestInSorted(s, q);
    }
  }

  lemma HistoryStarts(chunk: Chunk)
    requires chunk.Valid()
    ensures chunk.history != []
  {
    hide Packed;
  }

  lemma HoldsIs(c: Cursor, s: seq<Meas>)
    requires Holds(c, s)
    ensures c.Valid() && c.Pending() == s
  {
    hide Cursor.Valid, Cursor.Pending;
  }

  lemma YieldSorted(h: seq<Meas>, s: seq<Meas>)
    requires h != [] && CanYield(Nondecreasing(h), Decoded(h), s) && (!Nondecreasing(h) || InClock(h))
    ensures Nondecreasing(s)
  {
    hide Decoded, InClock, Heads, Yielded;
    if Nondecreasing(h) {
      ChunkReadable(h);
    } else {
      var ma :| IsSortedCopy(ma, Decoded(h)) && s == Heads(ma);
      HeadsIncreasing(ma);
    }
  }

  /** The last of these times is read back as 0. */
  const LAST_HOUR := [Meas(1, MAX_TIME - 5904, 0, 0), Meas(1, MAX_TIME - 904, 0, 0), Meas(1, MAX_TIME, 0, 0)]

  /** A chunk in order that drifts past the end of the clock answers its last
      moment with time 0. */
  lemma WrappedNotLatest()
    ensures Packable(LAST_HOUR) && Nondecreasing(LAST_HOUR) && !InClock(LAST_HOUR)
    ensures !AnswersLatest(Yielded(Decoded(LAST_HOUR)), PointQuery([], 0, MAX_TIME))
  {
    WrappedDecodes();
    hide Decoded, Yielded, Packable, InClock;
    var d, q := LAST_HOUR[2 := Meas(1, 0, 0, 0)], PointQuery([], 0, MAX_TIME);
    YieldedDistinct(d);
    assert Matches(d[1], [], 0) && Matches(d[2], [], 0);
    assert LastCandidate(d, q) == Some(d[2]) && Candidate(d[1], q) && d[1].time > d[2].time;
  }

  lemma WrappedDecodes()
    ensures Packable(LAST_HOUR) && Decoded(LAST_HOUR) == LAST_HOUR[2 := Meas(1, 0, 0, 0)] && !InClock(LAST_HOUR)
  {
    var h := LAST_HOUR;
    WrappedSteps();
    hide Steps;
    assert Bumped(Steps(h)[1]);
    DriftStep(h, 0);
    DriftStep(h, 1);
    DecodedAt(h, 0);
    DecodedAt(h, 1);
    DecodedAt(h, 2);
  }

  lemma WrappedSteps()
    ensures Packable(LAST_HOUR) && Steps(LAST_HOUR) == [5000, -4096]
  {
    var h := LAST_HOUR;
    var a, b, c := State(MAX_TIME - 5904, 0, 0), State(MAX_TIME - 904, 5000, 0), State(MAX_TIME, -4096, 0);
    assert h[1..][1..] == h[2..] && h[2..][1..] == [];
    StepTo(a, h[1], b);
    StepTo(b, h[2], c);
    assert Deltas(c, []) == [] && Encodable(c, []);
    assert Deltas(b, h[2..]) == [-4096] + Deltas(c, []);
  }
}
