/** How far the times of a chunk drift when they are read back, and what that
    does to their order. */
module Drift {
  import opened Measurements
  import opened Streams
  import opened RecordCodec
  import opened RunCodec
  import opened PackedRuns

  /** The second differences of the stored times. */
  function Steps(h: seq<Meas>): (ds: seq<int64>)
    requires h != []
    ensures |ds| == |h| - 1
  {
    Deltas(Initial(h[0]), h[1..])
  }

  /** Every time survives the 3-byte code. */
  ghost predicate NoBumps(h: seq<Meas>)
    requires h != []
  {
    forall i | 0 <= i < |h| - 1 :: !Bumped(Steps(h)[i])
  }

  /** What is added to time i: two for every earlier bumped step, one for its
      own. */
  function DriftOf(h: seq<Meas>, i: nat): nat
    requires i < |h|
  {
    if i == 0 then 0 else 2 * Bumps(Steps(h)[..i - 1]) + Bump(Steps(h)[i - 1])
  }

  lemma DecodedAt(h: seq<Meas>, i: nat)
    requires i < |h|
    ensures Decoded(h)[i] == Meas(h[0].id, Wrap(h[i].time + DriftOf(h, i)), h[i].value, h[i].flag)
  {
    if i > 0 {
      DriftAt(Initial(h[0]), 0, h[0].id, h[1..], i - 1);
    } else {
      WrapTime(h[0].time);
    }
  }

  /** Drift only grows, by at most two a step. */
  lemma DriftStep(h: seq<Meas>, i: nat)
    requires i + 1 < |h|
    ensures DriftOf(h, i) <= DriftOf(h, i + 1) <= DriftOf(h, i) + 2
    ensures Bumped(Steps(h)[i]) ==> DriftOf(h, i) < DriftOf(h, i + 1)
    ensures DriftOf(h, i) == 0 && !Bumped(Steps(h)[i]) ==> DriftOf(h, i + 1) == 0
  {
    var ds := Steps(h);
    hide Steps;
    if i > 0 {
      assert ds[..i][..i - 1] == ds[..i - 1] && ds[..i][i - 1] == ds[i - 1];
      assert Bumps(ds[..i]) == Bump(ds[i - 1]) + Bumps(ds[..i - 1]);
    } else {
      assert ds[..0] == [];
    }
  }

  lemma {:induction false} DriftGrows(h: seq<Meas>, i: nat, j: nat)
    requires i <= j < |h|
    ensures DriftOf(h, i) <= DriftOf(h, j) <= DriftOf(h, i) + 2 * (j - i)
    decreases j - i
  {
    hide DriftOf;
    if i < j {
      DriftGrows(h, i, j - 1);
      DriftStep(h, j - 1);
    }
  }

  lemma {:induction false} NoDrift(h: seq<Meas>, i: nat)
    requires i < |h| && NoBumps(h)
    ensures DriftOf(h, i) == 0
    decreases i
  {
    if i > 0 {
      NoDrift(h, i - 1);
      DriftStep(h, i - 1);
    }
  }

  /** The last time drifts exactly if some step is bumped. */
  lemma LastDrifts(h: seq<Meas>)
    requires h != []
    ensures NoBumps(h) <==> DriftOf(h, |h| - 1) == 0
  {
    hide DriftOf, Steps;
    if NoBumps(h) {
      NoDrift(h, |h| - 1);
    } else {
      var i :| 0 <= i < |h| - 1 && Bumped(Steps(h)[i]);
      DriftStep(h, i);
      DriftGrows(h, i + 1, |h| - 1);
    }
  }

  /** Without bumps only the ids can change. */
  lemma DecodedWithoutBumps(h: seq<Meas>, i: nat)
    requires i < |h| && NoBumps(h)
    ensures Decoded(h)[i] == h[i].(id := h[0].id)
  {
    hide DriftOf, Decoded;
    DecodedAt(h, i);
    NoDrift(h, i);
    WrapTime(h[i].time);
  }

  /** No drifted time reaches the end of the clock. */
  ghost predicate InClock(h: seq<Meas>) {
    forall i | 0 <= i < |h| :: h[i].time + DriftOf(h, i) < MAX_TIME
  }

  lemma DecodedInClock(h: seq<Meas>, i: nat)
    requires i < |h| && InClock(h)
    ensures Decoded(h)[i].time == h[i].time + DriftOf(h, i) < MAX_TIME
  {
    hide DriftOf, Decoded;
    DecodedAt(h, i);
  }

  lemma DriftStarts(h: seq<Meas>)
    requires h != []
    ensures DriftOf(h, 0) == 0
  {
  }

  /** So a chunk in order is read back in order. */
  lemma DecodedSorted(h: seq<Meas>)
    requires h != [] && Nondecreasing(h) && InClock(h)
    ensures Readable(Decoded(h))
  {
    hide DriftOf, Decoded, InClock;
    var d := Decoded(h);
    forall i | 0 <= i < |d|
      ensures d[i].time == h[i].time + DriftOf(h, i) < MAX_TIME
    {
      DecodedInClock(h, i);
    }
    forall i, j | 0 <= i < j < |d|
      ensures d[i].time <= d[j].time
    {
      DriftGrows(h, i, j);
    }
  }

  // ------------------------------------------------------- a chunk that drifts

  /** Three times, of which the last is read back as 5905. */
  const BUMPED := [Meas(1, 0, 0, 0), Meas(1, 5000, 0, 0), Meas(1, 5904, 0, 0)]

  lemma BumpedDecodes()
    ensures Packable(BUMPED) && !NoBumps(BUMPED) && Decoded(BUMPED) == BUMPED[2 := Meas(1, 5905, 0, 0)]
  {
    var h := BUMPED;
    BumpedSteps();
    hide Steps;
    assert Bumped(Steps(h)[1]);
    DriftStep(h, 0);
    DriftStep(h, 1);
    DecodedAt(h, 0);
    DecodedAt(h, 1);
    DecodedAt(h, 2);
  }

  lemma BumpedSteps()
    ensures Packable(BUMPED) && Steps(BUMPED) == [5000, -4096]
  {
    var h := BUMPED;
    var a, b, c := State(0, 0, 0), State(5000, 5000, 0), State(5904, -4096, 0);
    assert h[1..][1..] == h[2..] && h[2..][1..] == [];
    StepTo(a, h[1], b);
    StepTo(b, h[2], c);
    assert Deltas(c, []) == [] && Encodable(c, []);
    assert Deltas(b, h[2..]) == [-4096] + Deltas(c, []);
  }

  lemma StepTo(st: State, m: Meas, st': State)
    requires st.prevValue == m.value == st'.prevValue == 0 && st'.prevTime == m.time
    requires st'.prevDelta == StepDelta(st, m.time)
    ensures After(st, m) == st' && ValueFits(XorOf(0, 0))
  {
    assert XorOf(0, 0) == 0;
  }
}
