/** Where the cursors that are collapsed come from: arrays in memory and the
    chunks of a page. */
module ChunkSources {
  import opened Measurements
  import opened Bits
  import opened Streams
  import opened Statistics
  import opened RunCodec
  import opened PackedRuns
  import opened Drift
  import opened Grouping
  import opened Blocks
  import opened ArrayCursors
  import opened Chunks
  import opened ChunkCursors
  import opened ChunkStats
  import opened Cursors

  // -------------------------------------------------------------------- arrays

  lemma {:induction false} RangeBounds(s: seq<Meas>, i: nat)
    requires i < |s|
    ensures MinTimeOf(s) <= s[i].time <= MaxTimeOf(s)
    decreases |s|
  {
    if i < |s| - 1 {
      RangeBounds(s[..|s| - 1], i);
    }
  }

  /** Every head is one of the measurements. */
  lemma HeadIsMember(s: seq<Meas>, i: nat) returns (j: nat)
    requires Nondecreasing(s) && i < |Heads(s)|
    ensures j < |s| && s[j].time == Heads(s)[i].time
  {
    HeadsLookup(s);
    var h := Heads(s);
    assert Lookup(h, h[i].time) == Lookup(s, h[i].time);
    j :| 0 <= j < |s| && s[j].time == h[i].time;
  }

  /** A cursor nobody has read from, over a sorted array, can be collapsed; it
      yields every time once. */
  lemma ArrayReady(f: FullCursor)
    requires f.Valid() && f.index == 0 && f.ma != [] && Readable(f.ma)
    requires f.minTime == MinTimeOf(f.ma) && f.maxTime == MaxTimeOf(f.ma)
    ensures var c := InMemory(f);
            && Ready([c], [Heads(f.ma)], c.Repr(), c.Shared(), 1) && Whole(c)
            && Readable(Heads(f.ma)) && Within(Heads(f.ma), c.Extent()) && Straight(c)
    ensures Increasing(Heads(f.ma))
  {
    var c, s, h := InMemory(f), f.ma, Heads(f.ma);
    assert f.ma[0..] == s;
    HeadsLookup(s);
    hide Heads, MinTimeOf, MaxTimeOf, Lookup;
    forall i | 0 <= i < |h|
      ensures f.minTime <= h[i].time <= f.maxTime && h[i].time < MAX_TIME
    {
      var j := HeadIsMember(s, i);
      RangeBounds(s, j);
    }
    ReadyOne(c, h);
  }

  // -------------------------------------------------------------------- chunks

  /** What a sorted chunk yields is sorted, and strictly so exactly if it does
      not end in a run of equal times. */
  lemma ChunkIncreasing(l: seq<Meas>)
    requires l != [] && Nondecreasing(l)
    ensures Nondecreasing(Yielded(l)) && (Increasing(Yielded(l)) <==> !TrailingRun(l))
  {
    var h, n := Heads(l), |l| - 1;
    YieldedIsHeads(l);
    HeadsLookup(l);
    if TrailingRun(l) {
      LastHead(l);
      AppendLast(h, l[n]);
    }
  }

  lemma LastHead(l: seq<Meas>)
    requires l != [] && Nondecreasing(l)
    ensures var h, t := Heads(l), l[|l| - 1].time;
            && Increasing(h) && (forall i | 0 <= i < |h| :: h[i].time <= t)
            && exists i :: 0 <= i < |h| && h[i].time == t
  {
    var h, t := Heads(l), l[|l| - 1].time;
    HeadsLookup(l);
    hide Heads, Increasing;
    forall i | 0 <= i < |h|
      ensures h[i].time <= t
    {
      var j := HeadIsMember(l, i);
    }
    assert Lookup(h, t) == Lookup(l, t);
  }

  lemma AppendLast(h: seq<Meas>, m: Meas)
    requires Increasing(h) && (forall i | 0 <= i < |h| :: h[i].time <= m.time)
    requires exists i :: 0 <= i < |h| && h[i].time == m.time
    ensures Nondecreasing(h + [m]) && !Increasing(h + [m])
  {
    var i :| 0 <= i < |h| && h[i].time == m.time;
    assert (h + [m])[i].time == (h + [m])[|h|].time;
  }

  lemma {:induction false} StatBelow(env: Numerics, s: seq<Meas>, t: Time)
    requires s != [] && forall i | 0 <= i < |s| :: s[i].time <= t
    ensures StatOf(env, s).maxTime <= t
    decreases |s|
  {
    var n := |s| - 1;
    if n > 0 {
      StatBelow(env, s[..n], t);
    } else {
      assert s[..0] == [];
    }
  }

  /** What a chunk in order yields lies in the range of its header exactly if no
      step is bumped. */
  lemma ChunkWithin(env: Numerics, h: seq<Meas>)
    requires h != [] && Nondecreasing(h) && InClock(h)
    ensures var st := StatOf(env, h);
            Within(Yielded(Decoded(h)), Range(st.minTime, st.maxTime)) <==> NoBumps(h)
  {
    hide Decoded, Yielded, StatOf, NoBumps, InClock, Nondecreasing;
    var d, st := Decoded(h), StatOf(env, h);
    var s := Yielded(d);
    if NoBumps(h) {
      forall i | 0 <= i < |s|
        ensures st.minTime <= s[i].time <= st.maxTime
      {
        YieldedFrom(d, i);
        var j :| 0 <= j < |d| && d[j] == s[i];
        DecodedWithoutBumps(h, j);
        StatBounds(env, h, j);
      }
    } else {
      LastLeaves(env, h);
    }
  }

  /** The last time that is read back is past the header's range. */
  lemma LastLeaves(env: Numerics, h: seq<Meas>)
    requires h != [] && Nondecreasing(h) && InClock(h) && !NoBumps(h)
    ensures var s := Yielded(Decoded(h)); s != [] && s[|s| - 1].time > StatOf(env, h).maxTime
  {
    hide Decoded, Yielded, StatOf, NoBumps, DriftOf, InClock;
    var n := |h| - 1;
    YieldedLast(Decoded(h));
    LastDrifts(h);
    DecodedInClock(h, n);
    StatBelow(env, h, h[n].time);
  }

  /** What it yields is sorted, strictly so exactly if what is read back does
      not end in a run of equal times. */
  lemma ChunkReadable(h: seq<Meas>)
    requires h != [] && Nondecreasing(h) && InClock(h)
    ensures var s := Yielded(Decoded(h)); Readable(s) && s != [] && (Increasing(s) <==> !TrailingRun(Decoded(h)))
  {
    var d := Decoded(h);
    hide Decoded, Yielded, InClock, TrailingRun, Increasing;
    DecodedSorted(h);
    ChunkIncreasing(d);
    YieldedStep(d);
    var s := Yielded(d);
    forall i | 0 <= i < |s|
      ensures s[i].time < MAX_TIME
    {
      YieldedFrom(d, i);
      var j :| 0 <= j < |d| && d[j] == s[i];
    }
  }

  /** The sorted copy that stands for a chunk out of order. */
  lemma CopyReadable(ma: seq<Meas>, l: seq<Meas>)
    requires IsSortedCopy(ma, l) && forall i | 0 <= i < |l| :: l[i].time < MAX_TIME
    ensures Readable(ma)
  {
    var b := Yielded(l) + Blanks(|l| - |Yielded(l)|);
    forall i | 0 <= i < |ma|
      ensures ma[i].time < MAX_TIME
    {
      assert ma[i] in multiset(b);
      var j :| 0 <= j < |b| && b[j] == ma[i];
      hide Yielded;
      if j < |Yielded(l)| {
        YieldedFrom(l, j);
      }
    }
  }

  lemma DecodedBelow(h: seq<Meas>)
    requires h != [] && InClock(h)
    ensures forall i | 0 <= i < |h| :: Decoded(h)[i].time < MAX_TIME
  {
    hide Decoded, InClock, DriftOf;
    forall i | 0 <= i < |h|
      ensures Decoded(h)[i].time < MAX_TIME
    {
      DecodedInClock(h, i);
    }
  }

  lemma CopyHolds(f: FullCursor)
    requires f.Valid() && f.index == 0 && f.ma != []
    ensures Holds(InMemory(f), Heads(f.ma)) && Heads(f.ma) != []
  {
    assert f.ma[0..] == f.ma;
  }

  lemma PackedHolds(r: ChunkReader)
    requires r.Valid() && r.Items() != []
    ensures Holds(InChunk(r), Yielded(r.Items())) && Yielded(r.Items()) != []
  {
    YieldedStep(r.Items());
    hide Yielded, Remaining;
  }

  /** Opens a chunk for reading. If its times stay below the largest, its cursor
      is sorted; it lies in its extent exactly if the chunk is out of order or
      no step is bumped; it yields each time once unless the chunk is in order
      and is read back with a run of equal times at its end. */
  method OpenChunk(chunk: Chunk) returns (c: Cursor, ghost s: seq<Meas>)
    requires chunk.Valid()
    ensures fresh(c.Repr()) && c.Shared() <= {chunk.buffer} && c.Repr() !! c.Shared() && c.Height() == 0
    ensures Holds(c, s) && Ready([c], [s], c.Repr(), c.Shared(), 1) && Whole(c) && Straight(c)
    ensures CanYield(Nondecreasing(chunk.history), Decoded(chunk.history), s)
    ensures InClock(chunk.history) ==>
              && Readable(s)
              && (Within(s, c.Extent()) <==> !Nondecreasing(chunk.history) || NoBumps(chunk.history))
              && (Increasing(s) <==> !(Nondecreasing(chunk.history) && TrailingRun(Decoded(chunk.history))))
  {
    hide Packed, StatOf, Decoded, Nondecreasing, Remaining, Yielded, InClock, NoBumps, Ready, Readable, Increasing,
      TrailingRun, Heads, IsSortedCopy, MinTimeOf, MaxTimeOf;
    ghost var h := chunk.history;
    var r := GetReader(chunk);
    match r
    case PackedCursor(reader) =>
      c, s := InChunk(reader), Yielded(Decoded(h));
      PackedHolds(reader);
      ReadyOne(c, s);
      if InClock(h) {
        ChunkReadable(h);
        ChunkWithin(chunk.header.stat.env, h);
      }
    case SortedCopy(full) =>
      c, s := InMemory(full), Heads(full.ma);
      CopyHolds(full);
      ReadyOne(c, s);
      if InClock(h) {
        DecodedBelow(h);
        CopyReadable(full.ma, Decoded(h));
        ArrayReady(full);
      }
  }

  // ----------------------------------------- a chunk that repeats its last time

  const LATE_RUN := [Meas(1, 1, 0, 0), Meas(1, 2, 0, 0), Meas(1, 2, 0, 7)]
  const NEXT_RUN := [Meas(1, 3, 0, 0)]
  const LATE_EXTENTS := [Range(1, 2), Range(3, 3)]

  lemma LateRunPacks()
    ensures Packable(LATE_RUN) && Exact(LATE_RUN)
  {
    var h := LATE_RUN;
    var st := Initial(h[0]);
    assert h[1..][1..] == [h[2]] && h[1..][1..][1..] == [];
    assert XorBits(0, 0) == 0;
    var st' := After(st, h[1]);
    assert StepDelta(st, 2) == 1 && StepDelta(st', 2) == -1;
    assert Deltas(st', [h[2]]) == [-1] + Deltas(After(st', h[2]), []);
    assert Deltas(st, h[1..]) == [1, -1];
  }

  lemma LateRunYields()
    ensures Yielded(LATE_RUN) == LATE_RUN && Yielded(NEXT_RUN) == NEXT_RUN
  {
    var h := LATE_RUN;
    assert AfterRead(h) == h[1..];
    assert AfterRead(h[1..]) == [h[2]] by { assert h[1..][1..] == [h[2]]; }
    YieldedOne(h[2]);
    YieldedOne(NEXT_RUN[0]);
  }

  lemma LateRunJoins(t: Time)
    ensures At(LATE_RUN + NEXT_RUN, t) == CollapsedAt(LATE_EXTENTS, [LATE_RUN, NEXT_RUN], t)
  {
    var rs, ss := LATE_EXTENTS, [LATE_RUN, NEXT_RUN];
    AtConcat(LATE_RUN, NEXT_RUN, t);
    assert Alone(rs, 0) && Alone(rs, 1);
    LateRunAt(t);
    hide At, Alone;
  }

  lemma LateRunAt(t: Time)
    ensures At(LATE_RUN, t) != [] <==> t == 1 || t == 2
    ensures At(NEXT_RUN, t) != [] <==> t == 3
    ensures FirstIndex([LATE_RUN, NEXT_RUN], t) == if t == 1 || t == 2 then 0 else if t == 3 then 1 else 2
  {
    hide At;
    assert LATE_RUN[0].time == 1 && LATE_RUN[1].time == 2 && LATE_RUN[2].time == 2 && NEXT_RUN[0].time == 3;
  }

  lemma LateRunCollapses()
    ensures IsCollapseOf(LATE_RUN + NEXT_RUN, LATE_EXTENTS, [LATE_RUN, NEXT_RUN])
  {
    hide At, CollapsedAt;
    forall t: Time
      ensures At(LATE_RUN + NEXT_RUN, t) == CollapsedAt(LATE_EXTENTS, [LATE_RUN, NEXT_RUN], t)
    {
      LateRunJoins(t);
    }
  }

  lemma LateRunSorted()
    ensures AllWithin(LATE_EXTENTS, [LATE_RUN, NEXT_RUN]) && Mergeable([LATE_RUN, NEXT_RUN])
    ensures Nondecreasing(LATE_RUN) && TrailingRun(LATE_RUN)
    ensures !LoneIncreasing(LATE_EXTENTS, [LATE_RUN, NEXT_RUN])
  {
    assert Alone(LATE_EXTENTS, 0);
    assert LATE_RUN[1].time == LATE_RUN[2].time;
    assert !Increasing([LATE_RUN, NEXT_RUN][0]);
  }

  /** A chunk that ends in a run of equal times, on its own, is not merged: two
      measurements of time 2 come out where the merge holds one. */
  lemma TrailingRunRepeats(out: seq<Meas>)
    requires IsCollapseOf(out, LATE_EXTENTS, [Yielded(LATE_RUN), Yielded(NEXT_RUN)])
    ensures Packable(LATE_RUN) && Exact(LATE_RUN) && Nondecreasing(LATE_RUN) && TrailingRun(LATE_RUN)
    ensures out == LATE_RUN + NEXT_RUN
    ensures Mergeable([LATE_RUN, NEXT_RUN]) && out != MergeAll([LATE_RUN, NEXT_RUN])
  {
    hide *;
    var rs, ss := LATE_EXTENTS, [LATE_RUN, NEXT_RUN];
    LateRunPacks();
    LateRunYields();
    LateRunSorted();
    LateRunCollapses();
    CollapseUnique(out, LATE_RUN + NEXT_RUN, rs, ss);
    CollapseIsMerge(out, rs, ss);
  }

  // ------------------------------------------------ a chunk that leaves its range

  const NEXT_MOMENT := [Meas(1, 5905, 0, 7)]

  /** A chunk read back one moment past its header's range, and a chunk at that
      moment: the ranges do not overlap and either alone is strictly sorted, but
      what is read is not the merge. */
  lemma DriftRepeats(out: seq<Meas>)
    requires multiset(out) == multiset(Concat([Yielded(Decoded(BUMPED)), Yielded(NEXT_MOMENT)]))
    ensures Packable(BUMPED) && Nondecreasing(BUMPED) && !Intersects(Range(0, 5904), Range(5905, 5905))
    ensures Increasing(Yielded(Decoded(BUMPED))) && Increasing(Yielded(NEXT_MOMENT))
    ensures var ss := [Yielded(Decoded(BUMPED)), Yielded(NEXT_MOMENT)]; Mergeable(ss) && out != MergeAll(ss)
  {
    hide *;
    DriftStreams();
    SharedRepeats(out, Yielded(Decoded(BUMPED)), Yielded(NEXT_MOMENT), 5905);
  }

  lemma DriftStreams()
    ensures Packable(BUMPED) && Nondecreasing(BUMPED) && !Intersects(Range(0, 5904), Range(5905, 5905))
    ensures var s, t := Yielded(Decoded(BUMPED)), Yielded(NEXT_MOMENT);
            && Readable(s) && Readable(t) && Increasing(s) && Increasing(t)
            && At(s, 5905) != [] && At(t, 5905) != []
  {
    BumpedDecodes();
    var d := BUMPED[2 := Meas(1, 5905, 0, 0)];
    hide Decoded, Packable;
    YieldedDistinct(d);
    YieldedDistinct(NEXT_MOMENT);
    hide Yielded, At, Lookup;
    assert d[2].time == 5905 && NEXT_MOMENT[0].time == 5905;
  }

  /** Read in turn, streams that share a time are not merged. */
  lemma SharedRepeats(out: seq<Meas>, s: seq<Meas>, s': seq<Meas>, t: Time)
    requires Readable(s) && Readable(s') && At(s, t) != [] && At(s', t) != []
    requires multiset(out) == multiset(Concat([s, s']))
    ensures Mergeable([s, s']) && out != MergeAll([s, s'])
  {
    var ss := [s, s'];
    assert Mergeable(ss);
    hide *;
    MergeAllCorrect(ss);
    ConcatHasBoth(ss, t, 0, 1);
    if out == MergeAll(ss) {
      MergeIsIncreasing(out, ss);
      IncreasingAt(out, t);
      SameOnce(out, Concat(ss), t);
    }
  }
}
