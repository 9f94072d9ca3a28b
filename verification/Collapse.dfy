/** The factory that turns a list of cursors into one: overlapping cursors are
    merged, the results are read in turn. */
module Collapse {
  import opened Measurements
  import opened Streams
  import opened Grouping
  import opened Blocks
  import opened Cursors

  function ExtentsOf(cs: seq<Cursor>): (rs: seq<Range>)
    ensures |rs| == |cs| && forall i | 0 <= i < |rs| :: rs[i] == cs[i].Extent()
  {
    seq(|cs|, i requires 0 <= i < |cs| => cs[i].Extent())
  }

  function Select(cs: seq<Cursor>, idx: seq<nat>): (r: seq<Cursor>)
    requires forall k | 0 <= k < |idx| :: idx[k] < |cs|
    ensures |r| == |idx| && forall k | 0 <= k < |idx| :: r[k] == cs[idx[k]]
  {
    seq(|idx|, k requires 0 <= k < |idx| => cs[idx[k]])
  }

  /** The objects of some of the cursors. */
  ghost function ReprOf(cs: seq<Cursor>, idx: seq<nat>): (r: set<object>)
    ensures forall k | 0 <= k < |idx| && idx[k] < |cs| :: cs[idx[k]].Repr() <= r
  {
    if idx == [] then {} else (if idx[0] < |cs| then cs[idx[0]].Repr() else {}) + ReprOf(cs, idx[1..])
  }

  lemma {:induction false} ReprOfWithin(cs: seq<Cursor>, idx: seq<nat>, s: set<object>)
    requires forall k | 0 <= k < |idx| && idx[k] < |cs| :: cs[idx[k]].Repr() <= s
    ensures ReprOf(cs, idx) <= s
  {
    if idx != [] {
      ReprOfWithin(cs, idx[1..], s);
    }
  }

  lemma {:induction false} ReprOfApart(cs: seq<Cursor>, idx: seq<nat>, s: set<object>)
    requires forall k | 0 <= k < |idx| && idx[k] < |cs| :: cs[idx[k]].Repr() !! s
    ensures ReprOf(cs, idx) !! s
  {
    if idx != [] {
      ReprOfApart(cs, idx[1..], s);
    }
  }

  // ------------------------------------------------------------------ one block

  /** What does not change while the inputs are taken over one by one. */
  ghost predicate Suited(cs: seq<Cursor>, ss: seq<seq<Meas>>, repr: set<object>, shared: set<object>, height: nat) {
    Family(cs, repr, shared, height) && |ss| == |cs| && NoneEmpty(ss) && Mergeable(ss)
  }

  lemma ReadySuited(cs: seq<Cursor>, ss: seq<seq<Meas>>, repr: set<object>, shared: set<object>, height: nat)
    requires Ready(cs, ss, repr, shared, height) && Mergeable(ss)
    ensures Suited(cs, ss, repr, shared, height)
  {
  }

  ghost predicate InRange(block: seq<nat>, n: nat) {
    block != [] && Ascending(block) && forall k | 0 <= k < |block| :: block[k] < n
  }

  /** The cursors of a block can be merged. */
  lemma BlockReady(cs: seq<Cursor>, ss: seq<seq<Meas>>, repr: set<object>, shared: set<object>, height: nat,
                   block: seq<nat>)
    requires Suited(cs, ss, repr, shared, height) && InRange(block, |cs|)
    requires forall k | 0 <= k < |block| :: Holds(cs[block[k]], ss[block[k]])
    ensures Ready(Select(cs, block), Pick(ss, block), ReprOf(cs, block), shared, height) && Mergeable(Pick(ss, block))
  {
    hide Holds, Readable;
    ReprOfWithin(cs, block, repr);
    hide ReprOf, Pick;
  }

  /** hi is the latest end among the ranges of a block. */
  ghost predicate IsFinish(rs: seq<Range>, block: seq<nat>, hi: Time) {
    && (exists i :: i in block && i < |rs| && rs[i].hi == hi)
    && (forall i | i in block && i < |rs| :: rs[i].hi <= hi)
  }

  lemma {:induction false} HullReached(cs: seq<Cursor>)
    requires cs != []
    ensures (exists k | 0 <= k < |cs| :: cs[k].MinTime() == MinStart(cs))
    ensures (exists k | 0 <= k < |cs| :: cs[k].MaxTime() == MaxEnd(cs))
    decreases |cs|
  {
    hide Cursor.MinTime, Cursor.MaxTime;
    var n := |cs| - 1;
    if n > 0 {
      HullReached(cs[..n]);
      var i :| 0 <= i < n && cs[..n][i].MinTime() == MinStart(cs[..n]);
      var j :| 0 <= j < n && cs[..n][j].MaxTime() == MaxEnd(cs[..n]);
      assert cs[i].MinTime() == MinStart(cs[..n]) && cs[j].MaxTime() == MaxEnd(cs[..n]);
    } else {
      assert cs[..0] == [];
    }
    assert cs[n].MinTime() == MinStart(cs) || MinStart(cs) == MinStart(cs[..n]);
    assert cs[n].MaxTime() == MaxEnd(cs) || MaxEnd(cs) == MaxEnd(cs[..n]);
  }

  lemma HullOfBlock(cs: seq<Cursor>, block: seq<nat>)
    requires InRange(block, |cs|)
    ensures IsStart(ExtentsOf(cs), block, MinStart(Select(cs, block)))
    ensures IsFinish(ExtentsOf(cs), block, MaxEnd(Select(cs, block)))
  {
    var sel, rs := Select(cs, block), ExtentsOf(cs);
    hide MinStart, MaxEnd, Select, ExtentsOf;
    HullReached(sel);
    HullBounds(sel);
    var k :| 0 <= k < |sel| && sel[k].MinTime() == MinStart(sel);
    var l :| 0 <= l < |sel| && sel[l].MaxTime() == MaxEnd(sel);
    assert block[k] in block && block[l] in block;
    forall i | i in block && i < |rs|
      ensures MinStart(sel) <= rs[i].lo && rs[i].hi <= MaxEnd(sel)
    {
      var x :| 0 <= x < |block| && block[x] == i;
      assert sel[x] == cs[i];
    }
  }

  /** The extent of the cursor of a block covers those of its members. */
  ghost predicate Placed(rs: seq<Range>, block: seq<nat>, sub: Cursor) {
    IsStart(rs, block, sub.MinTime()) && IsFinish(rs, block, sub.MaxTime())
  }

  /** A merge yields a sorted stream, which lies in the extent of the inputs if
      each of them does ... */
  lemma MergeWithin(cs: seq<Cursor>, ss: seq<seq<Meas>>, out: seq<Meas>)
    requires Mergeable(ss) && IsMergeOf(out, ss)
    ensures Readable(out) && (Ranged(cs, ss) ==> Within(out, Range(MinStart(cs), MaxEnd(cs))))
  {
    HullBounds(cs);
    assert Increasing(out);
    hide MinStart, MaxEnd, Cursor.MinTime, Cursor.MaxTime, IsMergeOf;
    forall x | 0 <= x < |out|
      ensures out[x].time < MAX_TIME && (Ranged(cs, ss) ==> MinStart(cs) <= out[x].time <= MaxEnd(cs))
    {
      var k, y := MergedTime(out, ss, x);
      assert Readable(ss[k]) && (Ranged(cs, ss) ==> Within(ss[k], cs[k].Extent()));
    }
  }

  /** What a merge holds comes from one of its inputs. */
  lemma MergedTime(out: seq<Meas>, ss: seq<seq<Meas>>, x: nat) returns (k: nat, y: nat)
    requires IsMergeOf(out, ss) && x < |out|
    ensures k < |ss| && y < |ss[k]| && ss[k][y].time == out[x].time
  {
    var t := out[x].time;
    assert Lookup(out, t) == FirstOf(ss, t);
    k :| 0 <= k < |ss| && Lookup(ss[k], t).Some?;
    y :| 0 <= y < |ss[k]| && ss[k][y].time == t;
  }

  /** ... and so does a linear cursor whose inputs follow each other, ... */
  lemma LinearRanged(l: LinearCursor)
    requires l.Valid() && l.InLine()
    ensures Readable(l.pending) && Within(l.pending, Linear(l).Extent())
  {
    ChainSorted(l.readers, l.streams);
    assert Ranged(l.readers, l.streams) && Bounded(l.readers, l.minTime, l.maxTime);
    ConcatWithin(l.readers, l.streams, l.minTime, l.maxTime);
  }

  /** ... so what was collapsed can be collapsed again. */
  lemma CollapsedAgain(l: LinearCursor)
    requires l.Valid() && l.InLine() && l.pending != []
    ensures var c := Linear(l);
            && Ready([c], [l.pending], c.Repr(), c.Shared(), c.Height() + 1) && Whole(c)
            && Readable(l.pending) && Within(l.pending, c.Extent()) && Straight(c)
  {
    assert l !in l.shared && l.repr !! l.shared;
    hide Readable, Within, Ready, Concat, AllHold, Family, NoneEmpty, Mergeable, Ranged, Chained, Bounded, StartSorted;
    LinearRanged(l);
    ReadyOne(Linear(l), l.pending);
  }

  lemma {:induction false} ConcatWithin(cs: seq<Cursor>, ss: seq<seq<Meas>>, lo: Time, hi: Time)
    requires Ranged(cs, ss) && Bounded(cs, lo, hi)
    ensures Within(Concat(ss), Range(lo, hi))
    decreases |cs|
  {
    if cs != [] {
      assert Within(ss[0], cs[0].Extent());
      ConcatWithin(cs[1..], ss[1..], lo, hi);
    }
  }

  /** The cursor that stands for a block: its only member, or a merge. */
  method MakeSub(cs: seq<Cursor>, block: seq<nat>, alone: bool, ghost ss: seq<seq<Meas>>,
                 ghost repr: set<object>, ghost shared: set<object>, ghost height: nat, ghost fit: bool)
    returns (sub: Cursor, ghost s: seq<Meas>)
    requires Suited(cs, ss, repr, shared, height) && InRange(block, |cs|) && alone == (|block| == 1)
    requires forall k | 0 <= k < |block| :: Holds(cs[block[k]], ss[block[k]]) && Whole(cs[block[k]])
    requires fit ==> Ranged(cs, ss) && forall k | 0 <= k < |block| :: Straight(cs[block[k]])
    modifies ReprOf(cs, block)
    ensures Ready([sub], [s], sub.Repr(), sub.Shared(), sub.Height() + 1)
    ensures sub.Shared() <= shared && sub.Height() <= height && fresh(sub.Repr() - ReprOf(cs, block))
    ensures Stands(ss, block, s) && Placed(ExtentsOf(cs), block, sub)
    ensures Readable(s) && (fit ==> Straight(sub) && Within(s, sub.Extent()))
  {
    hide *;
    InRangeFacts(block, |cs|);
    SuitedAt(cs, ss, repr, shared, height, block);
    if fit { RangedAt(cs, ss, block); }
    if alone {
      sub, s := cs[block[0]], ss[block[0]];
      ReadyOne(sub, s);
      LoneStands(cs, ss, block);
    } else {
      BlockReady(cs, ss, repr, shared, height, block);
      ReadyStreams(Select(cs, block), Pick(ss, block), ReprOf(cs, block), shared, height);
      var m := new MergeSortCursor(Select(cs, block), Pick(ss, block), ReprOf(cs, block), shared, height);
      sub, s := Merged(m), m.pending;
      MergeStands(ss, block);
      MergeAllCorrect(Pick(ss, block));
      MergeWithin(Select(cs, block), Pick(ss, block), s);
      MergedParts(m);
      PlacedHull(cs, block, sub);
      ReadyOne(sub, s);
      MergeStraight(sub);
    }
  }

  lemma MergeStraight(c: Cursor)
    requires c.Merged?
    ensures Straight(c) && c.Extent() == Range(c.MinTime(), c.MaxTime())
  {
  }

  lemma RangedAt(cs: seq<Cursor>, ss: seq<seq<Meas>>, block: seq<nat>)
    requires Ranged(cs, ss) && InRange(block, |cs|)
    ensures |ss| == |cs| && Ranged(Select(cs, block), Pick(ss, block))
    ensures forall k | 0 <= k < |block| :: block[k] < |cs| && Within(ss[block[k]], cs[block[k]].Extent())
  {
    hide Within, Pick, Select;
  }

  lemma InRangeFacts(block: seq<nat>, n: nat)
    requires InRange(block, n)
    ensures block != [] && forall k | 0 <= k < |block| :: block[k] < n
  {
  }

  lemma SuitedAt(cs: seq<Cursor>, ss: seq<seq<Meas>>, repr: set<object>, shared: set<object>, height: nat,
                 block: seq<nat>)
    requires Suited(cs, ss, repr, shared, height) && InRange(block, |cs|)
    ensures |ss| == |cs| && repr !! shared && ReprOf(cs, block) <= repr
    ensures forall k | 0 <= k < |block| :: var i := block[k];
              && ss[i] != [] && Readable(ss[i])
              && cs[i].Repr() <= ReprOf(cs, block) && cs[i].Shared() <= shared && cs[i].Height() < height
              && cs[i].Repr() !! cs[i].Shared()
  {
    hide Readable;
    ReprOfWithin(cs, block, repr);
  }

  lemma LoneStands(cs: seq<Cursor>, ss: seq<seq<Meas>>, block: seq<nat>)
    requires InRange(block, |cs|) && |ss| == |cs| && |block| == 1
    ensures Stands(ss, block, ss[block[0]]) && Placed(ExtentsOf(cs), block, cs[block[0]])
  {
    assert block[0] in block;
  }

  lemma MergeStands(ss: seq<seq<Meas>>, block: seq<nat>)
    requires InRange(block, |ss|) && |block| > 1 && Mergeable(Pick(ss, block)) && NoneEmpty(Pick(ss, block))
    ensures Stands(ss, block, MergeAll(Pick(ss, block))) && MergeAll(Pick(ss, block)) != []
  {
    MergeAllCorrect(Pick(ss, block));
    MergeAllEmpty(Pick(ss, block));
    hide MergeAll;
    assert Pick(ss, block)[0] != [];
  }

  lemma MergedParts(m: MergeSortCursor)
    requires m.Valid()
    ensures Holds(Merged(m), m.pending) && m.repr !! m.shared && m !in m.shared
    ensures var c := Merged(m);
            && c.Repr() == {m} + m.repr && c.Shared() == m.shared && c.Height() == m.height
            && c.MinTime() == m.minTime && c.MaxTime() == m.maxTime
  {
    assert m.Cached();
  }

  lemma PlacedHull(cs: seq<Cursor>, block: seq<nat>, sub: Cursor)
    requires InRange(block, |cs|)
    requires sub.MinTime() == MinStart(Select(cs, block)) && sub.MaxTime() == MaxEnd(Select(cs, block))
    ensures Placed(ExtentsOf(cs), block, sub)
  {
    hide ExtentsOf, Select, MinStart, MaxEnd, IsStart, IsFinish, Cursor.MinTime, Cursor.MaxTime;
    HullOfBlock(cs, block);
  }

  // ------------------------------------------------------------------ all blocks

  /** Inputs outside the blocks taken so far are as they were. */
  ghost predicate Left(cs: seq<Cursor>, ss: seq<seq<Meas>>, taken: seq<seq<nat>>, used: set<object>,
                       repr: set<object>, shared: set<object>, fit: bool)
    reads repr, shared
  {
    && |ss| == |cs|
    && forall i: nat | i < |cs| && !InSome(taken, i) ::
         && cs[i].Repr() <= repr && cs[i].Shared() <= shared && cs[i].Repr() !! used
         && Holds(cs[i], ss[i]) && Whole(cs[i]) && (fit ==> Straight(cs[i]))
  }

  /** Every input is sorted and lies in its extent, and those that read in turn
      read what does not overlap. */
  ghost predicate Fit(cs: seq<Cursor>, ss: seq<seq<Meas>>, repr: set<object>)
    reads repr
  {
    Ranged(cs, ss) && Mergeable(ss) && forall k | 0 <= k < |cs| :: cs[k].Repr() <= repr && Straight(cs[k])
  }

  lemma NoneTaken(cs: seq<Cursor>, ss: seq<seq<Meas>>, repr: set<object>, shared: set<object>, height: nat)
    requires Ready(cs, ss, repr, shared, height) && forall k | 0 <= k < |cs| :: Whole(cs[k])
    ensures repr !! shared && Left(cs, ss, [], {}, repr, shared, Fit(cs, ss, repr))
    ensures Ready([], [], {}, shared, height + 1) && (Fit(cs, ss, repr) ==> Ranged(cs, ss)) && Fit([], [], {})
  {
    hide Holds, Whole, Readable, Within, Straight;
  }

  /** The members of the next block are among the inputs left. */
  lemma BlockLeft(cs: seq<Cursor>, ss: seq<seq<Meas>>, blocks: seq<seq<nat>>, k: nat, used: set<object>,
                  repr: set<object>, shared: set<object>, fit: bool)
    requires Covers(blocks, |cs|) && k < |blocks| && blocks[k] != []
    requires Left(cs, ss, blocks[..k], used, repr, shared, fit)
    ensures InRange(blocks[k], |cs|) && |ss| == |cs| && ReprOf(cs, blocks[k]) !! used && ReprOf(cs, blocks[k]) <= repr
    ensures forall x | 0 <= x < |blocks[k]| :: var i := blocks[k][x];
              Holds(cs[i], ss[i]) && Whole(cs[i]) && (fit ==> Straight(cs[i]))
  {
    hide Holds, Whole, Straight;
    assert forall x | 0 <= x < |blocks[k]| :: blocks[k][x] in blocks[k];
    forall x | 0 <= x < |blocks[k]|
      ensures !InSome(blocks[..k], blocks[k][x])
    {
      assert forall b | 0 <= b < k :: blocks[k][x] !in blocks[b];
    }
    ReprOfApart(cs, blocks[k], used);
    ReprOfWithin(cs, blocks[k], repr);
  }

  /** An input left after the next block: nothing of it is in the block. */
  lemma StillLeft(cs: seq<Cursor>, ss: seq<seq<Meas>>, blocks: seq<seq<nat>>, k: nat, used: set<object>,
                  repr: set<object>, shared: set<object>, height: nat, fit: bool, i: nat)
    requires Suited(cs, ss, repr, shared, height) && k < |blocks| && InRange(blocks[k], |cs|)
    requires Left(cs, ss, blocks[..k], used, repr, shared, fit) && i < |cs| && !InSome(blocks[..k + 1], i)
    ensures cs[i].Repr() <= repr && cs[i].Shared() <= shared && cs[i].Repr() !! used
    ensures Holds(cs[i], ss[i]) && Whole(cs[i]) && (fit ==> Straight(cs[i]))
    ensures cs[i].Repr() !! ReprOf(cs, blocks[k])
  {
    hide Holds, Whole, Straight, Mergeable, NoneEmpty;
    forall b | 0 <= b < k
      ensures i !in blocks[..k][b]
    {
      assert blocks[..k][b] == blocks[..k + 1][b];
    }
    assert i !in blocks[k] by { assert blocks[..k + 1][k] == blocks[k]; }
    ReprOfApart(cs, blocks[k], cs[i].Repr());
  }

  /** Extents of different blocks do not overlap. */
  lemma BlocksApart(rs: seq<Range>, blocks: seq<seq<nat>>, subs: seq<Cursor>)
    requires AreComponents(rs, blocks) && Proper(rs) && |subs| == |blocks|
    requires forall j | 0 <= j < |blocks| :: Placed(rs, blocks[j], subs[j])
    ensures Apart(subs)
  {
    hide AreComponents, Cursor.MinTime, Cursor.MaxTime, Proper;
    forall b, c | 0 <= b < c < |subs|
      ensures Away(subs[b], subs[c])
    {
      if subs[b].MinTime() <= subs[c].MinTime() {
        BlockAway(rs, blocks, b, c, subs[b], subs[c]);
      } else {
        BlockAway(rs, blocks, c, b, subs[c], subs[b]);
      }
    }
  }

  lemma BlockAway(rs: seq<Range>, blocks: seq<seq<nat>>, b: nat, c: nat, x: Cursor, y: Cursor)
    requires AreComponents(rs, blocks) && Proper(rs) && b < |blocks| && c < |blocks| && b != c
    requires Placed(rs, blocks[b], x) && Placed(rs, blocks[c], y) && x.MinTime() <= y.MinTime()
    ensures x.MaxTime() < y.MinTime()
  {
    hide AreComponents, Cursor.MinTime, Cursor.MaxTime, Proper;
    var i :| i in blocks[b] && i < |rs| && rs[i].hi == x.MaxTime();
    var j :| j in blocks[c] && j < |rs| && rs[j].lo == y.MinTime();
    BlockBefore(rs, blocks, b, c, x.MinTime(), y.MinTime(), i, j);
  }

  lemma ProperExtents(cs: seq<Cursor>, ss: seq<seq<Meas>>)
    requires Ranged(cs, ss) && NoneEmpty(ss)
    ensures Proper(ExtentsOf(cs)) && AllWithin(ExtentsOf(cs), ss)
  {
    forall i | 0 <= i < |cs|
      ensures cs[i].MinTime() <= cs[i].MaxTime()
    {
      assert Within(ss[i], cs[i].Extent()) && ss[i] != [];
      assert cs[i].Extent().lo <= ss[i][0].time <= cs[i].Extent().hi;
    }
  }

  /** Merges overlapping cursors and reads the results in turn. What is read is
      the merge of all exactly if its times keep increasing. If the list is in
      order and every input lies in its extent, the times never decrease, and
      they increase exactly if every input that nothing overlaps yields each
      time once. */
  method CollapseCursors(inputs: seq<Cursor>, ghost ss: seq<seq<Meas>>,
                         ghost repr: set<object>, ghost shared: set<object>, ghost height: nat)
    returns (lin: LinearCursor)
    requires inputs != [] && Ready(inputs, ss, repr, shared, height) && Mergeable(ss)
    requires forall k | 0 <= k < |inputs| :: Whole(inputs[k])
    requires NoneTwice(ExtentsOf(inputs))
    modifies repr
    ensures fresh(lin) && lin.Valid() && fresh(lin.repr - repr) && lin.shared == shared && lin.height == height + 1
    ensures exists blocks, outs :: ReadInBlocks(lin.pending, ss, blocks, outs)
    ensures lin.pending == MergeAll(ss) <==> Increasing(lin.pending)
    ensures old(Fit(inputs, ss, repr)) && Ordered(ExtentsOf(inputs)) ==>
              && lin.InLine() && IsCollapseOf(lin.pending, ExtentsOf(inputs), ss)
              && (Increasing(lin.pending) <==> LoneIncreasing(ExtentsOf(inputs), ss))
  {
    hide *;
    NoneTaken(inputs, ss, repr, shared, height);
    ghost var fit := Fit(inputs, ss, repr);
    var rs := ExtentsOf(inputs);
    ReadySuited(inputs, ss, repr, shared, height);
    ReadyStreams(inputs, ss, repr, shared, height);
    var gs := Group(rs);
    var blocks := BlockList(gs);
    GroupedOnce(rs, gs);
    BlockListCovers(rs, gs);
    SomeBlock(blocks, |rs|);
    var subs: seq<Cursor> := [];
    ghost var outs: seq<seq<Meas>>, used: set<object>, made: set<object> := [], {}, {};
    assert blocks[..0] == [];
    for k := 0 to |blocks|
      invariant |subs| == |outs| == k && fresh(made) && used <= repr + made
      invariant Ready(subs, outs, used, shared, height + 1) && Left(inputs, ss, blocks[..k], used, repr, shared, fit)
      invariant forall j | 0 <= j < k :: Stands(ss, blocks[j], outs[j]) && Placed(rs, blocks[j], subs[j])
      invariant fit ==> Fit(subs, outs, used)
    {
      BlockLeft(inputs, ss, blocks, k, used, repr, shared, fit);
      forall i: nat | i < |inputs| && !InSome(blocks[..k + 1], i)
        ensures inputs[i].Repr() <= repr && inputs[i].Shared() <= shared && inputs[i].Repr() !! used
        ensures Holds(inputs[i], ss[i]) && Whole(inputs[i]) && (fit ==> Straight(inputs[i]))
        ensures inputs[i].Repr() !! ReprOf(inputs, blocks[k])
      {
        StillLeft(inputs, ss, blocks, k, used, repr, shared, height, fit, i);
      }
      label Before:
      var sub;
      ghost var s;
      GroupBlockSize(gs, k);
      sub, s := MakeSub(inputs, blocks[k], k < |gs.alone|, ss, repr, shared, height, fit);
      ghost var created := sub.Repr() - ReprOf(inputs, blocks[k]);
      assert fresh@Before(created);
      assert fresh(created);
      ReadyJoin(subs, outs, used, [sub], [s], sub.Repr(), sub.Shared(), sub.Height() + 1, shared, height + 1);
      if fit { FitMore(subs, outs, used, sub, s); }
      forall i: nat | i < |inputs| && !InSome(blocks[..k + 1], i)
        ensures Holds(inputs[i], ss[i]) && Whole(inputs[i]) && (fit ==> Straight(inputs[i]))
      {
        assert old@Before(Holds(inputs[i], ss[i]) && Whole(inputs[i]) && (fit ==> Straight(inputs[i])));
      }
      LeftIs(inputs, ss, blocks[..k + 1], used + sub.Repr(), repr, shared, fit);
      subs, outs, used, made := subs + [sub], outs + [s], used + sub.Repr(), made + created;
    }
    if fit && Ordered(rs) {
      FitSeparate(inputs, ss, gs, subs, outs, used);
    }
    lin := new LinearCursor(subs, outs, used, shared, height + 1);
    ReadIs(lin.pending, ss, blocks, outs);
    InTurnIsMerge(lin.pending, ss, blocks, outs);
    if fit && Ordered(rs) {
      BlocksCollapse(lin.pending, rs, ss, blocks, outs);
      CollapseIsMerge(lin.pending, rs, ss);
    }
  }

  lemma ReadIs(out: seq<Meas>, ss: seq<seq<Meas>>, blocks: seq<seq<nat>>, outs: seq<seq<Meas>>)
    requires Covers(blocks, |ss|) && |outs| == |blocks| && multiset(out) == multiset(Concat(outs))
    requires forall b | 0 <= b < |blocks| :: Stands(ss, blocks[b], outs[b])
    ensures ReadInBlocks(out, ss, blocks, outs) && exists bs, os :: ReadInBlocks(out, ss, bs, os)
  {
  }

  /** In order, the cursors of the blocks do not overlap. */
  lemma FitSeparate(cs: seq<Cursor>, ss: seq<seq<Meas>>, gs: Groups, subs: seq<Cursor>, outs: seq<seq<Meas>>,
                    used: set<object>)
    requires Ranged(cs, ss) && NoneEmpty(ss) && IsComponents(ExtentsOf(cs), gs) && Fit(subs, outs, used)
    requires Covers(BlockList(gs), |cs|) && forall b | 0 <= b < |BlockList(gs)| :: BlockList(gs)[b] != []
    requires |subs| == |BlockList(gs)|
    requires forall j | 0 <= j < |subs| :: Placed(ExtentsOf(cs), BlockList(gs)[j], subs[j])
    ensures AreComponents(ExtentsOf(cs), BlockList(gs)) && AllWithin(ExtentsOf(cs), ss)
    ensures Separate(subs, outs, used)
  {
    hide *;
    ExtentsLength(cs);
    BlockListAreComponents(ExtentsOf(cs), gs);
    ProperExtents(cs, ss);
    BlocksApart(ExtentsOf(cs), BlockList(gs), subs);
    SeparateIs(subs, outs, used);
  }

  lemma ExtentsLength(cs: seq<Cursor>)
    ensures |ExtentsOf(cs)| == |cs|
  {
  }

  lemma SeparateIs(cs: seq<Cursor>, ss: seq<seq<Meas>>, repr: set<object>)
    requires Fit(cs, ss, repr) && Apart(cs)
    ensures Separate(cs, ss, repr)
  {
    hide Straight, Ranged, Apart, Mergeable;
  }

  lemma FitMore(cs: seq<Cursor>, ss: seq<seq<Meas>>, repr: set<object>, c: Cursor, s: seq<Meas>)
    requires Fit(cs, ss, repr) && Straight(c) && Within(s, c.Extent()) && Readable(s)
    ensures Fit(cs + [c], ss + [s], repr + c.Repr())
  {
    hide Straight, Within, Readable;
  }

  lemma SomeBlock(blocks: seq<seq<nat>>, n: nat)
    requires Covers(blocks, n) && n > 0
    ensures blocks != []
  {
    assert InSome(blocks, 0);
  }

  lemma LeftIs(cs: seq<Cursor>, ss: seq<seq<Meas>>, taken: seq<seq<nat>>, used: set<object>,
               repr: set<object>, shared: set<object>, fit: bool)
    requires |ss| == |cs| && forall i: nat | i < |cs| && !InSome(taken, i) ::
               && cs[i].Repr() <= repr && cs[i].Shared() <= shared && cs[i].Repr() !! used
               && Holds(cs[i], ss[i]) && Whole(cs[i]) && (fit ==> Straight(cs[i]))
    ensures Left(cs, ss, taken, used, repr, shared, fit)
  {
  }
}
