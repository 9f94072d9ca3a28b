/** What merging each group and reading the groups one after another yields,
    and when that is the merge of everything. */
module Blocks {
  import opened Measurements
  import opened Streams
  import opened Grouping

  function Pick(ss: seq<seq<Meas>>, idx: seq<nat>): (r: seq<seq<Meas>>)
    requires forall k | 0 <= k < |idx| :: idx[k] < |ss|
    ensures |r| == |idx| && forall k | 0 <= k < |idx| :: r[k] == ss[idx[k]]
  {
    if idx == [] then [] else [ss[idx[0]]] + Pick(ss, idx[1..])
  }

  ghost predicate Ascending(idx: seq<nat>) {
    forall i, j | 0 <= i < j < |idx| :: idx[i] < idx[j]
  }

  ghost predicate InSome(blocks: seq<seq<nat>>, i: nat) {
    exists b | 0 <= b < |blocks| :: i in blocks[b]
  }

  /** The blocks are ascending lists that hold every index below n once. */
  ghost predicate Covers(blocks: seq<seq<nat>>, n: nat) {
    && (forall b | 0 <= b < |blocks| :: Ascending(blocks[b]))
    && (forall b, k | 0 <= b < |blocks| && 0 <= k < |blocks[b]| :: blocks[b][k] < n)
    && (forall i: nat | i < n :: InSome(blocks, i))
    && (forall b, c | 0 <= b < c < |blocks| :: forall i | i in blocks[b] :: i !in blocks[c])
  }

  // ------------------------------------------------------ components of overlap

  ghost predicate Within(s: seq<Meas>, r: Range) {
    forall x | 0 <= x < |s| :: r.lo <= s[x].time <= r.hi
  }

  /** The blocks are the components of range overlap. */
  ghost predicate AreComponents(rs: seq<Range>, blocks: seq<seq<nat>>) {
    && Covers(blocks, |rs|)
    && (forall b | 0 <= b < |blocks| :: blocks[b] != [])
    && (forall b, i, j: nat | 0 <= b < |blocks| && i in blocks[b] && j < |rs| && Connected(rs, i, j) :: j in blocks[b])
    && (forall b, i, j | 0 <= b < |blocks| && i in blocks[b] && j in blocks[b] :: Connected(rs, i, j))
  }

  /** lo is the earliest start among the ranges of a block. */
  ghost predicate IsStart(rs: seq<Range>, block: seq<nat>, lo: Time) {
    && (exists i :: i in block && i < |rs| && rs[i].lo == lo)
    && (forall i | i in block && i < |rs| :: lo <= rs[i].lo)
  }

  /** If one member of a component ends before y starts, they all do. */
  lemma ComponentBelow(rs: seq<Range>, a0: nat, a: nat, y: nat)
    requires Proper(rs) && a0 < |rs| && a < |rs| && y < |rs| && Connected(rs, a0, a) && !Connected(rs, a0, y)
    requires rs[a0].hi < rs[y].lo
    ensures rs[a].hi < rs[y].lo
  {
    var S := set x | x in Indices(|rs|) && Connected(rs, a0, x) && rs[x].hi < rs[y].lo;
    assert Closed(rs, S) by {
      forall i: nat, j: nat | i in S && Edge(rs, i, j)
        ensures j in S
      {
        ConnectedEdge(rs, a0, i, j);
        assert !Edge(rs, j, y) by { if Edge(rs, j, y) { ConnectedEdge(rs, a0, j, y); } }
        assert j != y;
      }
    }
    assert a0 in S;
  }

  /** If one member of a component starts after x ends, they all do. */
  lemma ComponentAbove(rs: seq<Range>, b0: nat, b: nat, x: nat)
    requires Proper(rs) && b0 < |rs| && b < |rs| && x < |rs| && Connected(rs, b0, b) && !Connected(rs, b0, x)
    requires rs[x].hi < rs[b0].lo
    ensures rs[x].hi < rs[b].lo
  {
    var S := set y | y in Indices(|rs|) && Connected(rs, b0, y) && rs[x].hi < rs[y].lo;
    assert Closed(rs, S) by {
      forall i: nat, j: nat | i in S && Edge(rs, i, j)
        ensures j in S
      {
        ConnectedEdge(rs, b0, i, j);
        assert !Edge(rs, j, x) by { if Edge(rs, j, x) { ConnectedEdge(rs, b0, j, x); } }
        assert j != x;
      }
    }
    assert b0 in S;
  }

  /** Components whose earliest starts are in order do not interleave. */
  lemma BlockBefore(rs: seq<Range>, blocks: seq<seq<nat>>, b: nat, c: nat, lb: Time, lc: Time, i: nat, j: nat)
    requires Proper(rs) && AreComponents(rs, blocks) && b < |blocks| && c < |blocks| && b != c
    requires IsStart(rs, blocks[b], lb) && IsStart(rs, blocks[c], lc) && lb <= lc
    requires i in blocks[b] && j in blocks[c] && i < |rs| && j < |rs|
    ensures rs[i].hi < rs[j].lo
  {
    var p :| p in blocks[b] && p < |rs| && rs[p].lo == lb;
    var q :| q in blocks[c] && q < |rs| && rs[q].lo == lc;
    assert !Connected(rs, p, q) && !Connected(rs, q, i) && Connected(rs, p, i) && Connected(rs, q, j);
    hide AreComponents, IsStart;
    assert !Edge(rs, p, q) by {
      if Edge(rs, p, q) { ConnectedEdge(rs, p, p, q); }
    }
    hide Connected;
    ComponentBelow(rs, p, i, q);
    ComponentAbove(rs, q, j, i);
  }

  // ------------------------------------------------------- the collapsed stream

  /** Cursor i overlaps no other. */
  ghost predicate Alone(rs: seq<Range>, i: nat) {
    forall j: nat :: !Edge(rs, i, j)
  }

  /** The first stream that has time t. */
  function FirstIndex(ss: seq<seq<Meas>>, t: Time): (k: nat)
    ensures k <= |ss| && (k < |ss| ==> At(ss[k], t) != [])
    ensures forall i | 0 <= i < k :: At(ss[i], t) == []
  {
    if ss == [] || At(ss[0], t) != [] then 0 else 1 + FirstIndex(ss[1..], t)
  }

  /** At time t the first stream that has it wins; of several measurements it
      may have there, all pass if nothing overlaps its cursor, else the first. */
  ghost function CollapsedAt(rs: seq<Range>, ss: seq<seq<Meas>>, t: Time): seq<Meas> {
    var k := FirstIndex(ss, t);
    if k == |ss| then [] else if Alone(rs, k) then At(ss[k], t) else At(ss[k], t)[..1]
  }

  ghost predicate IsCollapseOf(out: seq<Meas>, rs: seq<Range>, ss: seq<seq<Meas>>) {
    Nondecreasing(out) && forall t: Time :: At(out, t) == CollapsedAt(rs, ss, t)
  }

  /** ... of which there is only one. */
  lemma CollapseUnique(a: seq<Meas>, b: seq<Meas>, rs: seq<Range>, ss: seq<seq<Meas>>)
    requires IsCollapseOf(a, rs, ss) && IsCollapseOf(b, rs, ss)
    ensures a == b
  {
    hide At, CollapsedAt;
    forall t: Time
      ensures At(a, t) == At(b, t)
    {
      assert At(a, t) == CollapsedAt(rs, ss, t);
    }
    SameAt(a, b);
  }

  ghost predicate AllWithin(rs: seq<Range>, ss: seq<seq<Meas>>) {
    |rs| == |ss| && forall i | 0 <= i < |ss| :: Within(ss[i], rs[i])
  }

  /** Cursors that share a time overlap. */
  lemma SharedTime(rs: seq<Range>, ss: seq<seq<Meas>>, i: nat, j: nat, t: Time)
    requires AllWithin(rs, ss) && i < |ss| && j < |ss| && i != j && At(ss[i], t) != [] && At(ss[j], t) != []
    ensures Edge(rs, i, j)
  {
    var x :| 0 <= x < |ss[i]| && ss[i][x].time == t;
    var y :| 0 <= y < |ss[j]| && ss[j][y].time == t;
    assert Within(ss[i], rs[i]) && Within(ss[j], rs[j]);
  }

  lemma FirstOfIndex(ss: seq<seq<Meas>>, t: Time)
    ensures var k := FirstIndex(ss, t); FirstOf(ss, t) == if k < |ss| then Some(At(ss[k], t)[0]) else None
  {
    var k := FirstIndex(ss, t);
    hide FirstIndex, At, Lookup, FirstOf;
    if k < |ss| {
      FirstOfAt(ss, t, k);
    }
  }

  /** At every time the collapsed stream starts with what the merge holds. */
  lemma CollapseLookup(out: seq<Meas>, rs: seq<Range>, ss: seq<seq<Meas>>, t: Time)
    requires IsCollapseOf(out, rs, ss)
    ensures Lookup(out, t) == FirstOf(ss, t)
  {
    FirstOfIndex(ss, t);
    hide FirstIndex, At, Lookup, FirstOf;
    assert At(out, t) == CollapsedAt(rs, ss, t);
  }

  /** Every cursor that overlaps no other yields each time once. */
  ghost predicate LoneIncreasing(rs: seq<Range>, ss: seq<seq<Meas>>) {
    forall i: nat | i < |ss| && Alone(rs, i) :: Increasing(ss[i])
  }

  /** The collapsed stream is the merge exactly if every cursor that nothing
      overlaps is strictly increasing. */
  lemma CollapseIsMerge(out: seq<Meas>, rs: seq<Range>, ss: seq<seq<Meas>>)
    requires IsCollapseOf(out, rs, ss) && Mergeable(ss) && AllWithin(rs, ss)
    ensures out == MergeAll(ss) <==> LoneIncreasing(rs, ss)
  {
    hide *;
    MergeAllCorrect(ss);
    if out == MergeAll(ss) {
      MergeIsIncreasing(out, ss);
      forall i: nat | i < |ss| && Alone(rs, i)
        ensures Increasing(ss[i])
      {
        AloneOnce(out, rs, ss, i);
      }
      LoneIs(rs, ss);
    } else if LoneIncreasing(rs, ss) {
      NoneRepeated(out, rs, ss);
      LookupsMerge(out, rs, ss);
      MergeUnique(out, MergeAll(ss), ss);
    }
  }

  lemma LoneIs(rs: seq<Range>, ss: seq<seq<Meas>>)
    requires forall i: nat | i < |ss| && Alone(rs, i) :: Increasing(ss[i])
    ensures LoneIncreasing(rs, ss)
  {
  }

  lemma MergeIsIncreasing(out: seq<Meas>, ss: seq<seq<Meas>>)
    requires IsMergeOf(out, ss)
    ensures Increasing(out)
  {
  }

  lemma LookupsMerge(out: seq<Meas>, rs: seq<Range>, ss: seq<seq<Meas>>)
    requires IsCollapseOf(out, rs, ss) && Increasing(out)
    ensures IsMergeOf(out, ss)
  {
    forall t: Time
      ensures Lookup(out, t) == FirstOf(ss, t)
    {
      hide *;
      CollapseLookup(out, rs, ss, t);
    }
  }

  /** What a lone cursor repeats, the collapsed stream repeats. */
  lemma AloneOnce(out: seq<Meas>, rs: seq<Range>, ss: seq<seq<Meas>>, i: nat)
    requires IsCollapseOf(out, rs, ss) && Mergeable(ss) && AllWithin(rs, ss) && Increasing(out)
    requires i < |ss| && Alone(rs, i)
    ensures Increasing(ss[i])
  {
    if !Increasing(ss[i]) {
      assert Readable(ss[i]);
      var t := RepeatedAt(ss[i]);
      var k := FirstIndex(ss, t);
      assert At(out, t) == CollapsedAt(rs, ss, t);
      hide FirstIndex, At, Lookup, Increasing;
      if k != i {
        SharedTime(rs, ss, i, k, t);
      }
      IncreasingAt(out, t);
    }
  }

  lemma NoneRepeated(out: seq<Meas>, rs: seq<Range>, ss: seq<seq<Meas>>)
    requires IsCollapseOf(out, rs, ss) && LoneIncreasing(rs, ss)
    ensures Increasing(out)
  {
    if !Increasing(out) {
      var t := RepeatedAt(out);
      var k := FirstIndex(ss, t);
      assert At(out, t) == CollapsedAt(rs, ss, t);
      hide FirstIndex, At, Lookup;
      if k < |ss| && Alone(rs, k) {
        IncreasingAt(ss[k], t);
      }
    }
  }

  /** What is read for one block: the cursor itself if the block is a single
      one, else the merge. */
  ghost predicate Stands(ss: seq<seq<Meas>>, block: seq<nat>, out: seq<Meas>) {
    && block != [] && (forall k | 0 <= k < |block| :: block[k] < |ss|)
    && if |block| == 1 then out == ss[block[0]] else IsMergeOf(out, Pick(ss, block))
  }

  /** Joining what is read for the components gives the collapsed stream. */
  lemma BlocksCollapse(out: seq<Meas>, rs: seq<Range>, ss: seq<seq<Meas>>, blocks: seq<seq<nat>>, outs: seq<seq<Meas>>)
    requires AreComponents(rs, blocks) && AllWithin(rs, ss) && |outs| == |blocks|
    requires forall b | 0 <= b < |blocks| :: Stands(ss, blocks[b], outs[b])
    requires IsJoinOf(out, outs)
    ensures IsCollapseOf(out, rs, ss)
  {
    hide AreComponents, AllWithin, Stands, At, AtFirst, CollapsedAt, Nondecreasing, FirstIndex, Alone;
    forall t: Time
      ensures At(out, t) == CollapsedAt(rs, ss, t)
    {
      assert At(out, t) == AtFirst(outs, t);
      var k := FirstIndex(ss, t);
      var b := OwnBlock(rs, ss, blocks, outs, t);
      AtFirstOnly(outs, t, b);
      if k < |ss| {
        OwnRun(rs, ss, blocks, outs, t, b);
      }
      CollapsedIs(rs, ss, t);
    }
  }

  // ---------------------------------------------- blocks read in turn, any way

  /** Every stream is in one block, and what the blocks give is read once. */
  ghost predicate ReadInBlocks(out: seq<Meas>, ss: seq<seq<Meas>>, blocks: seq<seq<nat>>, outs: seq<seq<Meas>>) {
    && Covers(blocks, |ss|) && |outs| == |blocks|
    && (forall b | 0 <= b < |blocks| :: Stands(ss, blocks[b], outs[b]))
    && multiset(out) == multiset(Concat(outs))
  }

  /** Reading blocks in turn, in whatever order and whatever their ranges, is
      merging everything exactly if the times read keep increasing. */
  lemma InTurnIsMerge(out: seq<Meas>, ss: seq<seq<Meas>>, blocks: seq<seq<nat>>, outs: seq<seq<Meas>>)
    requires Mergeable(ss) && ReadInBlocks(out, ss, blocks, outs)
    ensures out == MergeAll(ss) <==> Increasing(out)
  {
    hide *;
    MergeAllCorrect(ss);
    if out == MergeAll(ss) {
      MergeIsIncreasing(out, ss);
    } else if Increasing(out) {
      forall t: Time
        ensures Lookup(out, t) == FirstOf(ss, t)
      {
        InTurnAt(out, ss, blocks, outs, t);
      }
      IsMerge(out, ss);
      MergeUnique(out, MergeAll(ss), ss);
    }
  }

  lemma IsMerge(out: seq<Meas>, ss: seq<seq<Meas>>)
    requires Increasing(out) && forall t: Time :: Lookup(out, t) == FirstOf(ss, t)
    ensures IsMergeOf(out, ss)
  {
  }

  /** Each time is read from one block only: the block of the first stream that has it. */
  lemma InTurnAt(out: seq<Meas>, ss: seq<seq<Meas>>, blocks: seq<seq<nat>>, outs: seq<seq<Meas>>, t: Time)
    requires ReadInBlocks(out, ss, blocks, outs) && Increasing(out)
    ensures Lookup(out, t) == FirstOf(ss, t)
  {
    assert Covers(blocks, |ss|) && |outs| == |blocks| && multiset(out) == multiset(Concat(outs));
    assert forall b | 0 <= b < |blocks| :: Stands(ss, blocks[b], outs[b]);
    hide *;
    IncreasingAt(out, t);
    SameOnce(out, Concat(outs), t);
    var k := FirstIndex(ss, t);
    FirstOfIndex(ss, t);
    var b := |blocks|;
    if k < |ss| {
      b := BlockOf(blocks, |ss|, k);
      BlockHas(ss, blocks, outs, b, t);
    }
    forall c | 0 <= c < |outs| && c != b
      ensures At(outs[c], t) == []
    {
      if k < |ss| {
        if c < b { ConcatHasBoth(outs, t, c, b); } else { ConcatHasBoth(outs, t, b, c); }
      } else {
        NoTime(ss, blocks[c], outs[c], t);
      }
    }
    ConcatAt(outs, t, b);
  }

  lemma BlockOf(blocks: seq<seq<nat>>, n: nat, k: nat) returns (b: nat)
    requires Covers(blocks, n) && k < n
    ensures b < |blocks| && k in blocks[b]
  {
    assert InSome(blocks, k);
    b :| 0 <= b < |blocks| && k in blocks[b];
  }

  /** The block of the first stream that has time t starts with what that has. */
  lemma BlockHas(ss: seq<seq<Meas>>, blocks: seq<seq<nat>>, outs: seq<seq<Meas>>, b: nat, t: Time)
    requires Covers(blocks, |ss|) && |outs| == |blocks| && b < |blocks| && Stands(ss, blocks[b], outs[b])
    requires FirstIndex(ss, t) in blocks[b] && FirstIndex(ss, t) < |ss|
    ensures At(outs[b], t) != [] && At(outs[b], t)[0] == At(ss[FirstIndex(ss, t)], t)[0]
  {
    var k, block := FirstIndex(ss, t), blocks[b];
    hide FirstIndex, At, Lookup;
    assert Ascending(block);
    if |block| > 1 {
      assert Lookup(outs[b], t) == FirstOf(Pick(ss, block), t);
      BlockFirst(ss, block, t, k);
    }
  }

  lemma CollapsedIs(rs: seq<Range>, ss: seq<seq<Meas>>, t: Time)
    ensures var k := FirstIndex(ss, t);
            CollapsedAt(rs, ss, t) == if k == |ss| then [] else if Alone(rs, k) then At(ss[k], t) else At(ss[k], t)[..1]
  {
  }

  /** Only the block of the first cursor that has time t has it. */
  lemma OwnBlock(rs: seq<Range>, ss: seq<seq<Meas>>, blocks: seq<seq<nat>>, outs: seq<seq<Meas>>, t: Time)
    returns (b: nat)
    requires AreComponents(rs, blocks) && AllWithin(rs, ss) && |outs| == |blocks|
    requires forall c | 0 <= c < |blocks| :: Stands(ss, blocks[c], outs[c])
    ensures b <= |blocks| && forall c | 0 <= c < |blocks| && c != b :: At(outs[c], t) == []
    ensures FirstIndex(ss, t) < |ss| <==> b < |blocks|
    ensures b < |blocks| ==> FirstIndex(ss, t) in blocks[b]
  {
    var k := FirstIndex(ss, t);
    hide FirstIndex, At;
    if k < |ss| {
      assert |rs| == |ss| && InSome(blocks, k);
      b :| 0 <= b < |blocks| && k in blocks[b];
    } else {
      b := |blocks|;
    }
    forall c | 0 <= c < |blocks| && c != b
      ensures At(outs[c], t) == []
    {
      forall j | j in blocks[c] && j < |ss|
        ensures At(ss[j], t) == []
      {
        if k < |ss| {
          OtherBlock(rs, ss, blocks, b, c, k, j, t);
        }
      }
      NoTime(ss, blocks[c], outs[c], t);
    }
  }

  /** A time held in one block is not held in another. */
  lemma OtherBlock(rs: seq<Range>, ss: seq<seq<Meas>>, blocks: seq<seq<nat>>, b: nat, c: nat, k: nat, j: nat, t: Time)
    requires AreComponents(rs, blocks) && AllWithin(rs, ss) && b < |blocks| && c < |blocks| && b != c
    requires k in blocks[b] && j in blocks[c] && k < |ss| && j < |ss| && At(ss[k], t) != []
    ensures At(ss[j], t) == []
  {
    hide At;
    assert k != j && j !in blocks[b];
    if Edge(rs, k, j) {
      ConnectedEdge(rs, k, k, j);
    } else if At(ss[j], t) != [] {
      SharedTime(rs, ss, k, j, t);
    }
  }

  lemma NoTime(ss: seq<seq<Meas>>, block: seq<nat>, out: seq<Meas>, t: Time)
    requires Stands(ss, block, out) && forall j | j in block && j < |ss| :: At(ss[j], t) == []
    ensures At(out, t) == []
  {
    hide At, Lookup;
    assert forall k | 0 <= k < |block| :: block[k] in block;
    if |block| > 1 {
      assert Lookup(out, t) == FirstOf(Pick(ss, block), t);
      hide FirstOf;
      assert forall k | 0 <= k < |block| :: At(Pick(ss, block)[k], t) == [];
    }
  }

  /** What the block of the first cursor that has time t gives for it. */
  lemma OwnRun(rs: seq<Range>, ss: seq<seq<Meas>>, blocks: seq<seq<nat>>, outs: seq<seq<Meas>>, t: Time, b: nat)
    requires AreComponents(rs, blocks) && AllWithin(rs, ss) && |outs| == |blocks| && b < |blocks|
    requires Stands(ss, blocks[b], outs[b]) && FirstIndex(ss, t) in blocks[b] && FirstIndex(ss, t) < |ss|
    ensures var k := FirstIndex(ss, t); At(outs[b], t) == if Alone(rs, k) then At(ss[k], t) else At(ss[k], t)[..1]
  {
    var k, block := FirstIndex(ss, t), blocks[b];
    hide FirstIndex, At, Lookup, Alone;
    SingleIsAlone(rs, blocks, b, k);
    hide AreComponents;
    if |block| > 1 {
      assert Increasing(outs[b]) && Lookup(outs[b], t) == FirstOf(Pick(ss, block), t);
      BlockFirst(ss, block, t, k);
      IncreasingAt(outs[b], t);
    }
  }

  lemma SingleIsAlone(rs: seq<Range>, blocks: seq<seq<nat>>, b: nat, k: nat)
    requires AreComponents(rs, blocks) && b < |blocks| && k in blocks[b]
    ensures Ascending(blocks[b]) && k < |rs| && (Alone(rs, k) <==> |blocks[b]| == 1)
    ensures |blocks[b]| == 1 ==> blocks[b][0] == k
  {
    var block := blocks[b];
    assert Connected(rs, k, k);
    hide Connected;
    if |block| == 1 {
      forall j: nat
        ensures !Edge(rs, k, j)
      {
        if Edge(rs, k, j) {
          ConnectedEdge(rs, k, k, j);
        }
      }
    } else {
      var j := if block[0] == k then block[1] else block[0];
      assert j != k && j in block;
      if Alone(rs, k) {
        IsolatedConnected(rs, j, k);
      }
    }
  }

  lemma BlockFirst(ss: seq<seq<Meas>>, block: seq<nat>, t: Time, k: nat)
    requires Ascending(block) && (forall i | 0 <= i < |block| :: block[i] < |ss|) && k in block
    requires k < |ss| && At(ss[k], t) != [] && forall i | 0 <= i < k :: At(ss[i], t) == []
    ensures FirstOf(Pick(ss, block), t) == Some(At(ss[k], t)[0])
  {
    hide At, Lookup;
    var p :| 0 <= p < |block| && block[p] == k;
    FirstOfAt(Pick(ss, block), t, p);
  }

  // --------------------------------------------------------- listing the groups

  predicate IsLeast(s: set<nat>, x: nat) {
    x in s && forall y | y in s :: x <= y
  }

  lemma {:induction false} HasLeast(s: set<nat>) returns (x: nat)
    requires s != {}
    ensures IsLeast(s, x)
  {
    x :| x in s;
    var rest := s - {x};
    if rest != {} {
      var z := HasLeast(rest);
      LeastOf(s, x, z);
      x := if z < x then z else x;
    } else {
      assert s == {x};
    }
  }

  lemma LeastOf(s: set<nat>, x: nat, z: nat)
    requires x in s && IsLeast(s - {x}, z)
    ensures IsLeast(s, if z < x then z else x)
  {
    forall y | y in s
      ensures z <= y || y == x
    {
      assert y == x || y in s - {x};
    }
  }

  lemma LeastExists(s: set<nat>)
    requires s != {}
    ensures exists x :: IsLeast(s, x)
  {
    var x := HasLeast(s);
  }

  /** The elements of a set in ascending order: how ordered containers are
      walked. */
  function SortedList(s: set<nat>): (r: seq<nat>)
    ensures Ascending(r) && forall x :: x in r <==> x in s
  {
    if s == {} then []
    else
      LeastExists(s);
      var x :| IsLeast(s, x);
      [x] + SortedList(s - {x})
  }

  /** The cursors a group is merged from: the key, then the others. */
  function GroupBlock(gs: Groups, g: nat): seq<nat>
    requires g in gs.overlapped
  {
    [g] + SortedList(gs.overlapped[g])
  }

  function AloneBlocks(alone: seq<nat>): (r: seq<seq<nat>>)
    ensures |r| == |alone| && forall k | 0 <= k < |r| :: r[k] == [alone[k]]
  {
    if alone == [] then [] else [[alone[0]]] + AloneBlocks(alone[1..])
  }

  function GroupBlocks(gs: Groups, keys: seq<nat>): (r: seq<seq<nat>>)
    requires forall k | 0 <= k < |keys| :: keys[k] in gs.overlapped
    ensures |r| == |keys| && forall k | 0 <= k < |r| :: r[k] == GroupBlock(gs, keys[k])
  {
    if keys == [] then [] else [GroupBlock(gs, keys[0])] + GroupBlocks(gs, keys[1..])
  }

  function BlockList(gs: Groups): seq<seq<nat>> {
    AloneBlocks(gs.alone) + GroupBlocks(gs, SortedList(gs.overlapped.Keys))
  }

  /** Which block is which. */
  lemma BlockMembers(gs: Groups, b: nat, i: nat)
    requires b < |BlockList(gs)|
    ensures |BlockList(gs)| == |gs.alone| + |SortedList(gs.overlapped.Keys)|
    ensures b < |gs.alone| ==> (i in BlockList(gs)[b] <==> i == gs.alone[b])
    ensures b >= |gs.alone| ==> var g := SortedList(gs.overlapped.Keys)[b - |gs.alone|];
                                g in gs.overlapped && BlockList(gs)[b] == GroupBlock(gs, g)
                                && (i in BlockList(gs)[b] <==> InGroup(gs, g, i))
  {
    hide SortedList, Ascending;
    var keys := SortedList(gs.overlapped.Keys);
    if b >= |gs.alone| {
      var g := keys[b - |gs.alone|];
      assert g in keys;
      assert BlockList(gs)[b] == GroupBlocks(gs, keys)[b - |gs.alone|] == GroupBlock(gs, g);
      hide BlockList, GroupBlocks;
      GroupMembers(gs, g, i);
    } else {
      assert BlockList(gs)[b] == AloneBlocks(gs.alone)[b] == [gs.alone[b]];
    }
  }

  lemma GroupMembers(gs: Groups, g: nat, i: nat)
    requires g in gs.overlapped
    ensures i in GroupBlock(gs, g) <==> InGroup(gs, g, i)
  {
    hide SortedList, Ascending;
    var rest := SortedList(gs.overlapped[g]);
    assert i in [g] + rest <==> i == g || i in rest;
  }

  /** A grouping that puts every cursor in one place gives blocks that hold
      every cursor once. */
  lemma BlockListCovers(rs: seq<Range>, gs: Groups)
    requires IsPartition(rs, gs) && KeysFirst(gs)
    ensures Covers(BlockList(gs), |rs|) && forall b | 0 <= b < |BlockList(gs)| :: BlockList(gs)[b] != []
  {
    var blocks := BlockList(gs);
    hide InGroup, BlockList;
    forall b | 0 <= b < |blocks|
      ensures blocks[b] != [] && Ascending(blocks[b])
    {
      BlockAscending(gs, b);
    }
    forall i: nat | i < |rs|
      ensures InSome(blocks, i)
    {
      FindBlock(rs, gs, i);
    }
    forall b, c | 0 <= b < |blocks| && 0 <= c < |blocks|
      ensures forall i | i in blocks[b] && i in blocks[c] :: b == c
    {
      forall i | i in blocks[b] && i in blocks[c]
        ensures b == c
      {
        BlocksDisjoint(rs, gs, b, c, i);
      }
    }
    forall b, k | 0 <= b < |blocks| && 0 <= k < |blocks[b]|
      ensures blocks[b][k] < |rs|
    {
      MemberBelow(rs, gs, b, blocks[b][k]);
    }
    hide IsPartition, KeysFirst, Ascending;
  }

  lemma MemberBelow(rs: seq<Range>, gs: Groups, b: nat, i: nat)
    requires IsPartition(rs, gs) && b < |BlockList(gs)| && i in BlockList(gs)[b]
    ensures i < |rs|
  {
    BlockMembers(gs, b, i);
    hide BlockList, InGroup, SortedList;
    assert i in gs.alone || exists g :: InGroup(gs, g, i);
  }

  lemma BlockListAreComponents(rs: seq<Range>, gs: Groups)
    requires IsComponents(rs, gs) && Covers(BlockList(gs), |rs|)
    requires forall b | 0 <= b < |BlockList(gs)| :: BlockList(gs)[b] != []
    ensures AreComponents(rs, BlockList(gs))
  {
    var blocks := BlockList(gs);
    hide Connected, InGroup, BlockList, Covers;
    forall b, i | 0 <= b < |blocks| && i in blocks[b]
      ensures i < |rs| && forall j: nat | j < |rs| :: j in blocks[b] <==> Connected(rs, i, j)
    {
      BlockConnected(rs, gs, b, i);
    }
    hide IsComponents;
  }

  lemma BlockAscending(gs: Groups, b: nat)
    requires b < |BlockList(gs)| && KeysFirst(gs)
    ensures BlockList(gs)[b] != [] && Ascending(BlockList(gs)[b])
  {
    BlockMembers(gs, b, 0);
    hide SortedList;
    if b >= |gs.alone| {
      var g := SortedList(gs.overlapped.Keys)[b - |gs.alone|];
      hide BlockList;
      GroupAscending(gs, g);
    } else {
      assert BlockList(gs)[b] == AloneBlocks(gs.alone)[b] == [gs.alone[b]];
    }
  }

  lemma GroupAscending(gs: Groups, g: nat)
    requires g in gs.overlapped && KeysFirst(gs)
    ensures Ascending(GroupBlock(gs, g))
  {
    hide SortedList;
    var rest := SortedList(gs.overlapped[g]);
    forall k | 0 <= k < |rest|
      ensures g < rest[k]
    {
      assert rest[k] in rest;
    }
  }

  lemma FindBlock(rs: seq<Range>, gs: Groups, i: nat)
    requires IsPartition(rs, gs) && i < |rs|
    ensures InSome(BlockList(gs), i)
  {
    var keys := SortedList(gs.overlapped.Keys);
    if i in gs.alone {
      var b :| 0 <= b < |gs.alone| && gs.alone[b] == i;
      BlockMembers(gs, b, i);
    } else {
      var g :| InGroup(gs, g, i);
      assert g in keys;
      var k :| 0 <= k < |keys| && keys[k] == g;
      assert |gs.alone| + k < |BlockList(gs)|;
      BlockMembers(gs, |gs.alone| + k, i);
    }
  }

  lemma BlocksDisjoint(rs: seq<Range>, gs: Groups, b: nat, c: nat, i: nat)
    requires IsPartition(rs, gs) && b < |BlockList(gs)| && c < |BlockList(gs)|
    requires i in BlockList(gs)[b] && i in BlockList(gs)[c]
    ensures b == c
  {
    hide BlockList, InGroup, SortedList, IsPartition;
    BlockMembers(gs, b, i);
    BlockMembers(gs, c, i);
    var keys, n := SortedList(gs.overlapped.Keys), |gs.alone|;
    if n <= b && n <= c {
      OnePlace(rs, gs, keys[b - n], keys[c - n], i);
    } else {
      AlonePlace(rs, gs, i);
      assert b < n && c < n;
      AloneDistinct(rs, gs, b, c);
    }
  }

  lemma OnePlace(rs: seq<Range>, gs: Groups, g: nat, h: nat, i: nat)
    requires IsPartition(rs, gs) && InGroup(gs, g, i) && InGroup(gs, h, i)
    ensures g == h
  {
  }

  lemma AlonePlace(rs: seq<Range>, gs: Groups, i: nat)
    requires IsPartition(rs, gs) && i in gs.alone
    ensures forall g :: !InGroup(gs, g, i)
  {
  }

  lemma AloneDistinct(rs: seq<Range>, gs: Groups, b: nat, c: nat)
    requires IsPartition(rs, gs) && b < |gs.alone| && c < |gs.alone| && gs.alone[b] == gs.alone[c]
    ensures b == c
  {
  }

  lemma BlockConnected(rs: seq<Range>, gs: Groups, b: nat, i: nat)
    requires IsComponents(rs, gs) && b < |BlockList(gs)| && i in BlockList(gs)[b]
    ensures i < |rs| && forall j: nat | j < |rs| :: j in BlockList(gs)[b] <==> Connected(rs, i, j)
  {
    MemberBelow(rs, gs, b, i);
    BlockMembers(gs, b, i);
    hide BlockList, InGroup, SortedList;
    forall j: nat | j < |rs|
      ensures j in BlockList(gs)[b] <==> Connected(rs, i, j)
    {
      BlockMembers(gs, b, j);
      if b < |gs.alone| {
        assert Connected(rs, i, i);
      }
    }
  }

  /** Only the blocks of lone cursors are single. */
  lemma GroupBlockSize(gs: Groups, b: nat)
    requires NoneSingle(gs) && b < |BlockList(gs)|
    ensures if b < |gs.alone| then BlockList(gs)[b] == [gs.alone[b]] else |BlockList(gs)[b]| > 1
  {
    hide SortedList;
    if b >= |gs.alone| {
      BlockMembers(gs, b, 0);
      var g := SortedList(gs.overlapped.Keys)[b - |gs.alone|];
      hide BlockList;
      var x :| x in gs.overlapped[g];
      assert x in SortedList(gs.overlapped[g]);
    }
  }
}
