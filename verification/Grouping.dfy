/** Which cursors have to be merged and which can simply follow each other:
    the grouping of time ranges by overlap. */
module Grouping {
  import opened Measurements

  datatype Range = Range(lo: Time, hi: Time)

  predicate InInterval(from: Time, to: Time, t: Time) {
    from <= t <= to
  }

  predicate Intersects(a: Range, b: Range) {
    || InInterval(a.lo, a.hi, b.lo) || InInterval(a.lo, a.hi, b.hi)
    || InInterval(b.lo, b.hi, a.lo) || InInterval(b.lo, b.hi, a.hi)
  }

  ghost predicate Proper(rs: seq<Range>) {
    forall i | 0 <= i < |rs| :: rs[i].lo <= rs[i].hi
  }

  /** i and j are different cursors with overlapping ranges. */
  predicate Edge(rs: seq<Range>, i: nat, j: nat) {
    i < |rs| && j < |rs| && i != j && Intersects(rs[i], rs[j])
  }

  function Indices(n: nat): (s: set<nat>)
    ensures forall x: nat :: x in s <==> x < n
  {
    if n == 0 then {} else Indices(n - 1) + {n - 1}
  }

  // ------------------------------------------------------------- connectivity

  ghost predicate Closed(rs: seq<Range>, S: set<nat>) {
    forall i: nat, j: nat | i in S && Edge(rs, i, j) :: j in S
  }

  /** Whatever holds i and is closed under overlap holds j. */
  ghost predicate Connected(rs: seq<Range>, i: nat, j: nat) {
    forall S: set<nat> | Closed(rs, S) :: i in S ==> j in S
  }

  lemma ConnectedEdge(rs: seq<Range>, i: nat, j: nat, k: nat)
    requires Connected(rs, i, j) && Edge(rs, j, k)
    ensures Connected(rs, i, k)
  {
  }

  lemma ConnectedTrans(rs: seq<Range>, i: nat, j: nat, k: nat)
    requires Connected(rs, i, j) && Connected(rs, j, k)
    ensures Connected(rs, i, k)
  {
  }

  lemma ConnectedSym(rs: seq<Range>, i: nat, j: nat)
    requires i < |rs| && j < |rs| && Connected(rs, i, j)
    ensures Connected(rs, j, i)
  {
    forall S: set<nat> | Closed(rs, S)
      ensures j in S ==> i in S
    {
      var T := Indices(|rs|) - S;
      assert Closed(rs, T) by {
        assert forall a: nat, b: nat | Edge(rs, a, b) :: Edge(rs, b, a);
      }
    }
  }

  // --------------------------------------------------------------- the result

  /** Cursors emitted on their own, and groups keyed by their first cursor. */
  datatype Groups = Groups(alone: seq<nat>, overlapped: map<nat, set<nat>>)

  predicate InGroup(gs: Groups, g: nat, x: nat) {
    g in gs.overlapped && (x == g || x in gs.overlapped[g])
  }

  /** Every cursor is in exactly one place. */
  ghost predicate IsPartition(rs: seq<Range>, gs: Groups) {
    && (forall x, y | 0 <= x < y < |gs.alone| :: gs.alone[x] != gs.alone[y])
    && (forall x: nat :: x in gs.alone || (exists g :: InGroup(gs, g, x)) <==> x < |rs|)
    && (forall g, x: nat | InGroup(gs, g, x) :: x !in gs.alone)
    && (forall g, h, x: nat | InGroup(gs, g, x) && InGroup(gs, h, x) :: g == h)
  }

  /** The groups are the connected components of range overlap. */
  ghost predicate IsComponents(rs: seq<Range>, gs: Groups) {
    && IsPartition(rs, gs)
    && (forall g, x: nat, y: nat | InGroup(gs, g, x) && y < |rs| :: InGroup(gs, g, y) <==> Connected(rs, x, y))
    && (forall x: nat, y: nat | x in gs.alone && y < |rs| && Connected(rs, x, y) :: x == y)
  }

  /** The key of a group is its first cursor. */
  ghost predicate KeysFirst(gs: Groups) {
    forall g, x | g in gs.overlapped && x in gs.overlapped[g] :: g < x
  }

  /** No group consists of its key alone. */
  ghost predicate NoneSingle(gs: Groups) {
    forall g | g in gs.overlapped :: gs.overlapped[g] != {}
  }

  /** i overlaps no cursor before it. */
  ghost predicate First(rs: seq<Range>, i: nat) {
    forall k: nat | k < i :: !Edge(rs, k, i)
  }

  /** The order the grouping needs: a cursor that is connected to an earlier
      one also overlaps an earlier one itself. */
  ghost predicate Ordered(rs: seq<Range>) {
    forall i: nat, j: nat | j < i < |rs| && Connected(rs, i, j) :: !First(rs, i)
  }

  /** Ranges listed by start time are in such an order ... */
  lemma SortedIsOrdered(rs: seq<Range>)
    requires Proper(rs)
    requires forall i, j | 0 <= i < j < |rs| :: rs[i].lo <= rs[j].lo
    ensures Ordered(rs)
  {
    forall i: nat | i < |rs| && First(rs, i)
      ensures Closed(rs, Indices(|rs|) - Indices(i))
    {
      var S := Indices(|rs|) - Indices(i);
      forall a: nat, b: nat | a in S && Edge(rs, a, b)
        ensures b in S
      {
        assert b < i ==> Edge(rs, b, i);
      }
    }
  }

  /** ... and so are any two ranges. */
  lemma PairIsOrdered(rs: seq<Range>)
    requires |rs| == 2
    ensures Ordered(rs)
  {
    var S := Indices(2) - {0};
    if First(rs, 1) {
      assert Edge(rs, 1, 0) ==> Edge(rs, 0, 1);
      assert Closed(rs, S);
    }
  }

  // ------------------------------------------------- the result in any order

  /** One of the first n cursors overlaps cursor x. */
  ghost predicate Reached(rs: seq<Range>, n: nat, x: nat) {
    exists k: nat :: k < n && Edge(rs, k, x)
  }

  /** When cursor x is visited no group has it yet, and every cursor it
      overlaps belongs to a group already: it opens no group and joins none. */
  ghost predicate LeftAlone(rs: seq<Range>, x: nat) {
    First(rs, x) && forall j: nat | Edge(rs, x, j) :: Reached(rs, x, j)
  }

  ghost predicate Overlaps(rs: seq<Range>, x: nat) {
    exists j: nat :: Edge(rs, x, j)
  }

  /** What the grouping returns, in order or not: whom it leaves alone, whom it
      groups, and that no cursor is in two groups or grouped with one it is not
      connected to. */
  ghost predicate Grouped(rs: seq<Range>, gs: Groups) {
    && (forall g | g in gs.overlapped :: g !in gs.overlapped[g] && gs.overlapped[g] != {})
    && (forall x, y | 0 <= x < y < |gs.alone| :: gs.alone[x] < gs.alone[y])
    && (forall x: nat :: x in gs.alone <==> x < |rs| && LeftAlone(rs, x))
    && (forall x: nat :: (exists g :: InGroup(gs, g, x)) <==> Overlaps(rs, x))
    && (forall g, h, x: nat | InGroup(gs, g, x) && InGroup(gs, h, x) :: g == h)
    && (forall g, x: nat | InGroup(gs, g, x) :: x < |rs| && Connected(rs, g, x))
  }

  /** No cursor is left alone although it overlaps another. */
  ghost predicate NoneTwice(rs: seq<Range>) {
    forall x: nat :: !(LeftAlone(rs, x) && Overlaps(rs, x))
  }

  /** Ranges in order are of that kind. */
  lemma OrderedOnce(rs: seq<Range>)
    requires Ordered(rs)
    ensures NoneTwice(rs)
  {
    hide Connected;
    forall x: nat | LeftAlone(rs, x) && Overlaps(rs, x)
      ensures false
    {
      var j: nat :| Edge(rs, x, j);
      assert Reached(rs, x, j);
      var k: nat :| k < x && Edge(rs, k, j);
      assert Edge(rs, j, k);
      ConnectedEdge(rs, x, x, j);
      ConnectedEdge(rs, x, j, k);
    }
  }

  /** Every cursor is put in exactly one place exactly if none is left alone
      although it overlaps another. */
  lemma GroupedOnce(rs: seq<Range>, gs: Groups)
    requires Grouped(rs, gs)
    ensures IsPartition(rs, gs) <==> NoneTwice(rs)
  {
    assert forall x: nat :: x < |rs| ==> LeftAlone(rs, x) || Overlaps(rs, x) by {
      hide Connected, InGroup;
      assert forall x: nat, k: nat :: Edge(rs, k, x) ==> Edge(rs, x, k);
    }
    assert forall x: nat :: Overlaps(rs, x) ==> x < |rs|;
    hide LeftAlone, Connected, InGroup, Overlaps;
  }

  /** A cursor that overlaps nothing is connected to itself only. */
  lemma IsolatedConnected(rs: seq<Range>, x: nat, y: nat)
    requires x < |rs| && y < |rs| && Connected(rs, x, y) && forall j: nat :: !Edge(rs, y, j)
    ensures x == y
  {
    var S := Indices(|rs|) - {y};
    assert Closed(rs, S) by {
      assert forall a: nat, b: nat | Edge(rs, a, b) :: Edge(rs, b, a);
    }
  }

  // ------------------------------------------------------------ the algorithm

  /** What holds between any two steps, whatever the order of the ranges.
      `root` maps every processed cursor to the key of its group. */
  ghost predicate Inv(rs: seq<Range>, gs: Groups, root: map<nat, nat>) {
    && (forall x | x in root :: x < |rs| && root[x] in gs.overlapped && Connected(rs, root[x], x))
    && (forall g | g in gs.overlapped :: g in root && root[g] == g)
    && (forall g, x: nat | g in gs.overlapped :: x in gs.overlapped[g] <==> x in root && x != g && root[x] == g)
    && (forall x, y | 0 <= x < y < |gs.alone| :: gs.alone[x] < gs.alone[y])
  }

  /** After the outer loop has visited the first n cursors: each of them is
      alone, or in the group of a key no later than itself; one that overlaps
      no earlier cursor is alone or a key. */
  ghost predicate Settled(rs: seq<Range>, n: nat, gs: Groups, root: map<nat, nat>) {
    && (forall x | x in gs.alone :: x < n)
    && (forall x | x in root :: root[x] < n)
    && (forall x: nat | x < n :: x in gs.alone || (x in root && root[x] <= x))
    && (forall x: nat | x < n && First(rs, x) :: x in gs.alone || root[x] == x)
    && (forall x | x in root && n <= x :: !First(rs, x))
  }

  /** What holds in addition when the ranges are in order. */
  ghost predicate Complete(rs: seq<Range>, n: nat, gs: Groups, root: map<nat, nat>) {
    && (forall k: nat, j: nat | k < n && Edge(rs, k, j) :: k in root && j in root)
    && (forall x, y | x in root && y in root && Connected(rs, x, y) :: root[x] == root[y])
    && (forall x | x in gs.alone :: x !in root && forall j: nat :: !Edge(rs, x, j))
  }

  /** Exactly who has been placed after the first n cursors. */
  ghost predicate Placed(rs: seq<Range>, n: nat, gs: Groups, root: map<nat, nat>) {
    && (forall x: nat :: x in gs.alone <==> x < n && LeftAlone(rs, x))
    && (forall x: nat :: x in root <==> Reached(rs, n, x) || (x < n && !LeftAlone(rs, x)))
  }

  /** How far the inner loop for cursor i has come: it has looked at the first
      m others, starting from `root0`. */
  ghost predicate Scanned(rs: seq<Range>, i: nat, m: nat, root0: map<nat, nat>, root: map<nat, nat>) {
    && (forall x | x in root0 :: x in root && root[x] == root0[x])
    && (forall x | x in root && x !in root0 :: i in root && root[x] == root[i] && (x == i || Edge(rs, i, x)))
    && (i in root && i !in root0 ==> root[i] == i)
    && (i in root && i !in root0 ==> exists j: nat :: Edge(rs, i, j) && j !in root0)
    && (forall j: nat | j < m && Edge(rs, i, j) :: j in root)
  }

  lemma ScanStart(rs: seq<Range>, i: nat, root: map<nat, nat>)
    ensures Scanned(rs, i, 0, root, root)
  {
  }

  lemma ScanSkip(rs: seq<Range>, i: nat, j: nat, root0: map<nat, nat>, root: map<nat, nat>)
    requires Scanned(rs, i, j, root0, root) && (Edge(rs, i, j) ==> j in root)
    ensures Scanned(rs, i, j + 1, root0, root)
  {
  }

  /** Adding j to the scan of i, in the group i belongs to. */
  lemma ScanJoin(rs: seq<Range>, i: nat, j: nat, root0: map<nat, nat>, root: map<nat, nat>)
    requires Scanned(rs, i, j, root0, root) && Edge(rs, i, j) && j !in root && i in root
    ensures Scanned(rs, i, j + 1, root0, root[j := root[i]])
  {
    hide Edge;
    assert i != j;
  }

  lemma ScanOpen(rs: seq<Range>, i: nat, j: nat, root0: map<nat, nat>, root: map<nat, nat>)
    requires Scanned(rs, i, j, root0, root) && i !in root && Edge(rs, i, j) && j !in root
    ensures Scanned(rs, i, j, root0, root[i := i])
  {
    hide Edge;
  }

  /** Cursor i is already in the group of g: j joins that group. */
  lemma JoinGroup(rs: seq<Range>, i: nat, j: nat, g: nat, gs: Groups, root: map<nat, nat>)
    requires Inv(rs, gs, root) && Edge(rs, i, j) && j !in root
    requires g in gs.overlapped && i in gs.overlapped[g]
    ensures i in root && root[i] == g
    ensures Inv(rs, gs.(overlapped := gs.overlapped[g := gs.overlapped[g] + {j}]), root[j := g])
  {
    assert i in root && root[i] == g;
    ConnectedEdge(rs, g, i, j);
    assert j < |rs|;
    hide Connected, Edge;
  }

  lemma NewKey(rs: seq<Range>, i: nat, gs: Groups, root: map<nat, nat>)
    requires Inv(rs, gs, root) && i < |rs| && i !in root
    ensures Inv(rs, gs.(overlapped := gs.overlapped[i := {}]), root[i := i])
  {
    assert Connected(rs, i, i);
    hide Connected, Edge;
  }

  /** Cursor i is a key: j joins its group. */
  lemma JoinKey(rs: seq<Range>, i: nat, j: nat, gs: Groups, root: map<nat, nat>)
    requires Inv(rs, gs, root) && Edge(rs, i, j) && j !in root && i in gs.overlapped
    ensures i in root && root[i] == i
    ensures Inv(rs, gs.(overlapped := gs.overlapped[i := gs.overlapped[i] + {j}]), root[j := i])
  {
    ConnectedEdge(rs, i, i, j);
    assert j < |rs|;
    hide Connected, Edge;
  }

  lemma RootedIsMember(rs: seq<Range>, i: nat, gs: Groups, root: map<nat, nat>)
    requires Inv(rs, gs, root) && i in root && i !in gs.overlapped
    ensures exists g :: g in gs.overlapped && i in gs.overlapped[g]
  {
    hide Connected;
    assert i in gs.overlapped[root[i]];
  }

  /** The end of the inner loop: cursor i is settled. */
  lemma ScanEnd(rs: seq<Range>, i: nat, gs0: Groups, gs: Groups, gs': Groups,
                root0: map<nat, nat>, root: map<nat, nat>)
    requires i < |rs| && Settled(rs, i, gs0, root0)
    requires Inv(rs, gs, root) && Scanned(rs, i, |rs|, root0, root) && gs.alone == gs0.alone
    requires gs' == if i in root then gs else gs.(alone := gs.alone + [i])
    ensures Inv(rs, gs', root) && Settled(rs, i + 1, gs', root)
  {
    hide Inv, Scanned, Connected, Edge, First;
    FirstsSettled(rs, i, gs0, gs', root0, root);
    AllSettled(rs, i, gs0, gs', root0, root);
    assert forall x | x in gs.alone :: x < i;
    AddAlone(rs, i, gs, root);
  }

  lemma AddAlone(rs: seq<Range>, i: nat, gs: Groups, root: map<nat, nat>)
    requires Inv(rs, gs, root) && forall x | x in gs.alone :: x < i
    ensures Inv(rs, gs.(alone := gs.alone + [i]), root)
  {
    hide Connected;
    forall x | 0 <= x < |gs.alone|
      ensures gs.alone[x] < i
    {
      assert gs.alone[x] in gs.alone;
    }
  }

  lemma AllSettled(rs: seq<Range>, i: nat, gs0: Groups, gs': Groups, root0: map<nat, nat>, root: map<nat, nat>)
    requires i < |rs| && Settled(rs, i, gs0, root0) && Scanned(rs, i, |rs|, root0, root)
    requires gs'.alone == if i in root then gs0.alone else gs0.alone + [i]
    ensures forall x | x in gs'.alone :: x < i + 1
    ensures forall x | x in root :: root[x] < i + 1
    ensures forall x: nat | x < i + 1 :: x in gs'.alone || (x in root && root[x] <= x)
  {
    hide Edge, First;
    forall x: nat | x < i + 1
      ensures x in gs'.alone || (x in root && root[x] <= x)
    {
      if x < i {
        assert x in gs0.alone || (x in root0 && root0[x] <= x);
        assert x in gs0.alone ==> x in gs'.alone;
      } else {
        assert i !in root ==> gs'.alone[|gs0.alone|] == i;
      }
    }
  }

  lemma FirstsSettled(rs: seq<Range>, i: nat, gs0: Groups, gs': Groups, root0: map<nat, nat>, root: map<nat, nat>)
    requires i < |rs| && Settled(rs, i, gs0, root0) && Scanned(rs, i, |rs|, root0, root)
    requires gs'.alone == if i in root then gs0.alone else gs0.alone + [i]
    ensures forall x: nat | x < i + 1 && First(rs, x) :: x in gs'.alone || root[x] == x
    ensures forall x | x in root && i + 1 <= x :: !First(rs, x)
  {
    forall x | x in root && x >= i + 1
      ensures !First(rs, x)
    {
      if x !in root0 { assert Edge(rs, i, x); }
    }
    hide Edge, First;
    forall x: nat | x < i + 1 && First(rs, x)
      ensures x in gs'.alone || root[x] == x
    {
      if x < i {
        assert x in gs0.alone || root0[x] == x;
        assert x in gs0.alone ==> x in gs'.alone;
      } else {
        assert i !in root ==> gs'.alone[|gs0.alone|] == i;
      }
    }
  }

  /** In order, a cursor connected to a processed one is processed itself. */
  lemma ReachedEarlier(rs: seq<Range>, i: nat, y: nat, gs0: Groups, root0: map<nat, nat>)
    requires i < |rs| && Ordered(rs) && Settled(rs, i, gs0, root0) && Complete(rs, i, gs0, root0)
    requires (forall x | x in root0 :: x < |rs| && root0[x] < |rs| && Connected(rs, root0[x], x))
    requires y in root0 && Connected(rs, i, y)
    ensures i in root0
  {
    var g := root0[y];
    ConnectedSym(rs, g, y);
    ConnectedTrans(rs, i, y, g);
    assert !First(rs, i);
    var k: nat :| k < i && Edge(rs, k, i);
  }

  lemma ScanEndInOrder(rs: seq<Range>, i: nat, gs0: Groups, gs: Groups, gs': Groups,
                       root0: map<nat, nat>, root: map<nat, nat>)
    requires i < |rs| && Ordered(rs) && Inv(rs, gs0, root0) && Settled(rs, i, gs0, root0) && Complete(rs, i, gs0, root0)
    requires Inv(rs, gs, root) && Scanned(rs, i, |rs|, root0, root) && gs.alone == gs0.alone
    requires gs' == if i in root then gs else gs.(alone := gs.alone + [i])
    ensures Complete(rs, i + 1, gs', root)
  {
    hide Ordered, Settled, Scanned, Connected, Edge;
    AloneVisited(rs, i, gs0, root0);
    forall y | y in root0 && Connected(rs, i, y)
      ensures i in root0
    {
      ReachedEarlier(rs, i, y, gs0, root0);
    }
    forall y | y in root0 && Edge(rs, i, y)
      ensures i in root0
    {
      ConnectedToScanned(rs, i, y);
    }
    assert forall x | x in root :: x < |rs|;
    hide Inv;
    OneRoot(rs, i, gs0, root0, root);
    EdgesRooted(rs, i, gs0, root0, root);
    AloneIsolated(rs, i, gs0, gs', root0, root);
  }

  lemma AloneVisited(rs: seq<Range>, i: nat, gs: Groups, root: map<nat, nat>)
    requires Settled(rs, i, gs, root)
    ensures forall x | x in gs.alone :: x < i
  {
  }

  lemma EdgesRooted(rs: seq<Range>, i: nat, gs0: Groups, root0: map<nat, nat>, root: map<nat, nat>)
    requires i < |rs| && Complete(rs, i, gs0, root0) && Scanned(rs, i, |rs|, root0, root)
    requires forall y | y in root0 && Edge(rs, i, y) :: i in root0
    ensures forall k: nat, j: nat | k < i + 1 && Edge(rs, k, j) :: k in root && j in root
  {
    hide Connected;
    forall k: nat, j: nat | k < i + 1 && Edge(rs, k, j)
      ensures k in root && j in root
    {
      assert j < |rs|;
      hide Edge;
    }
  }

  lemma AloneIsolated(rs: seq<Range>, i: nat, gs0: Groups, gs': Groups, root0: map<nat, nat>, root: map<nat, nat>)
    requires i < |rs| && Complete(rs, i, gs0, root0) && Scanned(rs, i, |rs|, root0, root)
    requires forall k: nat, j: nat | k < i + 1 && Edge(rs, k, j) :: k in root && j in root
    requires gs'.alone == if i in root then gs0.alone else gs0.alone + [i]
    requires forall x | x in gs0.alone :: x < i
    ensures forall x | x in gs'.alone :: x !in root && forall j: nat :: !Edge(rs, x, j)
  {
    hide Connected;
    assert forall x: nat, j: nat | Edge(rs, x, j) :: Edge(rs, j, x);
    hide Edge;
    forall x | x in gs'.alone
      ensures x !in root && forall j: nat :: !Edge(rs, x, j)
    {
      assert x in gs0.alone || (x == i && i !in root);
      assert Edge(rs, i, x) ==> Edge(rs, x, i);
    }
  }

  lemma OneRoot(rs: seq<Range>, i: nat, gs0: Groups, root0: map<nat, nat>, root: map<nat, nat>)
    requires i < |rs| && Complete(rs, i, gs0, root0) && Scanned(rs, i, |rs|, root0, root)
    requires forall y | y in root0 && Connected(rs, i, y) :: i in root0
    requires forall x | x in root :: x < |rs|
    ensures forall x, y | x in root && y in root && Connected(rs, x, y) :: root[x] == root[y]
  {
    hide Connected, Edge;
    forall x, y | x in root && y in root && Connected(rs, x, y)
      ensures root[x] == root[y]
    {
      ConnectedSym(rs, x, y);
      if x !in root0 {
        ConnectedToScanned(rs, i, x);
        ConnectedTrans(rs, i, x, y);
        NewRoot(rs, i, gs0, root0, root, x, y);
      } else if y !in root0 {
        ConnectedToScanned(rs, i, y);
        ConnectedTrans(rs, i, y, x);
        NewRoot(rs, i, gs0, root0, root, y, x);
      } else {
        assert root0[x] == root0[y];
        assert root[x] == root0[x];
        assert root[y] == root0[y];
      }
    }
  }

  lemma NewRoot(rs: seq<Range>, i: nat, gs0: Groups, root0: map<nat, nat>, root: map<nat, nat>, x: nat, y: nat)
    requires Complete(rs, i, gs0, root0) && Scanned(rs, i, |rs|, root0, root)
    requires x in root && x !in root0 && y in root && Connected(rs, i, y)
    requires y in root0 ==> i in root0
    ensures root[x] == root[y]
  {
    hide Connected, Edge;
    if y in root0 {
      assert root0[i] == root0[y];
    }
  }

  lemma ConnectedToScanned(rs: seq<Range>, i: nat, x: nat)
    requires x == i || Edge(rs, i, x)
    ensures Connected(rs, i, x)
  {
    if x != i { ConnectedEdge(rs, i, i, x); }
  }

  /** In order, the groups are the components. */
  lemma InOrderGivesComponents(rs: seq<Range>, gs: Groups, root: map<nat, nat>)
    requires Inv(rs, gs, root) && Settled(rs, |rs|, gs, root) && Complete(rs, |rs|, gs, root)
    ensures IsComponents(rs, gs)
  {
    GroupIsRoot(rs, gs, root);
    InOrderGivesPartition(rs, gs, root);
    hide IsPartition, InGroup, Edge;
    forall x: nat, y: nat | x in gs.alone && y < |rs| && Connected(rs, x, y)
      ensures x == y
    {
      ConnectedSym(rs, x, y);
      IsolatedConnected(rs, y, x);
    }
    forall g, x: nat, y: nat | InGroup(gs, g, x) && y < |rs|
      ensures InGroup(gs, g, y) <==> Connected(rs, x, y)
    {
      SameGroup(rs, gs, root, x, y);
    }
  }

  lemma OnceKeysFirst(rs: seq<Range>, gs: Groups, root: map<nat, nat>)
    requires Inv(rs, gs, root) && Settled(rs, |rs|, gs, root) && IsPartition(rs, gs)
    ensures KeysFirst(gs)
  {
    hide Connected, Edge, First;
    forall g, x | g in gs.overlapped && x in gs.overlapped[g]
      ensures g < x
    {
      assert InGroup(gs, g, x);
      assert x in root && root[x] == g && x != g && x < |rs| && x !in gs.alone;
    }
  }

  lemma GroupIsRoot(rs: seq<Range>, gs: Groups, root: map<nat, nat>)
    requires Inv(rs, gs, root)
    ensures forall g, x: nat :: InGroup(gs, g, x) <==> x in root && root[x] == g
  {
    hide Connected;
  }

  lemma InOrderGivesPartition(rs: seq<Range>, gs: Groups, root: map<nat, nat>)
    requires Inv(rs, gs, root) && Settled(rs, |rs|, gs, root) && Complete(rs, |rs|, gs, root)
    ensures IsPartition(rs, gs)
  {
    GroupIsRoot(rs, gs, root);
    hide Connected, Edge, InGroup, First;
    forall x: nat
      ensures x in gs.alone || (exists g :: InGroup(gs, g, x)) <==> x < |rs|
    {
      if x in root { assert InGroup(gs, root[x], x); }
    }
  }

  lemma SameGroup(rs: seq<Range>, gs: Groups, root: map<nat, nat>, x: nat, y: nat)
    requires Inv(rs, gs, root) && Settled(rs, |rs|, gs, root) && Complete(rs, |rs|, gs, root)
    requires x in root && y < |rs|
    ensures y in root && root[y] == root[x] <==> Connected(rs, x, y)
  {
    var g := root[x];
    assert g < |rs| && x < |rs| && Connected(rs, g, x);
    ConnectedSym(rs, g, x);
    if y in root && root[y] == g {
      ConnectedTrans(rs, x, g, y);
    }
    if Connected(rs, x, y) && y !in root {
      IsolatedConnected(rs, x, y);
    }
  }

  /** Components are only found if the ranges are in order. */
  lemma ComponentsGiveOrder(rs: seq<Range>, gs: Groups, root: map<nat, nat>)
    requires Inv(rs, gs, root) && Settled(rs, |rs|, gs, root) && IsComponents(rs, gs)
    ensures Ordered(rs)
  {
    GroupIsRoot(rs, gs, root);
    hide Connected, Edge, First, InGroup;
    forall i: nat, j: nat | j < i < |rs| && Connected(rs, i, j)
      ensures !First(rs, i)
    {
      assert i !in gs.alone;
      assert InGroup(gs, root[i], i);
      assert InGroup(gs, root[i], j);
    }
  }

  /** Cursor i is grouped by the end of its own visit, or is left alone. */
  lemma PlacedVisited(rs: seq<Range>, i: nat, gs0: Groups, root0: map<nat, nat>, root: map<nat, nat>)
    requires Placed(rs, i, gs0, root0) && Scanned(rs, i, |rs|, root0, root)
    ensures i in root <==> !LeftAlone(rs, i)
  {
    assert forall j: nat | Edge(rs, i, j) :: Edge(rs, j, i);
    assert Reached(rs, i, i) <==> !First(rs, i);
    hide Edge;
    if i !in root && First(rs, i) {
      forall j: nat | Edge(rs, i, j)
        ensures Reached(rs, i, j)
      {
        assert j in root;
      }
    }
  }

  lemma PlacedGrouped(rs: seq<Range>, i: nat, gs0: Groups, root0: map<nat, nat>, root: map<nat, nat>, x: nat)
    requires Placed(rs, i, gs0, root0) && Scanned(rs, i, |rs|, root0, root)
    ensures x in root <==> Reached(rs, i + 1, x) || (x < i + 1 && !LeftAlone(rs, x))
  {
    PlacedVisited(rs, i, gs0, root0, root);
    assert Reached(rs, i + 1, x) <==> Reached(rs, i, x) || Edge(rs, i, x);
    assert Edge(rs, i, x) ==> x < |rs| && x != i;
    assert Reached(rs, i, i) <==> !First(rs, i);
    hide Edge;
  }

  lemma PlacedNext(rs: seq<Range>, i: nat, gs0: Groups, gs': Groups, root0: map<nat, nat>, root: map<nat, nat>)
    requires i < |rs| && Placed(rs, i, gs0, root0) && Scanned(rs, i, |rs|, root0, root)
    requires gs'.alone == if i in root then gs0.alone else gs0.alone + [i]
    ensures Placed(rs, i + 1, gs', root)
  {
    PlacedVisited(rs, i, gs0, root0, root);
    forall x: nat
      ensures x in root <==> Reached(rs, i + 1, x) || (x < i + 1 && !LeftAlone(rs, x))
    {
      PlacedGrouped(rs, i, gs0, root0, root, x);
    }
    hide Scanned, Reached, LeftAlone;
    assert forall x: nat :: x in gs'.alone <==> x in gs0.alone || (x == i && i !in root);
  }

  lemma PlacedIsGrouped(rs: seq<Range>, gs: Groups, root: map<nat, nat>)
    requires Inv(rs, gs, root) && Placed(rs, |rs|, gs, root) && NoneSingle(gs)
    ensures Grouped(rs, gs)
  {
    GroupIsRoot(rs, gs, root);
    forall x: nat
      ensures (exists g :: InGroup(gs, g, x)) <==> Overlaps(rs, x)
    {
      PlacedOverlaps(rs, gs, root, x);
      if x in root { assert InGroup(gs, root[x], x); }
    }
    hide Connected, LeftAlone, Reached, InGroup, Overlaps;
  }

  lemma PlacedOverlaps(rs: seq<Range>, gs: Groups, root: map<nat, nat>, x: nat)
    requires Placed(rs, |rs|, gs, root)
    ensures x in root <==> Overlaps(rs, x)
  {
    assert forall j: nat | Edge(rs, x, j) :: Edge(rs, j, x) && j < |rs| && x < |rs|;
    assert forall j: nat | Edge(rs, j, x) :: Edge(rs, x, j) && j < |rs|;
    hide Edge;
  }

  /** Out of order, a cursor can be put in two places: the second of these
      ranges is left alone, and later the third takes it into the group of the first. */
  lemma OutOfOrder(gs: Groups)
    requires Grouped([Range(0, 10), Range(20, 30), Range(5, 25)], gs)
    ensures !Ordered([Range(0, 10), Range(20, 30), Range(5, 25)])
    ensures gs.alone == [1] && exists g :: InGroup(gs, g, 0) && InGroup(gs, g, 1) && InGroup(gs, g, 2)
  {
    var rs := [Range(0, 10), Range(20, 30), Range(5, 25)];
    assert Edge(rs, 1, 2) && Edge(rs, 2, 1) && Edge(rs, 2, 0) && Edge(rs, 0, 2) && !Edge(rs, 0, 1);
    ConnectedEdge(rs, 1, 1, 2);
    ConnectedEdge(rs, 1, 2, 0);
    assert First(rs, 1);
    OutOfOrderAlone(gs);
    OutOfOrderGroup(gs);
  }

  lemma OutOfOrderAlone(gs: Groups)
    requires Grouped([Range(0, 10), Range(20, 30), Range(5, 25)], gs)
    ensures gs.alone == [1]
  {
    var rs := [Range(0, 10), Range(20, 30), Range(5, 25)];
    assert Edge(rs, 1, 2) && Edge(rs, 0, 2) && Edge(rs, 2, 0);
    assert !Reached(rs, 0, 2) && !First(rs, 2);
    assert Reached(rs, 1, 2);
    assert LeftAlone(rs, 1) && !LeftAlone(rs, 0) && !LeftAlone(rs, 2);
    hide LeftAlone, Connected, InGroup, Overlaps;
    assert 1 in gs.alone;
    forall k: nat | k < |gs.alone|
      ensures gs.alone[k] == 1
    {
      var x := gs.alone[k];
      assert x in gs.alone;
      assert LeftAlone(rs, x) && (x == 0 || x == 1 || x == 2);
    }
    if |gs.alone| > 1 {
      SecondAlone(rs, gs);
    }
  }

  lemma SecondAlone(rs: seq<Range>, gs: Groups)
    requires Grouped(rs, gs) && |gs.alone| > 1
    ensures gs.alone[0] < gs.alone[1]
  {
    hide LeftAlone, Connected, InGroup, Overlaps;
  }

  lemma OutOfOrderGroup(gs: Groups)
    requires Grouped([Range(0, 10), Range(20, 30), Range(5, 25)], gs)
    ensures exists g :: InGroup(gs, g, 0) && InGroup(gs, g, 1) && InGroup(gs, g, 2)
  {
    var rs := [Range(0, 10), Range(20, 30), Range(5, 25)];
    assert Edge(rs, 1, 2) && Edge(rs, 0, 2) && Edge(rs, 2, 0);
    hide LeftAlone, Connected;
    assert Overlaps(rs, 0) && Overlaps(rs, 1) && Overlaps(rs, 2);
    var g0 :| InGroup(gs, g0, 0);
    var g1 :| InGroup(gs, g1, 1);
    var g2 :| InGroup(gs, g2, 2);
    OneOfThree(rs, gs, g0, g1);
    OneOfThree(rs, gs, g0, g2);
  }

  /** Three cursors make no two groups. */
  lemma OneOfThree(rs: seq<Range>, gs: Groups, g: nat, h: nat)
    requires |rs| == 3 && Grouped(rs, gs) && g in gs.overlapped && h in gs.overlapped
    ensures g == h
  {
    hide LeftAlone, Connected, Overlaps;
    Companion(rs, gs, g);
    Companion(rs, gs, h);
    var x: nat :| x < 3 && x != g && InGroup(gs, g, x);
    var y: nat :| y < 3 && y != h && InGroup(gs, h, y);
    assert InGroup(gs, g, g) && InGroup(gs, h, h);
    assert g < 3 && h < 3;
  }

  /** No group has a single member. */
  lemma Companion(rs: seq<Range>, gs: Groups, g: nat)
    requires Grouped(rs, gs) && g in gs.overlapped
    ensures exists x: nat :: x < |rs| && x != g && InGroup(gs, g, x)
  {
    hide LeftAlone, Connected, Overlaps;
    var x :| x in gs.overlapped[g];
    assert InGroup(gs, g, x);
  }

  lemma Start(rs: seq<Range>)
    ensures Inv(rs, Groups([], map[]), map[]) && Settled(rs, 0, Groups([], map[]), map[])
    ensures Complete(rs, 0, Groups([], map[]), map[]) && Placed(rs, 0, Groups([], map[]), map[])
  {
  }

  method Group(rs: seq<Range>) returns (gs: Groups)
    ensures IsComponents(rs, gs) <==> Ordered(rs)
    ensures Grouped(rs, gs) && NoneSingle(gs)
    ensures NoneTwice(rs) ==> KeysFirst(gs)
  {
    var processed: set<nat> := {};
    ghost var root: map<nat, nat> := map[];
    gs := Groups([], map[]);
    hide Inv, Settled, Complete, Scanned, Placed, Ordered, IsComponents, Grouped, NoneTwice, IsPartition, KeysFirst;
    Start(rs);
    for i := 0 to |rs|
      invariant processed == root.Keys && NoneSingle(gs)
      invariant Inv(rs, gs, root) && Settled(rs, i, gs, root) && Placed(rs, i, gs, root)
      invariant Ordered(rs) ==> Complete(rs, i, gs, root)
    {
      ghost var root0, gs0 := root, gs;
      ScanStart(rs, i, root);
      var haveOverlap := false;
      for j := 0 to |rs|
        invariant processed == root.Keys && Inv(rs, gs, root) && Scanned(rs, i, j, root0, root)
        invariant gs.alone == gs0.alone && (haveOverlap ==> i in root) && NoneSingle(gs)
      {
        if i != j && Intersects(rs[i], rs[j]) && j !in processed {
          assert Edge(rs, i, j);
          processed := processed + {i, j};
          if g :| g in gs.overlapped && i in gs.overlapped[g] {
            JoinGroup(rs, i, j, g, gs, root);
            ScanJoin(rs, i, j, root0, root);
            gs := gs.(overlapped := gs.overlapped[g := gs.overlapped[g] + {j}]);
            root := root[j := g];
          } else {
            if i !in gs.overlapped {
              assert i !in root by { if i in root { RootedIsMember(rs, i, gs, root); } }
              NewKey(rs, i, gs, root);
              ScanOpen(rs, i, j, root0, root);
              gs := gs.(overlapped := gs.overlapped[i := {}]);
              root := root[i := i];
            }
            JoinKey(rs, i, j, gs, root);
            ScanJoin(rs, i, j, root0, root);
            gs := gs.(overlapped := gs.overlapped[i := gs.overlapped[i] + {j}]);
            root := root[j := i];
          }
          haveOverlap := true;
        } else {
          ScanSkip(rs, i, j, root0, root);
        }
      }
      ghost var gs1 := gs;
      if i !in processed && !haveOverlap {
        gs := gs.(alone := gs.alone + [i]);
      }
      ScanEnd(rs, i, gs0, gs1, gs, root0, root);
      PlacedNext(rs, i, gs0, gs, root0, root);
      if Ordered(rs) {
        ScanEndInOrder(rs, i, gs0, gs1, gs, root0, root);
      }
    }
    PlacedIsGrouped(rs, gs, root);
    GroupedOnce(rs, gs);
    if NoneTwice(rs) {
      OnceKeysFirst(rs, gs, root);
    }
    if Ordered(rs) {
      InOrderGivesComponents(rs, gs, root);
    } else if IsComponents(rs, gs) {
      ComponentsGiveOrder(rs, gs, root);
    }
  }
}
