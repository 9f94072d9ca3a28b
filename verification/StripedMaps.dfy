/** The chained hash map behind the striped locks, as one thread sees it.
    The shape of the linked chains is reasoned about on a snapshot of the
    `next` pointers, a map from nodes to their successors. */
module StripedMaps {
  import opened Measurements

  /** The bucket, or the lock, of a hash value. */
  function Slot(hash: nat, n: nat): (i: nat)
    requires n > 0
    ensures i < n
  {
    hash % n
  }

  predicate Divides(l: nat, n: nat)
    requires l > 0
  {
    n % l == 0
  }

  /** Keys are measurement ids. */
  type Key = nat

  class Node<D> {
    const hash: nat
    const key: Key
    var data: D
    var next: Node?<D>

    constructor (hash: nat, key: Key, data: D)
      ensures this.hash == hash && this.key == key && this.data == data && next == null
    {
      this.hash, this.key, this.data, next := hash, key, data, null;
    }
  }

  type Links<!D> = map<Node<D>, Node?<D>>

  // ------------------------------------------------------------------- chains

  /** Distinct keys, ascending after the first. */
  ghost predicate Sorted<D>(c: seq<Node<D>>) {
    && (forall j, k | 0 <= j < k < |c| :: c[j].key != c[k].key)
    && (forall j, k | 1 <= j < k < |c| :: c[j].key < c[k].key)
  }

  ghost function NextIn<D>(c: seq<Node<D>>, j: nat): Node?<D>
    requires j < |c|
  {
    if j + 1 < |c| then c[j + 1] else null
  }

  ghost function HeadOf<D>(c: seq<Node<D>>): Node?<D> {
    if c == [] then null else c[0]
  }

  /** The pointers run through c. */
  ghost predicate Linked<D>(c: seq<Node<D>>, links: Links<D>) {
    forall j | 0 <= j < |c| :: c[j] in links && links[c[j]] == NextIn(c, j)
  }

  /** Position p is where a chain takes a new key: after the head, after
      everything smaller, before everything greater. */
  ghost predicate Fits<D>(c: seq<Node<D>>, key: Key, p: nat) {
    && (if c == [] then p == 0 else 1 <= p <= |c|)
    && (forall j | 1 <= j < p :: c[j].key <= key)
    && (p < |c| ==> key < c[p].key)
  }

  ghost predicate KeyFree<D>(c: seq<Node<D>>, key: Key) {
    forall j | 0 <= j < |c| :: c[j].key != key
  }

  ghost function Spliced<D>(c: seq<Node<D>>, p: nat, s: Node<D>): seq<Node<D>>
    requires p <= |c|
  {
    c[..p] + [s] + c[p..]
  }

  /** Stopping early never misses the key: a fitting place in a sorted chain,
      with the key not among the nodes before it, means it is nowhere. */
  lemma EarlyStop<D>(c: seq<Node<D>>, key: Key, p: nat)
    requires Sorted(c) && Fits(c, key, p) && KeyFree(c[..p], key)
    ensures KeyFree(c, key)
  {
    forall j | 0 <= j < |c|
      ensures c[j].key != key
    {
      if j < p {
        assert c[..p][j].key != key;
      } else {
        assert p < j ==> c[p].key < c[j].key;
      }
    }
  }

  lemma SplicedSorted<D>(c: seq<Node<D>>, p: nat, s: Node<D>)
    requires Sorted(c) && p <= |c| && Fits(c, s.key, p) && KeyFree(c, s.key)
    ensures Sorted(Spliced(c, p, s))
  {
    var d := Spliced(c, p, s);
    forall j, k | 0 <= j < k < |d|
      ensures d[j].key != d[k].key && (1 <= j ==> d[j].key < d[k].key)
    {
      var j', k' := if j < p then j else j - 1, if k < p then k else k - 1;
      if j == p {
        assert d[k] == c[k'];
        assert p < k' ==> c[p].key < c[k'].key;
      } else if k == p {
        assert d[j] == c[j];
      } else {
        assert d[j] == c[j'] && d[k] == c[k'];
      }
    }
  }

  /** The pointers after s has been linked in behind position p - 1. */
  ghost function SplicedLinks<D>(c: seq<Node<D>>, p: nat, s: Node<D>, links: Links<D>): Links<D>
    requires p <= |c|
  {
    var after := if p < |c| then c[p] else null;
    if p == 0 then links[s := after] else links[s := after][c[p - 1] := s]
  }

  lemma SplicedLinked<D>(c: seq<Node<D>>, p: nat, s: Node<D>, links: Links<D>)
    requires p <= |c| && (p == 0 ==> c == []) && Linked(c, links) && Sorted(c) && KeyFree(c, s.key)
    ensures Linked(Spliced(c, p, s), SplicedLinks(c, p, s, links))
  {
    var d, links' := Spliced(c, p, s), SplicedLinks(c, p, s, links);
    assert forall j | 0 <= j < |c| :: c[j] != s && (j != p - 1 && p > 0 ==> c[j] != c[p - 1]);
    hide Sorted;
    forall j | 0 <= j < |c|
      ensures c[j] in links' && links'[c[j]] == if j == p - 1 then s else NextIn(c, j)
    {
    }
    assert s in links' && links'[s] == if p < |c| then c[p] else null;
    hide SplicedLinks;
    forall j | 0 <= j < |d|
      ensures d[j] in links' && links'[d[j]] == NextIn(d, j)
    {
      SplicedNext(c, p, s, j);
    }
  }

  lemma SplicedNext<D>(c: seq<Node<D>>, p: nat, s: Node<D>, j: nat)
    requires p <= |c| && j <= |c| && (p == 0 ==> c == [])
    ensures var d := Spliced(c, p, s);
            && (j < p ==> d[j] == c[j] && NextIn(d, j) == if j == p - 1 then s else NextIn(c, j))
            && (j == p ==> d[j] == s && NextIn(d, j) == if p < |c| then c[p] else null)
            && (j > p ==> d[j] == c[j - 1] && NextIn(d, j) == NextIn(c, j - 1))
  {
  }

  // ------------------------------------------------------------------- tables

  /** Node n is the node of its key and belongs in bucket i of N. */
  ghost predicate Placed<D>(n: Node<D>, i: nat, N: nat, nodes: map<Key, Node<D>>, hasher: Key -> nat)
    requires N > 0
  {
    n.key in nodes && nodes[n.key] == n && n.hash == hasher(n.key) && Slot(n.hash, N) == i
  }

  ghost predicate AllPlaced<D>(c: seq<Node<D>>, i: nat, N: nat, nodes: map<Key, Node<D>>, hasher: Key -> nat)
    requires N > 0
  {
    forall j | 0 <= j < |c| :: Placed(c[j], i, N, nodes, hasher)
  }

  ghost predicate ChainOk<D>(head: Node?<D>, c: seq<Node<D>>, i: nat, N: nat, nodes: map<Key, Node<D>>,
                             hasher: Key -> nat, links: Links<D>)
    requires N > 0
  {
    head == HeadOf(c) && AllPlaced(c, i, N, nodes, hasher) && Linked(c, links) && Sorted(c)
  }

  /** Every bucket holds a proper chain. */
  ghost predicate Table<D>(bk: seq<Node?<D>>, ch: seq<seq<Node<D>>>, nodes: map<Key, Node<D>>,
                           hasher: Key -> nat, links: Links<D>) {
    |bk| == |ch| > 0 && forall i | 0 <= i < |ch| :: ChainOk(bk[i], ch[i], i, |ch|, nodes, hasher, links)
  }

  /** Every key's node is in the chain of its bucket. */
  ghost predicate Covered<D>(ch: seq<seq<Node<D>>>, nodes: map<Key, Node<D>>, hasher: Key -> nat) {
    |ch| > 0 && forall k | k in nodes :: nodes[k].key == k && nodes[k] in ch[Slot(hasher(k), |ch|)]
  }

  /** Linking s into bucket b keeps every chain proper. */
  lemma SpliceTable<D>(bk: seq<Node?<D>>, ch: seq<seq<Node<D>>>, nodes: map<Key, Node<D>>, nodes': map<Key, Node<D>>,
                       hasher: Key -> nat, links: Links<D>, b: nat, p: nat, s: Node<D>)
    requires Table(bk, ch, nodes, hasher, links) && b < |ch| && p <= |ch[b]|
    requires Fits(ch[b], s.key, p) && KeyFree(ch[b], s.key) && Placed(s, b, |ch|, nodes', hasher)
    requires forall i, j | 0 <= i < |ch| && 0 <= j < |ch[i]| :: ch[i][j] != s
    requires forall k | k in nodes && k != s.key :: k in nodes' && nodes'[k] == nodes[k]
    ensures var c' := Spliced(ch[b], p, s);
            Table(bk[b := HeadOf(c')], ch[b := c'], nodes', hasher, SplicedLinks(ch[b], p, s, links))
  {
    var c, links' := ch[b], SplicedLinks(ch[b], p, s, links);
    assert ChainOk(bk[b], c, b, |ch|, nodes, hasher, links);
    SplicedSorted(c, p, s);
    SplicedLinked(c, p, s, links);
    SplicedPlaced(c, p, s, b, |ch|, nodes, nodes', hasher);
    forall i | 0 <= i < |ch| && i != b
      ensures ChainOk(bk[i], ch[i], i, |ch|, nodes', hasher, links')
    {
      assert ChainOk(bk[i], ch[i], i, |ch|, nodes, hasher, links);
      OtherChain(c, ch[i], p, s, b, i, |ch|, nodes, nodes', hasher, links);
    }
    hide Fits, Sorted, Spliced, Linked, AllPlaced, SplicedLinks;
  }

  lemma SplicedPlaced<D>(c: seq<Node<D>>, p: nat, s: Node<D>, b: nat, N: nat, nodes: map<Key, Node<D>>,
                         nodes': map<Key, Node<D>>, hasher: Key -> nat)
    requires p <= |c| && N > 0 && AllPlaced(c, b, N, nodes, hasher) && Placed(s, b, N, nodes', hasher)
             && KeyFree(c, s.key)
    requires forall k | k in nodes && k != s.key :: k in nodes' && nodes'[k] == nodes[k]
    ensures AllPlaced(Spliced(c, p, s), b, N, nodes', hasher)
  {
    hide Slot;
  }

  lemma OtherChain<D>(c: seq<Node<D>>, d: seq<Node<D>>, p: nat, s: Node<D>, b: nat, i: nat, N: nat,
                      nodes: map<Key, Node<D>>, nodes': map<Key, Node<D>>, hasher: Key -> nat, links: Links<D>)
    requires p <= |c| && N > 0 && b != i && AllPlaced(c, b, N, nodes, hasher) && AllPlaced(d, i, N, nodes, hasher)
    requires Placed(s, b, N, nodes', hasher) && Linked(d, links) && forall j | 0 <= j < |d| :: d[j] != s
    requires forall k | k in nodes && k != s.key :: k in nodes' && nodes'[k] == nodes[k]
    ensures AllPlaced(d, i, N, nodes', hasher) && Linked(d, SplicedLinks(c, p, s, links))
  {
    hide Slot;
    forall j | 0 <= j < |d|
      ensures d[j].key != s.key && (p > 0 ==> d[j] != c[p - 1])
    {
      assert Placed(d[j], i, N, nodes, hasher);
      assert p > 0 ==> Placed(c[p - 1], b, N, nodes, hasher);
    }
  }

  lemma SpliceCovers<D>(ch: seq<seq<Node<D>>>, nodes: map<Key, Node<D>>, hasher: Key -> nat, b: nat, p: nat, s: Node<D>)
    requires Covered(ch, nodes, hasher) && b < |ch| && p <= |ch[b]| && b == Slot(hasher(s.key), |ch|)
    ensures Covered(ch[b := Spliced(ch[b], p, s)], nodes[s.key := s], hasher)
  {
    hide Slot;
    forall x | x in ch[b] || x == s
      ensures x in Spliced(ch[b], p, s)
    {
      SplicedKeeps(ch[b], p, s, x);
    }
    hide Spliced;
  }

  lemma SplicedKeeps<D>(c: seq<Node<D>>, p: nat, s: Node<D>, x: Node<D>)
    requires p <= |c|
    ensures x in Spliced(c, p, s) <==> x in c || x == s
  {
    var d := Spliced(c, p, s);
    if x in c {
      var j :| 0 <= j < |c| && c[j] == x;
      assert d[if j < p then j else j + 1] == x;
    }
    assert d[p] == s;
  }

  lemma ChainInLinks<D>(bk: seq<Node?<D>>, ch: seq<seq<Node<D>>>, nodes: map<Key, Node<D>>, hasher: Key -> nat,
                        links: Links<D>)
    requires Table(bk, ch, nodes, hasher, links)
    ensures forall i, j | 0 <= i < |ch| && 0 <= j < |ch[i]| :: ch[i][j] in links
  {
    forall i, j | 0 <= i < |ch| && 0 <= j < |ch[i]|
      ensures ch[i][j] in links
    {
      assert ChainOk(bk[i], ch[i], i, |ch|, nodes, hasher, links);
    }
  }

  lemma NewPlaced<D>(n: Node<D>, b: nat, N: nat, nodes: map<Key, Node<D>>, hasher: Key -> nat)
    requires N > 0 && n.hash == hasher(n.key) && b == Slot(hasher(n.key), N)
    ensures Placed(n, b, N, nodes[n.key := n], hasher)
  {
  }

  lemma SplicedKeys<D>(c: seq<Node<D>>, p: nat, s: Node<D>, links: Links<D>)
    requires p <= |c| && forall j | 0 <= j < |c| :: c[j] in links
    ensures SplicedLinks(c, p, s, links).Keys == links.Keys + {s}
  {
  }

  /** The whole table is in order: proper chains, every key's node in its
      chain, every node in the snapshot. */
  ghost predicate Sound<D>(bk: seq<Node?<D>>, ch: seq<seq<Node<D>>>, nodes: map<Key, Node<D>>,
                           hasher: Key -> nat, links: Links<D>) {
    Table(bk, ch, nodes, hasher, links) && Covered(ch, nodes, hasher) && forall k | k in nodes :: nodes[k] in links
  }

  lemma SpliceSound<D>(bk: seq<Node?<D>>, ch: seq<seq<Node<D>>>, nodes: map<Key, Node<D>>, hasher: Key -> nat,
                       links: Links<D>, b: nat, p: nat, n: Node<D>)
    requires Sound(bk, ch, nodes, hasher, links) && n !in links && n.key !in nodes && n.hash == hasher(n.key)
    requires b < |ch| && b == Slot(hasher(n.key), |ch|) && p <= |ch[b]| && Fits(ch[b], n.key, p)
             && KeyFree(ch[b], n.key)
    ensures var c' := Spliced(ch[b], p, n);
            Sound(bk[b := HeadOf(c')], ch[b := c'], nodes[n.key := n], hasher, SplicedLinks(ch[b], p, n, links))
    ensures SplicedLinks(ch[b], p, n, links).Keys == links.Keys + {n}
  {
    hide Slot, Fits, KeyFree, Table, ChainOk, Covered, Linked, SplicedLinks, Spliced, Placed, AllPlaced, Sorted, HeadOf;
    ChainInLinks(bk, ch, nodes, hasher, links);
    NewPlaced(n, b, |ch|, nodes, hasher);
    SpliceTable(bk, ch, nodes, nodes[n.key := n], hasher, links, b, p, n);
    SpliceCovers(ch, nodes, hasher, b, p, n);
    SplicedKeys(ch[b], p, n, links);
    forall k | k in nodes || k == n.key
      ensures nodes[n.key := n][k] in SplicedLinks(ch[b], p, n, links)
    {
      assert nodes[n.key := n][k] in links.Keys + {n};
    }
  }

  lemma SoundChain<D>(bk: seq<Node?<D>>, ch: seq<seq<Node<D>>>, nodes: map<Key, Node<D>>, hasher: Key -> nat,
                      links: Links<D>, b: nat)
    requires Sound(bk, ch, nodes, hasher, links) && b < |ch|
    ensures |bk| == |ch| && bk[b] == HeadOf(ch[b]) && Linked(ch[b], links) && Sorted(ch[b])
    ensures AllPlaced(ch[b], b, |ch|, nodes, hasher)
  {
    assert ChainOk(bk[b], ch[b], b, |ch|, nodes, hasher, links);
  }

  lemma SoundOwn<D>(bk: seq<Node?<D>>, ch: seq<seq<Node<D>>>, nodes: map<Key, Node<D>>, hasher: Key -> nat,
                    links: Links<D>)
    requires Sound(bk, ch, nodes, hasher, links)
    ensures forall k | k in nodes :: nodes[k].key == k && nodes[k] in links
  {
    hide Slot;
  }

  lemma PlacedAt<D>(c: seq<Node<D>>, i: nat, N: nat, nodes: map<Key, Node<D>>, hasher: Key -> nat, links: Links<D>,
                    j: nat)
    requires N > 0 && AllPlaced(c, i, N, nodes, hasher) && Linked(c, links) && j < |c|
    ensures hasher(c[j].key) % N == i && c[j] in links && links[c[j]] == NextIn(c, j)
  {
    assert Placed(c[j], i, N, nodes, hasher);
  }

  /** A node found in a chain is the node of its key; a key free in its chain is new. */
  lemma SoundKeys<D>(bk: seq<Node?<D>>, ch: seq<seq<Node<D>>>, nodes: map<Key, Node<D>>, hasher: Key -> nat,
                     links: Links<D>, b: nat, k: Key, found: Node?<D>)
    requires Sound(bk, ch, nodes, hasher, links) && b < |ch| && b == Slot(hasher(k), |ch|)
    ensures found != null && found in ch[b] && found.key == k ==> k in nodes && nodes[k] == found
    ensures KeyFree(ch[b], k) ==> k !in nodes
  {
    hide Slot;
    SoundChain(bk, ch, nodes, hasher, links, b);
  }

  // ---------------------------------------------------------------- the object

  /** The snapshot agrees with the pointers in memory. */
  ghost predicate Mirrors<D>(links: Links<D>)
    reads links.Keys`next
  {
    forall n | n in links :: n.next == links[n]
  }

  /** The pointer writes that put s behind t, or at the head of bucket b. */
  method LinkAfter<D>(bk: array<Node?<D>>, b: nat, ghost c: seq<Node<D>>, p: nat, t: Node?<D>, s: Node<D>,
                      ghost links: Links<D>)
    requires b < bk.Length && p <= |c| && Linked(c, links) && Mirrors(links) && bk[b] == HeadOf(c)
    requires if p == 0 then c == [] && t == null else t == c[p - 1]
    requires s !in links
    modifies bk, s`next, links.Keys`next
    ensures Mirrors(SplicedLinks(c, p, s, links))
    ensures bk[..] == old(bk[..])[b := HeadOf(Spliced(c, p, s))]
  {
    if t == null {
      s.next := null;
      bk[b] := s;
    } else {
      assert links[c[p - 1]] == NextIn(c, p - 1);
      s.next := t.next;
      t.next := s;
      assert Spliced(c, p, s)[0] == c[0];
    }
  }

  // ------------------------------------------------------------------ rehash

  /** Walks a chain that lacks the key to the place where the key goes. */
  method Seat<D>(bk: array<Node?<D>>, b: nat, key: Key, ghost c: seq<Node<D>>, ghost links: Links<D>)
    returns (p: nat, t: Node?<D>)
    requires b < bk.Length && bk[b] == HeadOf(c) && Linked(c, links) && Mirrors(links)
    ensures p <= |c| && Fits(c, key, p) && if p == 0 then c == [] && t == null else t == c[p - 1]
  {
    if bk[b] == null {
      return 0, null;
    }
    p, t := 1, bk[b];
    while true
      invariant 1 <= p <= |c| && t == c[p - 1]
      invariant forall j | 1 <= j < p :: c[j].key <= key
      decreases |c| - p
    {
      assert c[p - 1] in links && links[c[p - 1]] == NextIn(c, p - 1);
      if t.next != null && t.next.key > key {
        break;
      }
      if t.next == null {
        break;
      }
      p, t := p + 1, t.next;
    }
  }

  lemma SoundFree<D>(bk: seq<Node?<D>>, ch: seq<seq<Node<D>>>, nodes: map<Key, Node<D>>, hasher: Key -> nat,
                     links: Links<D>, b: nat, k: Key)
    requires Sound(bk, ch, nodes, hasher, links) && b < |ch| && k !in nodes
    ensures KeyFree(ch[b], k)
  {
    hide Slot;
    SoundChain(bk, ch, nodes, hasher, links, b);
    forall j | 0 <= j < |ch[b]|
      ensures ch[b][j].key != k
    {
      assert Placed(ch[b][j], b, |ch|, nodes, hasher);
    }
  }

  /** Links a detached node into the new table. */
  method MoveNode<D>(s: Node<D>, bk: array<Node?<D>>, ghost ch: seq<seq<Node<D>>>, ghost done: map<Key, Node<D>>,
                     ghost hasher: Key -> nat, ghost links: Links<D>)
    returns (ghost ch': seq<seq<Node<D>>>, ghost links': Links<D>)
    requires bk.Length == |ch| > 0 && Sound(bk[..], ch, done, hasher, links) && Mirrors(links)
    requires s !in links && s.key !in done && s.hash == hasher(s.key)
    modifies bk, s`next, links.Keys`next
    ensures |ch'| == |ch| && Sound(bk[..], ch', done[s.key := s], hasher, links') && Mirrors(links')
    ensures links'.Keys == links.Keys + {s}
  {
    hide Slot, Fits, KeyFree, Sound, Linked, SplicedLinks, Spliced, Mirrors, HeadOf, Sorted, AllPlaced;
    var b := Slot(s.hash, bk.Length);
    SoundChain(bk[..], ch, done, hasher, links, b);
    SoundFree(bk[..], ch, done, hasher, links, b, s.key);
    var p, t := Seat(bk, b, s.key, ch[b], links);
    SpliceSound(bk[..], ch, done, hasher, links, b, p, s);
    ch', links' := ch[b := Spliced(ch[b], p, s)], SplicedLinks(ch[b], p, s, links);
    LinkAfter(bk, b, ch[b], p, t, s, links);
  }

  /** The nodes moved so far are those before position j of bucket i. */
  ghost predicate MovedTo<D>(ch: seq<seq<Node<D>>>, i: nat, j: nat, moved: set<Node<D>>) {
    forall x, y | 0 <= x < |ch| && 0 <= y < |ch[x]| :: ch[x][y] in moved <==> x < i || (x == i && y < j)
  }

  lemma MovedOne<D>(bk: seq<Node?<D>>, ch: seq<seq<Node<D>>>, nodes: map<Key, Node<D>>, hasher: Key -> nat,
                    links: Links<D>, i: nat, j: nat, moved: set<Node<D>>)
    requires Sound(bk, ch, nodes, hasher, links) && i < |ch| && j < |ch[i]| && MovedTo(ch, i, j, moved)
    ensures MovedTo(ch, i, j + 1, moved + {ch[i][j]})
  {
    hide Slot;
    forall x, y | 0 <= x < |ch| && 0 <= y < |ch[x]| && ch[x][y] == ch[i][j]
      ensures x == i && y == j
    {
      hide Sound;
      SoundChain(bk, ch, nodes, hasher, links, x);
      SoundChain(bk, ch, nodes, hasher, links, i);
      assert Placed(ch[x][y], x, |ch|, nodes, hasher);
      assert Placed(ch[i][j], i, |ch|, nodes, hasher);
    }
    hide Sound;
  }

  /** Part way through a rehash: the moved nodes form a sound new table, the
      others still have their old successors. */
  ghost predicate Carrying<D>(bk: array<Node?<D>>, ch: seq<seq<Node<D>>>, done: map<Key, Node<D>>,
                              nodes: map<Key, Node<D>>,
                              hasher: Key -> nat, links': Links<D>, links: Links<D>)
    reads bk, links'.Keys, links.Keys
  {
    && bk.Length == |ch| > 0 && Sound(bk[..], ch, done, hasher, links') && Mirrors(links')
    && links'.Keys <= links.Keys && (forall n | n in links && n !in links' :: n.next == links[n])
    && (forall n | n in links' :: n.key in done && done[n.key] == n)
    && (forall k | k in done :: k in nodes && nodes[k] == done[k])
  }

  /** Detaches one node of the old table and links it into the new one. */
  method CarryNode<D>(s: Node<D>, bk: array<Node?<D>>, ghost ch: seq<seq<Node<D>>>, ghost done: map<Key, Node<D>>,
                      ghost nodes: map<Key, Node<D>>, ghost hasher: Key -> nat, ghost links': Links<D>,
                      ghost links: Links<D>)
    returns (ghost ch': seq<seq<Node<D>>>, ghost links'': Links<D>)
    requires Carrying(bk, ch, done, nodes, hasher, links', links)
    requires s in links && s !in links' && s.hash == hasher(s.key) && s.key in nodes && nodes[s.key] == s
    modifies bk, links.Keys`next
    ensures |ch'| == |ch| && Carrying(bk, ch', done[s.key := s], nodes, hasher, links'', links)
    ensures links''.Keys == links'.Keys + {s}
  {
    hide Sound, Mirrors;
    assert s.key !in done by {
      SoundOwn(bk[..], ch, done, hasher, links');
    }
    s.next := null;
    ch', links'' := MoveNode(s, bk, ch, done, hasher, links');
  }

  /** Moves every node of old bucket i. */
  method CarryChain<D>(head: Node?<D>, i: nat, bk: array<Node?<D>>, ghost was: seq<Node?<D>>,
                       ghost chains: seq<seq<Node<D>>>,
                       ghost ch: seq<seq<Node<D>>>, ghost done: map<Key, Node<D>>, ghost nodes: map<Key, Node<D>>,
                       ghost hasher: Key -> nat, ghost links': Links<D>, ghost links: Links<D>)
    returns (ghost ch': seq<seq<Node<D>>>, ghost done': map<Key, Node<D>>, ghost links'': Links<D>)
    requires Sound(was, chains, nodes, hasher, links) && i < |chains| && head == HeadOf(chains[i])
    requires Carrying(bk, ch, done, nodes, hasher, links', links) && MovedTo(chains, i, 0, links'.Keys)
    modifies bk, links.Keys`next
    ensures |ch'| == |ch| && Carrying(bk, ch', done', nodes, hasher, links'', links)
            && MovedTo(chains, i + 1, 0, links''.Keys)
  {
    hide Sound, Carrying, MovedTo, Sorted, Slot, AllPlaced;
    ch', done', links'' := ch, done, links';
    ghost var c, j := chains[i], 0;
    SoundChain(was, chains, nodes, hasher, links, i);
    var iter := head;
    while iter != null
      invariant 0 <= j <= |c| && iter == (if j < |c| then c[j] else null) && |ch'| == |ch|
      invariant Carrying(bk, ch', done', nodes, hasher, links'', links) && MovedTo(chains, i, j, links''.Keys)
      decreases |c| - j
    {
      MovedAt(chains, i, j, links''.Keys);
      SoundNode(was, chains, nodes, hasher, links, i, j);
      CarryingNext(bk, ch', done', nodes, hasher, links'', links, iter);
      var next := iter.next;
      MovedOne(was, chains, nodes, hasher, links, i, j, links''.Keys);
      ch', links'' := CarryNode(iter, bk, ch', done', nodes, hasher, links'', links);
      done', j, iter := done'[iter.key := iter], j + 1, next;
    }
    MovedRow(chains, i, links''.Keys);
  }

  lemma SoundNode<D>(bk: seq<Node?<D>>, ch: seq<seq<Node<D>>>, nodes: map<Key, Node<D>>, hasher: Key -> nat,
                     links: Links<D>, i: nat, j: nat)
    requires Sound(bk, ch, nodes, hasher, links) && i < |ch| && j < |ch[i]|
    ensures var n := ch[i][j]; n in links && n.hash == hasher(n.key) && n.key in nodes && nodes[n.key] == n
    ensures links[ch[i][j]] == NextIn(ch[i], j)
  {
    hide Slot;
    SoundChain(bk, ch, nodes, hasher, links, i);
    assert Placed(ch[i][j], i, |ch|, nodes, hasher);
  }

  lemma MovedAt<D>(ch: seq<seq<Node<D>>>, i: nat, j: nat, moved: set<Node<D>>)
    requires i < |ch| && j < |ch[i]| && MovedTo(ch, i, j, moved)
    ensures ch[i][j] !in moved
  {
  }

  lemma MovedRow<D>(ch: seq<seq<Node<D>>>, i: nat, moved: set<Node<D>>)
    requires i < |ch| && MovedTo(ch, i, |ch[i]|, moved)
    ensures MovedTo(ch, i + 1, 0, moved)
  {
  }

  lemma CarryingNext<D>(bk: array<Node?<D>>, ch: seq<seq<Node<D>>>, done: map<Key, Node<D>>, nodes: map<Key, Node<D>>,
                        hasher: Key -> nat, links': Links<D>, links: Links<D>, n: Node<D>)
    requires Carrying(bk, ch, done, nodes, hasher, links', links) && n in links && n !in links'
    ensures n.next == links[n]
  {
  }

  /** When everything has moved, the new table holds exactly the old nodes. */
  lemma AllCarried<D>(bk: array<Node?<D>>, ch: seq<seq<Node<D>>>, done: map<Key, Node<D>>, nodes: map<Key, Node<D>>,
                      hasher: Key -> nat, links': Links<D>, links: Links<D>, was: seq<Node?<D>>,
                      chains: seq<seq<Node<D>>>)
    requires Carrying(bk, ch, done, nodes, hasher, links', links) && Sound(was, chains, nodes, hasher, links)
    requires MovedTo(chains, |chains|, 0, links'.Keys)
    ensures done == nodes && Sound(bk[..], ch, nodes, hasher, links') && Mirrors(links') && links'.Keys <= links.Keys
  {
    hide Slot, Table;
    forall k | k in nodes
      ensures k in done
    {
      var i := Slot(hasher(k), |chains|);
      assert nodes[k] in chains[i];
      var j :| 0 <= j < |chains[i]| && chains[i][j] == nodes[k];
      assert chains[i][j] in links'.Keys;
    }
    SameMap(done, nodes);
  }

  lemma SameMap<V>(a: map<Key, V>, b: map<Key, V>)
    requires forall k | k in a :: k in b && a[k] == b[k]
    requires forall k | k in b :: k in a
    ensures a == b
  {
  }

  lemma CarryingNone<D>(bk: array<Node?<D>>, ch: seq<seq<Node<D>>>, nodes: map<Key, Node<D>>, hasher: Key -> nat,
                        links: Links<D>, chains: seq<seq<Node<D>>>)
    requires bk.Length == |ch| > 0 && Mirrors(links) && forall i | 0 <= i < |ch| :: bk[i] == null && ch[i] == []
    ensures Carrying(bk, ch, map[], nodes, hasher, map[], links) && MovedTo(chains, 0, 0, {})
  {
  }

  lemma DividesDouble(l: nat, n: nat)
    requires l > 0 && Divides(l, n)
    ensures Divides(l, 2 * n)
  {
    var q := n / l;
    assert n == l * q;
    assert 2 * n == l * (2 * q);
    Remainder(2 * n, l, 2 * q, 0);
  }

  method Search<D>(bk: array<Node?<D>>, b: nat, key: Key, ghost c: seq<Node<D>>, ghost links: Links<D>)
    returns (n: Node?<D>)
    requires b < bk.Length && bk[b] == HeadOf(c) && Linked(c, links) && Mirrors(links)
    ensures if n == null then KeyFree(c, key) else n in c && n.key == key
  {
    n := bk[b];
    ghost var j := 0;
    while n != null
      invariant 0 <= j <= |c| && n == (if j < |c| then c[j] else null)
      invariant forall i | 0 <= i < j :: c[i].key != key
      decreases |c| - j
    {
      if n.key == key {
        return;
      }
      assert c[j] in links && links[c[j]] == NextIn(c, j);
      n, j := n.next, j + 1;
    }
  }

  class StripedMap<D> {
    const hasher: Key -> nat
    const initial: D
    const L: nat
    var N: nat
    var size: nat
    var buckets: array<Node?<D>>
    ghost var chains: seq<seq<Node<D>>>
    ghost var nodes: map<Key, Node<D>>
    ghost var links: Links<D>

    ghost predicate Valid()
      reads this, buckets, links.Keys
    {
      && 0 < N == buckets.Length == |chains| && 0 < L && Divides(L, N)
      && Sound(buckets[..], chains, nodes, hasher, links) && Mirrors(links) && size == |nodes|
    }

    /** The abstract map. */
    ghost function Contents(): map<Key, D>
      requires Valid()
      reads this, buckets, links.Keys
    {
      map k | k in nodes :: nodes[k].data
    }

    constructor (n: nat, hasher: Key -> nat, initial: D)
      requires n > 0
      ensures Valid() && Contents() == map[] && N == L == n && fresh(buckets) && fresh(links.Keys)
      ensures this.hasher == hasher && this.initial == initial
    {
      this.hasher, this.initial := hasher, initial;
      L, N, size := n, n, 0;
      buckets := new Node?<D>[n](_ => null);
      chains := seq(n, _ => []);
      nodes, links := map[], map[];
    }

    method Find(k: Key) returns (found: bool, value: D)
      requires Valid()
      ensures found <==> k in Contents()
      ensures found ==> value == Contents()[k]
    {
      hide Slot, Divides, Sorted, Sound, AllPlaced, Mirrors, Linked, HeadOf, KeyFree;
      var b := Slot(hasher(k), N);
      SoundChain(buckets[..], chains, nodes, hasher, links, b);
      var n := Search(buckets, b, k, chains[b], links);
      SoundKeys(buckets[..], chains, nodes, hasher, links, b, k, n);
      found, value := n != null, if n == null then initial else n.data;
    }

    /** Looks for key k in a chain; if it is not there, finds where it goes. */
    method Walk(k: Key, b: nat, ghost c: seq<Node<D>>) returns (found: Node?<D>, p: nat, t: Node?<D>)
      requires b < buckets.Length && buckets[b] == HeadOf(c) && Linked(c, links) && Sorted(c) && Mirrors(links)
      ensures found != null ==> found in c && found.key == k
      ensures found == null ==>
                && p <= |c| && Fits(c, k, p) && KeyFree(c, k)
                && (if p == 0 then c == [] && t == null else t == c[p - 1])
    {
      hide Sorted;
      var iter := buckets[b];
      p, t := 0, null;
      while iter != null
        invariant 0 <= p <= |c| && iter == (if p < |c| then c[p] else null)
        invariant if p == 0 then t == null else t == c[p - 1]
        invariant forall j | 0 <= j < p :: c[j].key != k
        invariant forall j | 1 <= j < p :: c[j].key <= k
        invariant p >= 1 && iter != null ==> iter.key <= k
        decreases |c| - p
      {
        if iter.key == k {
          return iter, p, t;
        }
        assert c[p] in links && links[c[p]] == NextIn(c, p);
        t, p := iter, p + 1;
        if iter.next != null && iter.next.key > k {
          break;
        }
        iter := iter.next;
      }
      assert Fits(c, k, p);
      EarlyStop(c, k, p);
      found := null;
    }

    /** Links a new node for key k into its chain. */
    method Link(k: Key, b: nat, ghost c: seq<Node<D>>, p: nat, t: Node?<D>) returns (n: Node<D>)
      requires Valid() && b == Slot(hasher(k), N) && c == chains[b] && k !in nodes
      requires p <= |c| && Fits(c, k, p) && KeyFree(c, k)
      requires if p == 0 then c == [] && t == null else t == c[p - 1]
      modifies this`size, this`chains, this`nodes, this`links, buckets, links.Keys
      ensures Valid() && fresh(n) && links.Keys == old(links).Keys + {n}
      ensures nodes == old(nodes)[k := n] && n.data == initial && forall m | m in old(links) :: m.data == old(m.data)
    {
      hide Slot, Divides, Fits, KeyFree, Sound, Linked, SplicedLinks, Spliced, Mirrors, HeadOf, Sorted, AllPlaced;
      n := new Node(hasher(k), k, initial);
      SoundChain(buckets[..], chains, nodes, hasher, links, b);
      SpliceSound(buckets[..], chains, nodes, hasher, links, b, p, n);
      ghost var ls := links;
      links, chains, nodes, size := SplicedLinks(c, p, n, ls), chains[b := Spliced(c, p, n)], nodes[k := n], size + 1;
      LinkAfter(buckets, b, c, p, t, n, ls);
    }

    /** Moves all nodes into a bucket array twice as long. */
    method Grow()
      requires Valid()
      modifies this`N, this`buckets, this`chains, this`links, links.Keys`next
      ensures Valid() && N == 2 * old(N) && links.Keys <= old(links).Keys && fresh(buckets)
    {
      hide Slot, Sound, Carrying, MovedTo, Mirrors, Divides, AllPlaced, Linked, Sorted, HeadOf;
      var M := 2 * N;
      var bk := new Node?<D>[M](_ => null);
      ghost var ch: seq<seq<Node<D>>>, done: map<Key, Node<D>>, links': Links<D> := seq(M, _ => []), map[], map[];
      CarryingNone(bk, ch, nodes, hasher, links, chains);
      assert links'.Keys == {};
      DividesDouble(L, N);
      for i := 0 to N
        invariant N == old(N) && buckets == old(buckets) && chains == old(chains) && links == old(links)
        invariant |ch| == M && Carrying(bk, ch, done, nodes, hasher, links', links)
                  && MovedTo(chains, i, 0, links'.Keys)
      {
        SoundChain(buckets[..], chains, nodes, hasher, links, i);
        ch, done, links' := CarryChain(buckets[i], i, bk, buckets[..], chains, ch, done, nodes, hasher, links', links);
      }
      AllCarried(bk, ch, done, nodes, hasher, links', links, buckets[..], chains);
      N, buckets, chains, links := M, bk, ch, links';
    }

    /** Grows once there are more keys than buckets; the map stays the same. */
    method Rehash()
      requires Valid()
      modifies this`N, this`buckets, this`chains, this`links, links.Keys`next
      ensures Valid() && Contents() == old(Contents()) && size == old(size)
      ensures N == if size > old(N) then 2 * old(N) else old(N)
      ensures links.Keys <= old(links).Keys && (buckets == old(buckets) || fresh(buckets))
    {
      hide Sound, Mirrors, Divides;
      if size > N {
        Grow();
      }
    }

    /** The node of key k, linked in if there was none. */
    method Locate(k: Key) returns (n: Node<D>)
      requires Valid()
      modifies this`size, this`chains, this`nodes, this`links, buckets, links.Keys
      ensures Valid() && fresh(links.Keys - old(links).Keys) && k in nodes && nodes[k] == n
      ensures Contents() == if k in old(Contents()) then old(Contents()) else old(Contents())[k := initial]
    {
      hide Slot, Divides, Fits, KeyFree, Mirrors, Linked, Sorted, HeadOf, Sound, AllPlaced;
      var b := Slot(hasher(k), N);
      ghost var c := chains[b];
      SoundChain(buckets[..], chains, nodes, hasher, links, b);
      var found, p, t := Walk(k, b, c);
      SoundKeys(buckets[..], chains, nodes, hasher, links, b, k, found);
      if found != null {
        return found;
      }
      n := Link(k, b, c, p, t);
    }

    /** The node a client may write to: rehash first, then locate. */
    method FindBucket(k: Key) returns (n: Node<D>)
      requires Valid()
      modifies this, buckets, links.Keys
      ensures Valid() && fresh(links.Keys - old(links).Keys) && (buckets == old(buckets) || fresh(buckets))
      ensures k in nodes && nodes[k] == n
      ensures Contents() == if k in old(Contents()) then old(Contents()) else old(Contents())[k := initial]
    {
      hide Sound, Mirrors, Divides;
      Rehash();
      n := Locate(k);
    }

    /** A client's write through the iterator. */
    method Store(k: Key, n: Node<D>, v: D)
      requires Valid() && k in nodes && nodes[k] == n
      modifies n`data
      ensures Valid() && Contents() == old(Contents())[k := v]
    {
      hide Divides, Mirrors, Sound;
      SoundOwn(buckets[..], chains, nodes, hasher, links);
      n.data := v;
    }

    method Insert(k: Key, v: D)
      requires Valid()
      modifies this, buckets, links.Keys
      ensures Valid() && fresh(links.Keys - old(links).Keys) && (buckets == old(buckets) || fresh(buckets))
      ensures Contents() == old(Contents())[k := v]
    {
      hide Divides, Mirrors, Sound;
      var n := FindBucket(k);
      SoundOwn(buckets[..], chains, nodes, hasher, links);
      ghost var m := Contents();
      Store(k, n, v);
      assert m[k := v] == old(Contents())[k := v];
    }

    /** What every reachable chain looks like: the pointers from bucket i run
        through nodes of hash i mod N, with distinct keys, ascending after the head. */
    lemma ChainShape(i: nat)
      requires Valid() && i < N
      ensures var c := chains[i];
              && buckets[i] == HeadOf(c)
              && (forall j | 0 <= j < |c| :: hasher(c[j].key) % N == i && c[j].next == NextIn(c, j))
              && (forall j, l | 0 <= j < l < |c| :: c[j].key != c[l].key && (1 <= j ==> c[j].key < c[l].key))
    {
      hide Divides, Sound, AllPlaced, Linked, NextIn, HeadOf;
      var c := chains[i];
      SoundChain(buckets[..], chains, nodes, hasher, links, i);
      forall j | 0 <= j < |c|
        ensures hasher(c[j].key) % N == i && c[j].next == NextIn(c, j)
      {
        PlacedAt(c, i, N, nodes, hasher, links, j);
      }
    }

    /** The size counter is the number of keys. */
    lemma Counted()
      requires Valid()
      ensures size == |Contents()| && Contents().Keys == nodes.Keys
    {
      assert Contents().Keys == nodes.Keys;
    }
  }
}
