/** The striped map under concurrency: a step-level model of any number of
    threads running find and find_bucket over one bucket table, one counter
    and a fixed array of locks. */
module StripedLocks {
  import opened Measurements
  import S = StripedMaps

  type Key = S.Key
  type Data = int

  datatype Entry = Entry(key: Key, data: Data)
  type Chain = seq<Entry>

  // ------------------------------------------------------------------- chains

  predicate Sorted(c: Chain) {
    && (forall i, j | 0 <= i < j < |c| :: c[i].key != c[j].key)
    && (forall i, j | 1 <= i < j < |c| :: c[i].key < c[j].key)
  }

  /** Position p is where a chain takes a new key. */
  predicate Fits(c: Chain, key: Key, p: nat) {
    && (if c == [] then p == 0 else 1 <= p <= |c|)
    && (forall j | 1 <= j < p :: c[j].key <= key)
    && (p < |c| ==> key < c[p].key)
  }

  predicate Free(c: Chain, key: Key) {
    forall j | 0 <= j < |c| :: c[j].key != key
  }

  function Spliced(c: Chain, p: nat, e: Entry): Chain {
    if p <= |c| then c[..p] + [e] + c[p..] else c
  }

  /** Where the walk of a rehash stops. */
  function SeatFrom(c: Chain, key: Key, p: nat): (q: nat)
    requires 1 <= p <= |c|
    requires forall j | 1 <= j < p :: c[j].key <= key
    ensures Fits(c, key, q)
    decreases |c| - p
  {
    if p == |c| || c[p].key > key then p else SeatFrom(c, key, p + 1)
  }

  function Seat(c: Chain, key: Key): (q: nat)
    ensures Fits(c, key, q)
  {
    if c == [] then 0 else SeatFrom(c, key, 1)
  }

  function Lookup(c: Chain, key: Key): Option<Data> {
    if c == [] then None else if c[0].key == key then Some(c[0].data) else Lookup(c[1..], key)
  }

  lemma {:induction false} LookupFree(c: Chain, key: Key)
    ensures Lookup(c, key).None? <==> Free(c, key)
  {
    if c != [] {
      LookupFree(c[1..], key);
      assert forall j | 1 <= j < |c| :: c[j] == c[1..][j - 1];
    }
  }

  lemma {:induction false} LookupAt(c: Chain, j: nat)
    requires j < |c| && Sorted(c)
    ensures Lookup(c, c[j].key) == Some(c[j].data)
  {
    if j > 0 {
      LookupAt(c[1..], j - 1);
    }
  }

  lemma {:induction false} LookupSplice(c: Chain, p: nat, e: Entry, key: Key)
    requires p <= |c| && Free(c, e.key)
    ensures Lookup(Spliced(c, p, e), key) == if key == e.key then Some(e.data) else Lookup(c, key)
  {
    var d := Spliced(c, p, e);
    if p == 0 {
      assert d[1..] == c;
    } else {
      LookupSplice(c[1..], p - 1, e, key);
      assert d[1..] == Spliced(c[1..], p - 1, e);
    }
  }

  lemma {:induction false} LookupWrite(c: Chain, j: nat, v: Data, key: Key)
    requires j < |c| && Sorted(c)
    ensures Lookup(c[j := Entry(c[j].key, v)], key) == if key == c[j].key then Some(v) else Lookup(c, key)
  {
    var d := c[j := Entry(c[j].key, v)];
    if j == 0 {
      assert d[1..] == c[1..];
    } else {
      LookupWrite(c[1..], j - 1, v, key);
      assert d[1..] == c[1..][j - 1 := Entry(c[j].key, v)];
    }
  }

  lemma LookupRest(c: Chain, key: Key)
    requires c != [] && Sorted(c)
    ensures Lookup(c[1..], key) == if key == c[0].key then None else Lookup(c, key)
  {
    if key == c[0].key {
      LookupFree(c[1..], key);
    }
  }

  lemma SplicedSorted(c: Chain, p: nat, e: Entry)
    requires Sorted(c) && Fits(c, e.key, p) && Free(c, e.key)
    ensures Sorted(Spliced(c, p, e))
  {
    var d := Spliced(c, p, e);
    forall j, k | 0 <= j < k < |d|
      ensures d[j].key != d[k].key && (1 <= j ==> d[j].key < d[k].key)
    {
      var j', k' := if j < p then j else j - 1, if k < p then k else k - 1;
      if j == p {
        assert d[k] == c[k'];
        assert p < k' ==> c[p].key < c[k'].key;
      } else if k == p {
        assert d[j] == c[j];
      } else {
        assert d[j] == c[j'] && d[k] == c[k'];
      }
    }
  }

  lemma EarlyStop(c: Chain, key: Key, p: nat)
    requires Sorted(c) && Fits(c, key, p) && forall j | 0 <= j < p :: c[j].key != key
    ensures Free(c, key)
  {
    forall j | p <= j < |c|
      ensures c[j].key != key
    {
      assert p < j ==> c[p].key < c[j].key;
    }
  }

  // ------------------------------------------------------------------- tables

  /** Bucket i of a table of n buckets. */
  ghost predicate Proper(c: Chain, i: nat, n: nat, h: Key -> nat)
    requires n > 0
  {
    Sorted(c) && forall j | 0 <= j < |c| :: S.Slot(h(c[j].key), n) == i
  }

  ghost predicate AllProper(table: seq<Chain>, h: Key -> nat) {
    table != [] ==> forall i | 0 <= i < |table| :: Proper(table[i], i, |table|, h)
  }

  function Get(table: seq<Chain>, h: Key -> nat, key: Key): Option<Data> {
    if table == [] then None else Lookup(table[S.Slot(h(key), |table|)], key)
  }

  /** A lock that guards the hash guards the bucket: (h % n) % l == h % l. */
  lemma LockOfBucket(hash: nat, n: nat, l: nat)
    requires l > 0 && n > 0 && S.Divides(l, n)
    ensures S.Slot(S.Slot(hash, n), l) == S.Slot(hash, l)
  {
    var r, q, m := hash % n, hash / n, n / l;
    var r', q' := r % l, r / l;
    assert n == l * m;
    assert hash == n * q + r;
    assert r == l * q' + r';
    assert n * q == l * (m * q) by {
      assert (l * m) * q == l * (m * q);
    }
    assert l * (m * q) + l * q' == l * (m * q + q');
    Remainder(hash, l, m * q + q', r');
  }

  // -------------------------------------------------------------------- steps

  /** Where a thread is. Find: take the lock, read the bucket, walk, leave.
      Find bucket: check the load by reading the counter and then, without a
      lock, the bucket count; perhaps rehash under all locks; then take the
      lock, read the bucket, walk, perhaps link and count, and hold the lock
      while the client uses the iterator. */
  datatype Pc =
    | Idle
    | FindLock(key: Key)
    | FindRead(key: Key)
    | FindWalk(key: Key, bucket: nat, at: nat)
    | FindExit(key: Key, result: Option<Data>)
    | CheckLoad(key: Key)
    | CheckBuckets(key: Key, size: nat)
    | LockAll(key: Key, next: nat)
    | Recheck(key: Key)
    | Moving(key: Key, from: nat)
    | UnlockAll(key: Key, held: nat)
    | BucketLock(key: Key)
    | BucketRead(key: Key)
    | BucketWalk(key: Key, bucket: nat, at: nat)
    | Counting(key: Key, bucket: nat, at: nat)
    | Holding(key: Key, bucket: nat, at: nat)

  /** The shared memory and the program counters. While a thread rehashes,
      grown is the new table, not yet installed. */
  datatype State = State(L: nat, N: nat, size: nat, buckets: seq<Chain>, grown: seq<Chain>,
                         locks: seq<Option<nat>>, threads: seq<Pc>, initial: Data)

  /** A choice of a client, or the next step of a running call. */
  datatype Act = Find(key: Key) | FindBucket(key: Key) | Go | Write(data: Data)

  /** What a step does to the abstract map. */
  datatype Label =
    | Silent
    | Read(key: Key, result: Option<Data>)
    | Met(key: Key)
    | Add(key: Key, data: Data)
    | Set(key: Key, data: Data)

  predicate Shape(s: State) {
    s.L > 0 && s.N > 0 && |s.locks| == s.L && s.buckets != []
  }

  function ChainOf(s: State, b: nat): Chain {
    if b < |s.buckets| then s.buckets[b] else []
  }

  function LockFor(s: State, h: Key -> nat, key: Key): (l: nat)
    requires Shape(s)
    ensures l < s.L
  {
    S.Slot(h(key), s.L)
  }

  predicate Enabled(h: Key -> nat, s: State, t: nat, a: Act)
    requires Shape(s)
  {
    t < |s.threads| &&
    match s.threads[t] {
      case Idle => a.Find? || a.FindBucket?
      case FindLock(k) => a.Go? && s.locks[LockFor(s, h, k)].None?
      case BucketLock(k) => a.Go? && s.locks[LockFor(s, h, k)].None?
      case LockAll(k, i) => a.Go? && (i < s.L ==> s.locks[i].None?)
      case Holding(_, _, _) => a.Go? || a.Write?
      case _ => a.Go?
    }
  }

  function Goto(s: State, t: nat, pc: Pc): State
    requires t < |s.threads|
  {
    s.(threads := s.threads[t := pc])
  }

  function Take(s: State, t: nat, l: nat): State
    requires l < |s.locks|
  {
    s.(locks := s.locks[l := Some(t)])
  }

  function Release(s: State, l: nat): State
    requires l < |s.locks|
  {
    s.(locks := s.locks[l := None])
  }

  function SetChain(s: State, b: nat, c: Chain): State {
    if b < |s.buckets| then s.(buckets := s.buckets[b := c]) else s
  }

  /** One atomic step of thread t. */
  function Exec(h: Key -> nat, s: State, t: nat, a: Act): (r: (State, Label))
    requires Shape(s) && Enabled(h, s, t, a)
    ensures Shape(r.0)
  {
    match s.threads[t]
    case Idle => (Goto(s, t, if a.Find? then FindLock(a.key) else CheckLoad(a.key)), Silent)
    case FindLock(k) => (Goto(Take(s, t, LockFor(s, h, k)), t, FindRead(k)), Silent)
    case FindRead(k) => (Goto(s, t, FindWalk(k, S.Slot(h(k), s.N), 0)), Silent)
    case FindWalk(k, b, j) => ExecFind(s, t, k, b, j)
    case FindExit(k, _) => (Goto(Release(s, LockFor(s, h, k)), t, Idle), Silent)
    case CheckLoad(k) => (Goto(s, t, CheckBuckets(k, s.size)), Silent)
    case CheckBuckets(k, size) => (Goto(s, t, if size > s.N then LockAll(k, 0) else BucketLock(k)), Silent)
    case LockAll(k, i) =>
      if i < s.L then (Goto(Take(s, t, i), t, LockAll(k, i + 1)), Silent)
      else (Goto(s, t, Recheck(k)), Silent)
    case Recheck(k) => ExecRecheck(s, t, k)
    case Moving(k, i) => ExecMove(h, s, t, k, i)
    case UnlockAll(k, i) =>
      if 0 < i <= s.L then (Goto(Release(s, i - 1), t, UnlockAll(k, i - 1)), Silent)
      else (Goto(s, t, BucketLock(k)), Silent)
    case BucketLock(k) => (Goto(Take(s, t, LockFor(s, h, k)), t, BucketRead(k)), Silent)
    case BucketRead(k) => (Goto(s, t, BucketWalk(k, S.Slot(h(k), s.N), 0)), Silent)
    case BucketWalk(k, b, j) => ExecWalk(s, t, k, b, j)
    case Counting(k, b, j) => (Goto(s.(size := s.size + 1), t, Holding(k, b, j)), Silent)
    case Holding(k, b, j) =>
      if a.Write? then (Written(s, b, j, a.data), Set(k, a.data))
      else (Goto(Release(s, LockFor(s, h, k)), t, Idle), Silent)
  }

  function ExecFind(s: State, t: nat, k: Key, b: nat, j: nat): (r: (State, Label))
    requires Shape(s) && t < |s.threads|
    ensures Shape(r.0)
  {
    var c := ChainOf(s, b);
    if j >= |c| then (Goto(s, t, FindExit(k, None)), Read(k, None))
    else if c[j].key == k then (Goto(s, t, FindExit(k, Some(c[j].data))), Read(k, Some(c[j].data)))
    else (Goto(s, t, FindWalk(k, b, j + 1)), Silent)
  }

  function ExecWalk(s: State, t: nat, k: Key, b: nat, j: nat): (r: (State, Label))
    requires Shape(s) && t < |s.threads|
    ensures Shape(r.0)
  {
    var c := ChainOf(s, b);
    if j < |c| && c[j].key == k then (Goto(s, t, Holding(k, b, j)), Met(k))
    else if j + 1 < |c| && c[j + 1].key <= k then (Goto(s, t, BucketWalk(k, b, j + 1)), Silent)
    else
      var p := if c == [] then 0 else j + 1;
      (Goto(SetChain(s, b, Spliced(c, p, Entry(k, s.initial))), t, Counting(k, b, p)), Add(k, s.initial))
  }

  function ExecRecheck(s: State, t: nat, k: Key): (r: (State, Label))
    requires Shape(s) && t < |s.threads|
    ensures Shape(r.0)
  {
    if s.size > s.N then
      (Goto(s.(N := 2 * s.N, grown := seq(2 * s.N, _ => [])), t, Moving(k, 0)), Silent)
    else
      (Goto(s, t, UnlockAll(k, s.L)), Silent)
  }

  /** Moves the first node left in bucket i, goes to the next bucket, or
      installs the new table. */
  function ExecMove(h: Key -> nat, s: State, t: nat, k: Key, i: nat): (r: (State, Label))
    requires Shape(s) && t < |s.threads|
    ensures Shape(r.0)
  {
    if i >= |s.buckets| then
      (Goto(if s.grown == [] then s else s.(buckets := s.grown, grown := []), t, UnlockAll(k, s.L)), Silent)
    else if s.buckets[i] == [] || s.grown == [] then
      (Goto(s, t, Moving(k, i + 1)), Silent)
    else
      var e := s.buckets[i][0];
      var b := S.Slot(h(e.key), |s.grown|);
      var c := s.grown[b];
      (s.(buckets := s.buckets[i := s.buckets[i][1..]], grown := s.grown[b := Spliced(c, Seat(c, e.key), e)]), Silent)
  }

  function Written(s: State, b: nat, j: nat, v: Data): (s': State)
    requires Shape(s)
    ensures Shape(s')
  {
    var c := ChainOf(s, b);
    if j < |c| then SetChain(s, b, c[j := Entry(c[j].key, v)]) else s
  }

  // ---------------------------------------------------------------- invariant

  predicate Owns(h: Key -> nat, s: State, pc: Pc, l: nat)
    requires Shape(s)
  {
    match pc
    case Idle => false
    case FindLock(_) => false
    case CheckLoad(_) => false
    case CheckBuckets(_, _) => false
    case BucketLock(_) => false
    case LockAll(_, i) => l < i
    case UnlockAll(_, i) => l < i
    case Recheck(_) => l < s.L
    case Moving(_, _) => l < s.L
    case _ => l == LockFor(s, h, pc.key)
  }

  ghost predicate Owners(h: Key -> nat, s: State)
    requires Shape(s)
  {
    && (forall l, t | 0 <= l < s.L && 0 <= t < |s.threads| :: s.locks[l] == Some(t) <==> Owns(h, s, s.threads[t], l))
    && (forall l | 0 <= l < s.L && s.locks[l].Some? :: s.locks[l].value < |s.threads|)
  }

  predicate InBucket(h: Key -> nat, s: State, k: Key, b: nat)
    requires Shape(s)
  {
    s.N == |s.buckets| && b == S.Slot(h(k), s.N)
  }

  /** What a thread knows at each point. */
  ghost predicate Local(h: Key -> nat, s: State, pc: Pc)
    requires Shape(s)
  {
    match pc
    case FindWalk(k, b, j) =>
      InBucket(h, s, k, b) && j <= |s.buckets[b]| && forall i | 0 <= i < j :: s.buckets[b][i].key != k
    case BucketWalk(k, b, j) => InBucket(h, s, k, b) && Walked(s.buckets[b], k, j)
    case Counting(k, b, j) => InBucket(h, s, k, b) && j < |s.buckets[b]| && s.buckets[b][j].key == k
    case Holding(k, b, j) => InBucket(h, s, k, b) && j < |s.buckets[b]| && s.buckets[b][j].key == k
    case LockAll(_, i) => i <= s.L
    case UnlockAll(_, i) => i <= s.L
    case Moving(_, i) => s.grown != [] && i <= |s.buckets| && forall x | 0 <= x < i :: s.buckets[x] == []
    case _ => true
  }

  predicate Walked(c: Chain, k: Key, j: nat) {
    && (if c == [] then j == 0 else j < |c|)
    && (forall i | 0 <= i < j :: c[i].key != k)
    && (forall i | 1 <= i <= j < |c| :: c[i].key <= k)
  }

  ghost predicate Locals(h: Key -> nat, s: State)
    requires Shape(s)
  {
    forall t | 0 <= t < |s.threads| :: Local(h, s, s.threads[t])
  }

  /** Both tables are proper, hold no key twice, and fit the locks. */
  ghost predicate Tables(h: Key -> nat, s: State)
    requires Shape(s)
  {
    && AllProper(s.buckets, h) && AllProper(s.grown, h)
    && S.Divides(s.L, |s.buckets|)
    && (s.N == if s.grown == [] then |s.buckets| else 2 * |s.buckets|) && (s.grown != [] ==> |s.grown| == s.N)
    && (forall k :: Get(s.buckets, h, k).None? || Get(s.grown, h, k).None?)
  }

  /** A table under construction has a thread at work on it. */
  ghost predicate Attended(s: State) {
    s.grown != [] ==> exists t :: 0 <= t < |s.threads| && s.threads[t].Moving?
  }

  ghost predicate Inv(h: Key -> nat, s: State) {
    Shape(s) && Owners(h, s) && Locals(h, s) && Tables(h, s) && Attended(s)
  }

  // ----------------------------------------------------- the invariant is kept

  predicate SameLocks(h: Key -> nat, s: State, pc: Pc, pc': Pc)
    requires Shape(s)
  {
    forall l | 0 <= l < s.L :: Owns(h, s, pc', l) == Owns(h, s, pc, l)
  }

  /** A thread moves on without touching shared memory. */
  lemma GotoKeeps(h: Key -> nat, s: State, t: nat, pc': Pc)
    requires Inv(h, s) && t < |s.threads| && SameLocks(h, s, s.threads[t], pc') && Local(h, s, pc')
    requires s.threads[t].Moving? ==> pc'.Moving?
    ensures Inv(h, Goto(s, t, pc'))
  {
    hide S.Slot, S.Divides, AllProper, Get;
    var s' := Goto(s, t, pc');
    OwnersGoto(h, s, s', t, pc');
    LocalsGoto(h, s, s', t);
    AttendedGoto(s, s', t);
    hide Local, Owns, Owners;
  }

  lemma OwnersGoto(h: Key -> nat, s: State, s': State, t: nat, pc': Pc)
    requires Shape(s) && Shape(s') && Owners(h, s) && t < |s.threads| && s'.L == s.L && s'.locks == s.locks
    requires s'.threads == s.threads[t := pc'] && SameLocks(h, s, s.threads[t], pc')
    ensures Owners(h, s')
  {
    hide S.Slot;
    forall l, u | 0 <= l < s'.L && 0 <= u < |s'.threads|
      ensures s'.locks[l] == Some(u) <==> Owns(h, s', s'.threads[u], l)
    {
      assert s.locks[l] == Some(u) <==> Owns(h, s, s.threads[u], l);
    }
  }

  lemma LocalsGoto(h: Key -> nat, s: State, s': State, t: nat)
    requires Shape(s) && Shape(s') && Locals(h, s) && t < |s.threads| == |s'.threads| && Local(h, s, s'.threads[t])
    requires forall u | 0 <= u < |s.threads| && u != t :: s'.threads[u] == s.threads[u]
    requires s'.L == s.L && s'.N == s.N && s'.buckets == s.buckets && s'.grown == s.grown
    ensures Locals(h, s')
  {
    hide S.Slot;
    forall u | 0 <= u < |s'.threads|
      ensures Local(h, s', s'.threads[u])
    {
      assert Local(h, s, s'.threads[u]);
    }
  }

  lemma AttendedGoto(s: State, s': State, t: nat)
    requires Attended(s) && t < |s.threads| == |s'.threads| && (s'.grown != [] ==> s.grown != [])
    requires forall u | 0 <= u < |s.threads| && u != t :: s'.threads[u] == s.threads[u]
    requires s.threads[t].Moving? ==> s'.threads[t].Moving?
    ensures Attended(s')
  {
    if s'.grown != [] {
      var u :| 0 <= u < |s.threads| && s.threads[u].Moving?;
      assert s'.threads[u].Moving?;
    }
  }

  /** A thread takes lock l. */
  lemma TakeKeeps(h: Key -> nat, s: State, t: nat, l: nat, pc': Pc)
    requires Inv(h, s) && t < |s.threads| && l < s.L && s.locks[l].None? && Local(h, s, pc') && !s.threads[t].Moving?
    requires forall x | 0 <= x < s.L :: Owns(h, s, pc', x) == (Owns(h, s, s.threads[t], x) || x == l)
    ensures Inv(h, Goto(Take(s, t, l), t, pc'))
  {
    hide S.Slot, S.Divides, AllProper, Get;
    var s' := Goto(Take(s, t, l), t, pc');
    LocalsGoto(h, s, s', t);
    AttendedGoto(s, s', t);
    hide Local, Attended;
    forall x, u | 0 <= x < s'.L && 0 <= u < |s'.threads|
      ensures s'.locks[x] == Some(u) <==> Owns(h, s', s'.threads[u], x)
    {
      assert s.locks[x] == Some(u) <==> Owns(h, s, s.threads[u], x);
      assert Owns(h, s', s'.threads[u], x) == Owns(h, s, s'.threads[u], x);
    }
  }

  /** A thread gives up lock l. */
  lemma ReleaseKeeps(h: Key -> nat, s: State, t: nat, l: nat, pc': Pc)
    requires Inv(h, s) && t < |s.threads| && l < s.L && Owns(h, s, s.threads[t], l) && Local(h, s, pc')
             && !s.threads[t].Moving?
    requires forall x | 0 <= x < s.L :: Owns(h, s, pc', x) == (Owns(h, s, s.threads[t], x) && x != l)
    ensures Inv(h, Goto(Release(s, l), t, pc'))
  {
    hide S.Slot, S.Divides, AllProper, Get;
    var s' := Goto(Release(s, l), t, pc');
    LocalsGoto(h, s, s', t);
    AttendedGoto(s, s', t);
    hide Local, Attended;
    forall x, u | 0 <= x < s'.L && 0 <= u < |s'.threads|
      ensures s'.locks[x] == Some(u) <==> Owns(h, s', s'.threads[u], x)
    {
      assert s.locks[x] == Some(u) <==> Owns(h, s, s.threads[u], x);
      assert s.locks[l] == Some(t);
      assert Owns(h, s', s'.threads[u], x) == Owns(h, s, s'.threads[u], x);
    }
  }

  /** Only one thread owns a lock. */
  lemma OneOwner(h: Key -> nat, s: State, t: nat, u: nat, l: nat)
    requires Shape(s) && Owners(h, s) && t < |s.threads| && u < |s.threads| && l < s.L
    requires Owns(h, s, s.threads[t], l) && Owns(h, s, s.threads[u], l)
    ensures t == u
  {
    hide Owns;
    assert s.locks[l] == Some(t) && s.locks[l] == Some(u);
  }

  /** While another thread owns any lock, no rehash is in progress. */
  lemma NoRehash(h: Key -> nat, s: State, t: nat, l: nat)
    requires Inv(h, s) && t < |s.threads| && l < s.L && Owns(h, s, s.threads[t], l) && !s.threads[t].Moving?
    ensures s.grown == [] && s.N == |s.buckets|
  {
    hide S.Slot, S.Divides, AllProper, Get, Local;
    if s.grown != [] {
      var u :| 0 <= u < |s.threads| && s.threads[u].Moving?;
      OneOwner(h, s, t, u, l);
    }
  }

  /** What a thread knows does not depend on chains it has no lock for. */
  predicate UsesBucket(pc: Pc) {
    pc.FindWalk? || pc.BucketWalk? || pc.Counting? || pc.Holding?
  }

  lemma LocalFrame(h: Key -> nat, s: State, s': State, pc: Pc)
    requires Shape(s) && Shape(s') && s'.L == s.L && Local(h, s, pc) && !pc.Moving?
    requires UsesBucket(pc) ==> s'.N == s.N && |s'.buckets| == |s.buckets|
    requires UsesBucket(pc) && pc.bucket < |s.buckets| == |s'.buckets| ==> s'.buckets[pc.bucket] == s.buckets[pc.bucket]
    ensures Local(h, s', pc)
  {
    hide S.Slot;
  }

  /** Two threads at work on chains are at work on different chains. */
  lemma OtherBucket(h: Key -> nat, s: State, t: nat, u: nat, k: Key, b: nat)
    requires Inv(h, s) && t < |s.threads| && u < |s.threads| && t != u
    requires Owns(h, s, s.threads[t], LockFor(s, h, k)) && InBucket(h, s, k, b)
    ensures !s.threads[u].Moving?
    ensures UsesBucket(s.threads[u]) ==> s.threads[u].bucket < |s.buckets| && s.threads[u].bucket != b
  {
    hide S.Slot, S.Divides, AllProper, Get;
    var pc := s.threads[u];
    if pc.Moving? {
      OneOwner(h, s, t, u, LockFor(s, h, k));
    }
    if UsesBucket(pc) {
      assert Local(h, s, pc) && InBucket(h, s, pc.key, pc.bucket);
      LockOfBucket(h(k), s.N, s.L);
      LockOfBucket(h(pc.key), s.N, s.L);
      if pc.bucket == b {
        OneOwner(h, s, t, u, LockFor(s, h, k));
      }
    }
  }

  /** The owner of a chain's lock changes the chain. */
  lemma ChainKeeps(h: Key -> nat, s: State, t: nat, k: Key, b: nat, c: Chain, pc': Pc)
    requires Inv(h, s) && t < |s.threads| && !s.threads[t].Moving? && !pc'.Moving?
    requires Owns(h, s, s.threads[t], LockFor(s, h, k)) && InBucket(h, s, k, b) && Proper(c, b, s.N, h)
    requires SameLocks(h, s, s.threads[t], pc') && Local(h, Goto(SetChain(s, b, c), t, pc'), pc')
    ensures Inv(h, Goto(SetChain(s, b, c), t, pc'))
  {
    hide S.Slot, S.Divides, Owns, Local, Proper;
    var s' := Goto(SetChain(s, b, c), t, pc');
    NoRehash(h, s, t, LockFor(s, h, k));
    OwnersGoto(h, s, s', t, pc');
    forall u | 0 <= u < |s'.threads|
      ensures Local(h, s', s'.threads[u])
    {
      if u != t {
        OtherBucket(h, s, t, u, k, b);
        LocalFrame(h, s, s', s.threads[u]);
      }
    }
    hide Owners, Locals;
  }

  /** A thread that owns every lock is alone with the tables. */
  lemma Alone(h: Key -> nat, s: State, t: nat, u: nat)
    requires Inv(h, s) && t < |s.threads| && u < |s.threads| && t != u
    requires forall l | 0 <= l < s.L :: Owns(h, s, s.threads[t], l)
    ensures !s.threads[u].Moving? && !UsesBucket(s.threads[u])
  {
    hide S.Slot, S.Divides, AllProper, Get, Local;
    var pc := s.threads[u];
    if pc.Moving? || UsesBucket(pc) {
      var l := if pc.Moving? then 0 else LockFor(s, h, pc.key);
      assert Owns(h, s, s.threads[t], l);
      OneOwner(h, s, t, u, l);
    }
  }

  /** A thread that owns every lock may replace both tables. */
  lemma TablesKeep(h: Key -> nat, s: State, s': State, t: nat, pc': Pc)
    requires Inv(h, s) && t < |s.threads| && forall l | 0 <= l < s.L :: Owns(h, s, s.threads[t], l)
    requires Shape(s') && s'.L == s.L && s'.locks == s.locks && s'.threads == s.threads[t := pc']
    requires SameLocks(h, s, s.threads[t], pc') && Local(h, s', pc') && Tables(h, s')
    requires s'.grown != [] ==> pc'.Moving?
    ensures Inv(h, s')
  {
    hide S.Slot, S.Divides, Local, Tables, Owns;
    OwnersGoto(h, s, s', t, pc');
    forall u | 0 <= u < |s'.threads|
      ensures Local(h, s', s'.threads[u])
    {
      if u != t {
        Alone(h, s, t, u);
        LocalFrame(h, s, s', s.threads[u]);
      }
    }
    assert s'.grown != [] ==> s'.threads[t].Moving?;
  }

  lemma GetSet(table: seq<Chain>, h: Key -> nat, b: nat, c: Chain, key: Key)
    requires b < |table|
    ensures Get(table[b := c], h, key) == if S.Slot(h(key), |table|) == b then Lookup(c, key) else Get(table, h, key)
  {
  }

  lemma {:induction false} GetEmpty(table: seq<Chain>, h: Key -> nat, key: Key)
    requires forall i | 0 <= i < |table| :: table[i] == []
    ensures Get(table, h, key) == None
  {
  }

  lemma SplicedProper(c: Chain, p: nat, e: Entry, b: nat, n: nat, h: Key -> nat)
    requires n > 0 && Proper(c, b, n, h) && Fits(c, e.key, p) && Free(c, e.key) && S.Slot(h(e.key), n) == b
    ensures Proper(Spliced(c, p, e), b, n, h)
  {
    hide S.Slot;
    SplicedSorted(c, p, e);
    hide Sorted;
  }

  /** The value of a key, wherever its node is. */
  function Val(h: Key -> nat, s: State, key: Key): Option<Data> {
    if Get(s.buckets, h, key).Some? then Get(s.buckets, h, key) else Get(s.grown, h, key)
  }

  ghost predicate SameVals(h: Key -> nat, s: State, s': State) {
    forall k :: Val(h, s', k) == Val(h, s, k)
  }

  // ------------------------------------------------------------------- rehash

  lemma StartRehash(h: Key -> nat, s: State, t: nat, k: Key)
    requires Inv(h, s) && t < |s.threads| && s.threads[t] == Recheck(k) && s.size > s.N
    ensures var s' := ExecRecheck(s, t, k).0; Inv(h, s') && SameVals(h, s, s')
  {
    hide S.Slot, S.Divides, Owners, Locals, Attended;
    var s' := ExecRecheck(s, t, k).0;
    assert Owns(h, s, s.threads[t], 0);
    NoRehash(h, s, t, 0);
    forall x
      ensures Get(s'.grown, h, x) == None
    {
      GetEmpty(s'.grown, h, x);
    }
    hide Get;
    TablesKeep(h, s, s', t, Moving(k, 0));
  }

  lemma InstallTable(h: Key -> nat, s: State, t: nat, k: Key, i: nat)
    requires Inv(h, s) && t < |s.threads| && s.threads[t] == Moving(k, i) && i >= |s.buckets|
    ensures var s' := ExecMove(h, s, t, k, i).0; Inv(h, s') && SameVals(h, s, s') && s'.grown == []
  {
    hide S.Slot, S.Divides, Owners, Attended;
    var s' := ExecMove(h, s, t, k, i).0;
    assert Local(h, s, s.threads[t]);
    S.DividesDouble(s.L, |s.buckets|);
    forall x
      ensures Get(s.buckets, h, x) == None && Get(s'.grown, h, x) == None
    {
      GetEmpty(s.buckets, h, x);
    }
    hide Get, Locals;
    TablesKeep(h, s, s', t, UnlockAll(k, s.L));
  }

  lemma MoveTables(h: Key -> nat, s: State, i: nat, s': State, k: Key)
    requires Shape(s) && Shape(s') && Tables(h, s) && s.grown != [] && i < |s.buckets| && s.buckets[i] != []
    requires var e := s.buckets[i][0]; var b := S.Slot(h(e.key), |s.grown|); var c := s.grown[b];
             && s'.buckets == s.buckets[i := s.buckets[i][1..]]
             && s'.grown == s.grown[b := Spliced(c, Seat(c, e.key), e)]
    ensures var e := s.buckets[i][0];
            && Get(s'.buckets, h, k) == (if k == e.key then None else Get(s.buckets, h, k))
            && Get(s'.grown, h, k) == (if k == e.key then Some(e.data) else Get(s.grown, h, k))
            && Get(s.buckets, h, e.key) == Some(e.data)
  {
    hide S.Slot, S.Divides, Seat, Fits, Spliced, Sorted, Lookup;
    var e := s.buckets[i][0];
    var b := S.Slot(h(e.key), |s.grown|);
    var c := s.grown[b];
    var p := Seat(c, e.key);
    assert Proper(s.buckets[i], i, |s.buckets|, h);
    LookupAt(s.buckets[i], 0);
    assert Get(s.grown, h, e.key).None?;
    LookupFree(c, e.key);
    SeatBound(c, e.key);
    LookupRest(s.buckets[i], k);
    LookupSplice(c, p, e, k);
    GetSet(s.buckets, h, i, s.buckets[i][1..], k);
    GetSet(s.grown, h, b, Spliced(c, p, e), k);
  }

  lemma SeatBound(c: Chain, key: Key)
    ensures Seat(c, key) <= |c|
  {
  }

  lemma MoveProper(h: Key -> nat, s: State, i: nat)
    requires Shape(s) && Tables(h, s) && s.grown != [] && i < |s.buckets| && s.buckets[i] != []
    ensures var e := s.buckets[i][0]; var b := S.Slot(h(e.key), |s.grown|); var c := s.grown[b];
            && AllProper(s.buckets[i := s.buckets[i][1..]], h)
            && AllProper(s.grown[b := Spliced(c, Seat(c, e.key), e)], h)
  {
    hide S.Slot, S.Divides, Seat, Fits, Spliced;
    var e := s.buckets[i][0];
    var b := S.Slot(h(e.key), |s.grown|);
    var c := s.grown[b];
    assert Proper(s.buckets[i], i, |s.buckets|, h) && Proper(c, b, |s.grown|, h);
    LookupAt(s.buckets[i], 0);
    assert Get(s.grown, h, e.key).None?;
    LookupFree(c, e.key);
    hide Lookup, Get;
    SplicedProper(c, Seat(c, e.key), e, b, |s.grown|, h);
    assert Proper(s.buckets[i][1..], i, |s.buckets|, h);
    hide Proper;
  }

  lemma MoveNode(h: Key -> nat, s: State, t: nat, k: Key, i: nat)
    requires Inv(h, s) && t < |s.threads| && s.threads[t] == Moving(k, i) && i < |s.buckets| && s.buckets[i] != []
    ensures var s' := ExecMove(h, s, t, k, i).0; Inv(h, s') && SameVals(h, s, s')
  {
    hide S.Slot, S.Divides, Owners, Attended, AllProper, Spliced, Seat;
    var s' := ExecMove(h, s, t, k, i).0;
    assert Local(h, s, s.threads[t]);
    MoveProper(h, s, i);
    forall x
      ensures Val(h, s', x) == Val(h, s, x) && (Get(s'.buckets, h, x).None? || Get(s'.grown, h, x).None?)
    {
      MoveTables(h, s, i, s', x);
    }
    hide Get, Val, Locals;
    assert s'.threads == s.threads[t := Moving(k, i)];
    TablesKeep(h, s, s', t, Moving(k, i));
  }

  // --------------------------------------------------------------- every step

  /** Label l is a legal atomic operation on a map with these values, and
      leads to those. */
  ghost predicate Effect(h: Key -> nat, s: State, l: Label, s': State) {
    match l
    case Silent => SameVals(h, s, s')
    case Read(k, r) => Val(h, s, k) == r && SameVals(h, s, s')
    case Met(k) => Val(h, s, k).Some? && SameVals(h, s, s')
    case Add(k, d) => Val(h, s, k).None? && forall x :: Val(h, s', x) == if x == k then Some(d) else Val(h, s, x)
    case Set(k, d) => Val(h, s, k).Some? && forall x :: Val(h, s', x) == if x == k then Some(d) else Val(h, s, x)
  }

  lemma FindStep(h: Key -> nat, s: State, t: nat, k: Key, b: nat, j: nat)
    requires Inv(h, s) && t < |s.threads| && s.threads[t] == FindWalk(k, b, j)
    ensures var r := ExecFind(s, t, k, b, j); Inv(h, r.0) && Effect(h, s, r.1, r.0)
  {
    hide S.Slot, S.Divides, Owners, Attended;
    var r := ExecFind(s, t, k, b, j);
    var c := ChainOf(s, b);
    assert Local(h, s, s.threads[t]);
    NoRehash(h, s, t, LockFor(s, h, k));
    assert Proper(c, b, s.N, h);
    if j == |c| {
      LookupFree(c, k);
    } else if c[j].key == k {
      LookupAt(c, j);
    }
    GotoKeeps(h, s, t, r.0.threads[t]);
  }

  /** A chain changed by its owner changes the values of its own keys only. */
  lemma ChainVals(h: Key -> nat, s: State, b: nat, c: Chain, k: Key, d: Data, s': State)
    requires Shape(s) && s.grown == [] && b < |s.buckets| && b == S.Slot(h(k), |s.buckets|)
    requires s'.buckets == s.buckets[b := c] && s'.grown == []
    requires forall x :: Lookup(c, x) == if x == k then Some(d) else Lookup(s.buckets[b], x)
    ensures forall x :: Val(h, s', x) == if x == k then Some(d) else Val(h, s, x)
  {
    hide S.Slot, Lookup;
    forall x
      ensures Val(h, s', x) == if x == k then Some(d) else Val(h, s, x)
    {
      GetSet(s.buckets, h, b, c, x);
    }
  }

  lemma LinkStep(h: Key -> nat, s: State, t: nat, k: Key, b: nat, j: nat)
    requires Inv(h, s) && t < |s.threads| && s.threads[t] == BucketWalk(k, b, j)
    requires var c := ChainOf(s, b); !(j < |c| && c[j].key == k) && !(j + 1 < |c| && c[j + 1].key <= k)
    ensures var r := ExecWalk(s, t, k, b, j); Inv(h, r.0) && Effect(h, s, r.1, r.0)
  {
    hide S.Slot, S.Divides, Owners, Attended;
    var r := ExecWalk(s, t, k, b, j);
    var c, e := ChainOf(s, b), Entry(k, s.initial);
    var p := if c == [] then 0 else j + 1;
    assert Local(h, s, s.threads[t]);
    NoRehash(h, s, t, LockFor(s, h, k));
    assert Proper(c, b, s.N, h);
    EarlyStop(c, k, p);
    LookupFree(c, k);
    SplicedProper(c, p, e, b, s.N, h);
    assert Spliced(c, p, e)[p] == e;
    forall x
      ensures Lookup(Spliced(c, p, e), x) == if x == k then Some(s.initial) else Lookup(c, x)
    {
      LookupSplice(c, p, e, x);
    }
    ChainVals(h, s, b, Spliced(c, p, e), k, s.initial, r.0);
    hide Spliced, Proper, Lookup, Get;
    ChainKeeps(h, s, t, k, b, Spliced(c, p, e), Counting(k, b, p));
  }

  lemma MetStep(h: Key -> nat, s: State, t: nat, k: Key, b: nat, j: nat)
    requires Inv(h, s) && t < |s.threads| && s.threads[t] == BucketWalk(k, b, j)
    requires j < |ChainOf(s, b)| && ChainOf(s, b)[j].key == k
    ensures var r := ExecWalk(s, t, k, b, j); Inv(h, r.0) && Effect(h, s, r.1, r.0)
  {
    hide S.Slot, S.Divides, Owners, Attended, Spliced;
    var c := ChainOf(s, b);
    assert Local(h, s, s.threads[t]);
    NoRehash(h, s, t, LockFor(s, h, k));
    assert Proper(c, b, s.N, h);
    LookupAt(c, j);
    GotoKeeps(h, s, t, Holding(k, b, j));
  }

  lemma WalkStep(h: Key -> nat, s: State, t: nat, k: Key, b: nat, j: nat)
    requires Inv(h, s) && t < |s.threads| && s.threads[t] == BucketWalk(k, b, j)
    ensures var r := ExecWalk(s, t, k, b, j); Inv(h, r.0) && Effect(h, s, r.1, r.0)
  {
    hide S.Slot, S.Divides, Owners, Attended, Spliced, Lookup, Get, Tables;
    var r := ExecWalk(s, t, k, b, j);
    var c := ChainOf(s, b);
    assert Local(h, s, s.threads[t]);
    if j < |c| && c[j].key == k {
      MetStep(h, s, t, k, b, j);
    } else if j + 1 < |c| && c[j + 1].key <= k {
      GotoKeeps(h, s, t, BucketWalk(k, b, j + 1));
    } else {
      LinkStep(h, s, t, k, b, j);
    }
  }

  lemma WriteStep(h: Key -> nat, s: State, t: nat, k: Key, b: nat, j: nat, v: Data)
    requires Inv(h, s) && t < |s.threads| && s.threads[t] == Holding(k, b, j)
    ensures var s' := Written(s, b, j, v); Inv(h, s') && Effect(h, s, Set(k, v), s')
  {
    hide S.Slot, S.Divides, Owners, Attended;
    var s' := Written(s, b, j, v);
    var c := ChainOf(s, b);
    assert Local(h, s, s.threads[t]);
    NoRehash(h, s, t, LockFor(s, h, k));
    assert Proper(c, b, s.N, h);
    LookupAt(c, j);
    var d := c[j := Entry(k, v)];
    assert Proper(d, b, s.N, h);
    forall x
      ensures Lookup(d, x) == if x == k then Some(v) else Lookup(c, x)
    {
      LookupWrite(c, j, v, x);
    }
    ChainVals(h, s, b, d, k, v, s');
    hide Proper, Lookup, Get;
    assert s' == Goto(SetChain(s, b, d), t, Holding(k, b, j));
    ChainKeeps(h, s, t, k, b, d, Holding(k, b, j));
  }

  lemma StepLocks(h: Key -> nat, s: State, t: nat, a: Act)
    requires Inv(h, s) && Enabled(h, s, t, a)
    requires var pc := s.threads[t];
             !pc.FindWalk? && !pc.BucketWalk? && !pc.Recheck? && !pc.Moving? && !pc.Counting? && !a.Write?
    ensures var r := Exec(h, s, t, a); Inv(h, r.0) && Effect(h, s, r.1, r.0)
  {
    hide S.Slot, S.Divides, Owners, Attended, Locals, Tables, Val;
    var pc := s.threads[t];
    var s' := Exec(h, s, t, a).0;
    assert Local(h, s, pc) by {
      LocalAt(h, s, t);
    }
    match pc {
      case Idle => GotoKeeps(h, s, t, s'.threads[t]);
      case FindLock(k) => TakeKeeps(h, s, t, LockFor(s, h, k), FindRead(k));
      case FindRead(k) =>
        NoRehash(h, s, t, LockFor(s, h, k));
        GotoKeeps(h, s, t, s'.threads[t]);
      case FindExit(k, _) => ReleaseKeeps(h, s, t, LockFor(s, h, k), Idle);
      case CheckLoad(k) => GotoKeeps(h, s, t, CheckBuckets(k, s.size));
      case CheckBuckets(k, size) => GotoKeeps(h, s, t, if size > s.N then LockAll(k, 0) else BucketLock(k));
      case LockAll(k, i) =>
        if i < s.L { TakeKeeps(h, s, t, i, LockAll(k, i + 1)); } else { GotoKeeps(h, s, t, Recheck(k)); }
      case UnlockAll(k, i) =>
        if i > 0 { ReleaseKeeps(h, s, t, i - 1, UnlockAll(k, i - 1)); } else { GotoKeeps(h, s, t, BucketLock(k)); }
      case BucketLock(k) => TakeKeeps(h, s, t, LockFor(s, h, k), BucketRead(k));
      case BucketRead(k) =>
        NoRehash(h, s, t, LockFor(s, h, k));
        GotoKeeps(h, s, t, s'.threads[t]);
      case Holding(k, _, _) => ReleaseKeeps(h, s, t, LockFor(s, h, k), Idle);
    }
    ValSame(h, s, s');
  }

  lemma LocalAt(h: Key -> nat, s: State, t: nat)
    requires Inv(h, s) && t < |s.threads|
    ensures Local(h, s, s.threads[t])
  {
    hide Local;
  }

  lemma ValSame(h: Key -> nat, s: State, s': State)
    requires s'.buckets == s.buckets && s'.grown == s.grown
    ensures SameVals(h, s, s')
  {
  }

  /** Every step of every thread keeps the invariant, and is one atomic
      operation on the map or none. */
  lemma Step(h: Key -> nat, s: State, t: nat, a: Act)
    requires Inv(h, s) && Enabled(h, s, t, a)
    ensures var r := Exec(h, s, t, a); Inv(h, r.0) && Effect(h, s, r.1, r.0)
  {
    hide S.Slot, S.Divides, Owners, Attended, Locals, Tables, Val;
    match s.threads[t] {
      case FindWalk(k, b, j) => FindStep(h, s, t, k, b, j);
      case BucketWalk(k, b, j) => WalkStep(h, s, t, k, b, j);
      case Recheck(k) => RecheckStep(h, s, t, k);
      case Moving(k, i) => MoveStep(h, s, t, k, i);
      case Counting(k, b, j) =>
        CountStep(h, s, t, k, b, j);
        ValSame(h, s, Exec(h, s, t, a).0);
      case Holding(k, b, j) => if a.Write? { WriteStep(h, s, t, k, b, j, a.data); } else { StepLocks(h, s, t, a); }
      case _ => StepLocks(h, s, t, a);
    }
  }

  lemma RecheckStep(h: Key -> nat, s: State, t: nat, k: Key)
    requires Inv(h, s) && t < |s.threads| && s.threads[t] == Recheck(k)
    ensures var s' := ExecRecheck(s, t, k).0; Inv(h, s') && SameVals(h, s, s')
  {
    hide S.Slot, S.Divides, Owners, Attended, Locals, Tables, Val;
    if s.size > s.N {
      StartRehash(h, s, t, k);
    } else {
      GotoKeeps(h, s, t, UnlockAll(k, s.L));
      ValSame(h, s, ExecRecheck(s, t, k).0);
    }
  }

  lemma MoveStep(h: Key -> nat, s: State, t: nat, k: Key, i: nat)
    requires Inv(h, s) && t < |s.threads| && s.threads[t] == Moving(k, i)
    ensures var s' := ExecMove(h, s, t, k, i).0; Inv(h, s') && SameVals(h, s, s')
  {
    hide S.Slot, S.Divides, Owners, Attended, Locals, Tables, Val;
    LocalAt(h, s, t);
    if i >= |s.buckets| {
      InstallTable(h, s, t, k, i);
    } else if s.buckets[i] == [] {
      GotoKeeps(h, s, t, Moving(k, i + 1));
      ValSame(h, s, ExecMove(h, s, t, k, i).0);
    } else {
      MoveNode(h, s, t, k, i);
    }
  }

  lemma CountStep(h: Key -> nat, s: State, t: nat, k: Key, b: nat, j: nat)
    requires Inv(h, s) && t < |s.threads| && s.threads[t] == Counting(k, b, j)
    ensures Inv(h, Goto(s.(size := s.size + 1), t, Holding(k, b, j)))
  {
    hide S.Slot, S.Divides, Owners, Attended, Locals, Tables;
    LocalAt(h, s, t);
    GotoKeeps(h, s, t, Holding(k, b, j));
    SizeFree(h, Goto(s, t, Holding(k, b, j)), s.size + 1);
  }

  lemma SizeFree(h: Key -> nat, s: State, n: nat)
    requires Inv(h, s)
    ensures Inv(h, s.(size := n))
  {
    hide S.Slot, S.Divides, AllProper, Get;
    var s' := s.(size := n);
    forall t | 0 <= t < |s'.threads|
      ensures Local(h, s', s'.threads[t])
    {
      assert Local(h, s, s.threads[t]);
    }
    forall l, t | 0 <= l < s'.L && 0 <= t < |s'.threads|
      ensures s'.locks[l] == Some(t) <==> Owns(h, s', s'.threads[t], l)
    {
      assert s.locks[l] == Some(t) <==> Owns(h, s, s.threads[t], l);
    }
  }

  // --------------------------------------------------------------------- runs

  /** Threads that have linked a node and not yet counted it. */
  function Pending(threads: seq<Pc>): nat {
    if threads == [] then 0 else (if threads[0].Counting? then 1 else 0) + Pending(threads[1..])
  }

  lemma {:induction false} PendingSet(threads: seq<Pc>, t: nat, pc: Pc)
    requires t < |threads|
    ensures Pending(threads[t := pc]) + (if threads[t].Counting? then 1 else 0)
         == Pending(threads) + (if pc.Counting? then 1 else 0)
  {
    if t > 0 {
      PendingSet(threads[1..], t - 1, pc);
      assert threads[t := pc][1..] == threads[1..][t - 1 := pc];
    } else {
      assert threads[t := pc][1..] == threads[1..];
    }
  }

  lemma StepCounts(h: Key -> nat, s: State, t: nat, a: Act)
    requires Inv(h, s) && Enabled(h, s, t, a)
    ensures var r := Exec(h, s, t, a);
            r.0.size + Pending(r.0.threads) == s.size + Pending(s.threads) + (if r.1.Add? then 1 else 0)
  {
    hide S.Slot, S.Divides, Inv, Pending, Spliced, Exec;
    assert Shape(s) by {
      InvShape(h, s);
    }
    var s' := Exec(h, s, t, a).0;
    ExecThreads(h, s, t, a);
    PendingSet(s.threads, t, s'.threads[t]);
  }

  /** What a step does to the counter and the program counters. */
  ghost predicate Moves(s: State, t: nat, r: (State, Label)) {
    && t < |s.threads| == |r.0.threads| && r.0.threads == s.threads[t := r.0.threads[t]]
    && r.0.threads[t].Counting? == r.1.Add?
  }

  lemma WalksMove(s: State, t: nat, k: Key, b: nat, j: nat)
    requires Shape(s) && t < |s.threads|
    ensures var r := ExecFind(s, t, k, b, j); Moves(s, t, r) && r.0.size == s.size
    ensures var r := ExecWalk(s, t, k, b, j); Moves(s, t, r) && r.0.size == s.size
  {
    hide Spliced;
  }

  lemma RehashMoves(h: Key -> nat, s: State, t: nat, k: Key, i: nat)
    requires Shape(s) && t < |s.threads|
    ensures var r := ExecRecheck(s, t, k); Moves(s, t, r) && r.0.size == s.size
    ensures s.threads[t].Moving? ==> var r := ExecMove(h, s, t, k, i); Moves(s, t, r) && r.0.size == s.size
  {
    hide S.Slot, Spliced, Seat;
  }

  lemma ExecThreads(h: Key -> nat, s: State, t: nat, a: Act)
    requires Shape(s) && Enabled(h, s, t, a)
    ensures var r, pc := Exec(h, s, t, a), s.threads[t];
            && Moves(s, t, r) && r.0.size == s.size + (if pc.Counting? then 1 else 0)
            && (r.1.Add? ==> !pc.Counting?)
  {
    hide S.Slot, S.Divides, ExecFind, ExecWalk, ExecRecheck, ExecMove;
    var pc := s.threads[t];
    match pc {
      case FindWalk(k, b, j) => WalksMove(s, t, k, b, j);
      case BucketWalk(k, b, j) => WalksMove(s, t, k, b, j);
      case Recheck(k) => RehashMoves(h, s, t, k, 0);
      case Moving(k, i) => RehashMoves(h, s, t, k, i);
      case _ =>
    }
  }

  lemma InvShape(h: Key -> nat, s: State)
    requires Inv(h, s)
    ensures Shape(s)
  {
  }

  function Apply(m: map<Key, Data>, l: Label): map<Key, Data> {
    match l
    case Add(k, d) => m[k := d]
    case Set(k, d) => m[k := d]
    case _ => m
  }

  function At(m: map<Key, Data>, k: Key): Option<Data> {
    if k in m then Some(m[k]) else None
  }

  /** What an atomic map answers and accepts. */
  predicate Legal(m: map<Key, Data>, l: Label) {
    match l
    case Silent => true
    case Read(k, r) => r == At(m, k)
    case Met(k) => k in m
    case Add(k, _) => k !in m
    case Set(k, _) => k in m
  }

  /** The shared memory stands for the map m. */
  ghost predicate Represents(h: Key -> nat, s: State, m: map<Key, Data>) {
    (forall k :: Val(h, s, k) == At(m, k)) && s.size + Pending(s.threads) == |m|
  }

  lemma StepRefines(h: Key -> nat, s: State, t: nat, a: Act, m: map<Key, Data>)
    requires Inv(h, s) && Enabled(h, s, t, a) && Represents(h, s, m)
    ensures var r := Exec(h, s, t, a); Inv(h, r.0) && Legal(m, r.1) && Represents(h, r.0, Apply(m, r.1))
  {
    hide S.Slot, S.Divides, Inv, Pending, Exec, Val, Enabled;
    assert Shape(s) by {
      InvShape(h, s);
    }
    Step(h, s, t, a);
    StepCounts(h, s, t, a);
    var r := Exec(h, s, t, a);
    assert Effect(h, s, r.1, r.0);
    assert Legal(m, r.1);
    forall x
      ensures Val(h, r.0, x) == At(Apply(m, r.1), x)
    {
      assert Val(h, s, x) == At(m, x);
    }
  }

  /** A fresh map of n buckets and n locks, with any number of threads. */
  ghost predicate Init(s: State) {
    && s.L == s.N == |s.buckets| == |s.locks| > 0 && s.grown == [] && s.size == 0
    && (forall i | 0 <= i < |s.buckets| :: s.buckets[i] == [])
    && (forall l | 0 <= l < |s.locks| :: s.locks[l] == None)
    && (forall t | 0 <= t < |s.threads| :: s.threads[t] == Idle)
  }

  lemma {:induction false} NonePending(threads: seq<Pc>)
    requires forall t | 0 <= t < |threads| :: !threads[t].Counting?
    ensures Pending(threads) == 0
  {
    if threads != [] {
      NonePending(threads[1..]);
    }
  }

  lemma InitInv(h: Key -> nat, s: State)
    requires Init(s)
    ensures Inv(h, s) && Represents(h, s, map[])
  {
    forall k
      ensures Get(s.buckets, h, k) == None
    {
      GetEmpty(s.buckets, h, k);
    }
    NonePending(s.threads);
    hide Get, S.Slot, Pending;
    assert forall i | 0 <= i < |s.buckets| :: Proper(s.buckets[i], i, |s.buckets|, h);
    assert S.Divides(s.L, |s.buckets|);
  }

  datatype Event = Event(thread: nat, act: Act)

  /** Any interleaving: at each moment any thread that can step may. */
  ghost predicate Run(h: Key -> nat, states: seq<State>, events: seq<Event>) {
    && |states| == |events| + 1 && Init(states[0])
    && forall i | 0 <= i < |events| ::
         && Shape(states[i]) && Enabled(h, states[i], events[i].thread, events[i].act)
         && states[i + 1] == Exec(h, states[i], events[i].thread, events[i].act).0
  }

  /** The operations of the first n steps, played on an atomic map. */
  ghost function Replay(h: Key -> nat, states: seq<State>, events: seq<Event>, n: nat): map<Key, Data>
    requires Run(h, states, events) && n <= |events|
  {
    if n == 0 then map[] else Apply(Replay(h, states, events, n - 1), LabelAt(h, states, events, n - 1))
  }

  ghost function LabelAt(h: Key -> nat, states: seq<State>, events: seq<Event>, i: nat): Label
    requires Run(h, states, events) && i < |events|
  {
    Exec(h, states[i], events[i].thread, events[i].act).1
  }

  /** In every interleaving, the memory after n steps stands for the map that
      the operations so far produce when run one after the other, and every
      answer given is the answer of that map. */
  lemma {:induction false} RunRefines(h: Key -> nat, states: seq<State>, events: seq<Event>, n: nat)
    requires Run(h, states, events) && n <= |events|
    ensures Inv(h, states[n]) && Represents(h, states[n], Replay(h, states, events, n))
    ensures n < |events| ==> Legal(Replay(h, states, events, n), LabelAt(h, states, events, n))
  {
    hide Inv, Represents, Exec, Enabled, Legal, Apply;
    if n == 0 {
      InitInv(h, states[0]);
    } else {
      RunRefines(h, states, events, n - 1);
      StepRefines(h, states[n - 1], events[n - 1].thread, events[n - 1].act, Replay(h, states, events, n - 1));
    }
    if n < |events| {
      StepRefines(h, states[n], events[n].thread, events[n].act, Replay(h, states, events, n));
    }
  }

  /** With no call in progress the counter is the number of keys. */
  lemma SizeAtRest(h: Key -> nat, states: seq<State>, events: seq<Event>, n: nat)
    requires Run(h, states, events) && n <= |events|
    requires forall t | 0 <= t < |states[n].threads| :: !states[n].threads[t].Counting?
    ensures states[n].size == |Replay(h, states, events, n)|
  {
    RunRefines(h, states, events, n);
    NonePending(states[n].threads);
  }

  // ------------------------------------------------------------- a single call

  predicate InFind(pc: Pc) {
    pc.FindLock? || pc.FindRead? || pc.FindWalk? || pc.FindExit?
  }

  /** The call has taken effect. */
  predicate Done(pc: Pc) {
    pc.FindExit? || pc.Counting? || pc.Holding?
  }

  /** The effect of a call that is done: a find has read the result it is about
      to return, a find bucket has met its key or added it. */
  predicate IsEffect(pc: Pc, l: Label) {
    match pc
    case FindExit(k, r) => l == Read(k, r)
    case Counting(k, _, _) => l.Add? && l.key == k
    case Holding(k, _, _) => (l.Met? || l.Add?) && l.key == k
    case _ => false
  }

  /** What a step makes of a call that goes on. */
  ghost predicate CallStep(pc: Pc, pc': Pc, l: Label) {
    && !pc.Idle? && !pc'.Idle? && pc'.key == pc.key && InFind(pc') == InFind(pc)
    && if Done(pc) then
         && Done(pc') && (pc.FindExit? ==> pc' == pc) && (l.Silent? || (pc.Holding? && l.Set? && l.key == pc.key))
         && forall e | IsEffect(pc, e) :: IsEffect(pc', e)
       else if Done(pc') then IsEffect(pc', l)
       else l.Silent?
  }

  /** A step of a call carries it on, or returns from a call that is done. */
  lemma StepOfCall(h: Key -> nat, s: State, t: nat, a: Act)
    requires Shape(s) && Enabled(h, s, t, a) && !s.threads[t].Idle?
    ensures var r, pc := Exec(h, s, t, a), s.threads[t];
            && t < |r.0.threads|
            && if r.0.threads[t].Idle? then Done(pc) && r.1.Silent? else CallStep(pc, r.0.threads[t], r.1)
  {
    hide S.Slot, S.Divides, ExecFind, ExecWalk, ExecRecheck, ExecMove;
    var pc := s.threads[t];
    match pc {
      case FindWalk(k, b, j) => WalkOfCall(s, t, k, b, j);
      case BucketWalk(k, b, j) => WalkOfCall(s, t, k, b, j);
      case Recheck(k) => RehashOfCall(h, s, t, k, 0);
      case Moving(k, i) => RehashOfCall(h, s, t, k, i);
      case _ =>
    }
  }

  lemma WalkOfCall(s: State, t: nat, k: Key, b: nat, j: nat)
    requires Shape(s) && t < |s.threads|
    ensures var r := ExecFind(s, t, k, b, j);
            t < |r.0.threads| && CallStep(FindWalk(k, b, j), r.0.threads[t], r.1)
    ensures var r := ExecWalk(s, t, k, b, j);
            t < |r.0.threads| && CallStep(BucketWalk(k, b, j), r.0.threads[t], r.1)
  {
    hide Spliced;
  }

  lemma RehashOfCall(h: Key -> nat, s: State, t: nat, k: Key, i: nat)
    requires Shape(s) && t < |s.threads|
    ensures var r := ExecRecheck(s, t, k); t < |r.0.threads| && CallStep(Recheck(k), r.0.threads[t], r.1)
    ensures s.threads[t] == Moving(k, i) ==>
              var r := ExecMove(h, s, t, k, i); t < |r.0.threads| && CallStep(Moving(k, i), r.0.threads[t], r.1)
  {
    hide S.Slot, Spliced, Seat;
  }

  lemma StepOfOther(h: Key -> nat, s: State, t: nat, a: Act, u: nat)
    requires Shape(s) && Enabled(h, s, t, a) && u < |s.threads| && u != t
    ensures var r := Exec(h, s, t, a); |r.0.threads| == |s.threads| && r.0.threads[u] == s.threads[u]
  {
    hide Exec, Enabled;
    ExecThreads(h, s, t, a);
  }

  /** Thread t has been in the call it starts with step i ever since. */
  ghost predicate InCall(h: Key -> nat, states: seq<State>, events: seq<Event>, t: nat, i: nat, n: nat) {
    && Run(h, states, events) && i < n <= |events|
    && events[i].thread == t && (events[i].act.Find? || events[i].act.FindBucket?)
    && forall m | i < m <= n :: t < |states[m].threads| && !states[m].threads[t].Idle?
  }

  /** Step m is not one of thread t, or does nothing to the map but what the
      holder of key k writes to it after step j. */
  ghost predicate Aside(h: Key -> nat, states: seq<State>, events: seq<Event>, t: nat, k: Key, j: nat, find: bool,
                        m: nat)
    requires Run(h, states, events) && m < |events|
  {
    var l := LabelAt(h, states, events, m);
    events[m].thread != t || l.Silent? || (!find && m > j && l.Set? && l.key == k)
  }

  /** Step j is the one in which the call took effect, if it is done. Before it
      the call does nothing to the map; after it only a holder writes, and only
      to its key. */
  ghost predicate EffectAt(h: Key -> nat, states: seq<State>, events: seq<Event>, t: nat, i: nat, n: nat, j: nat)
    requires InCall(h, states, events, t, i, n)
  {
    var pc, k := states[n].threads[t], events[i].act.key;
    && pc.key == k && InFind(pc) == events[i].act.Find? && i < j <= n && (j < n <==> Done(pc))
    && (j < n ==> events[j].thread == t && IsEffect(pc, LabelAt(h, states, events, j)))
    && (forall m | i <= m < n && m != j :: Aside(h, states, events, t, k, j, InFind(pc), m))
  }

  lemma CallStarts(h: Key -> nat, states: seq<State>, events: seq<Event>, t: nat, i: nat)
    requires InCall(h, states, events, t, i, i + 1)
    ensures EffectAt(h, states, events, t, i, i + 1, i + 1)
  {
    hide Inv;
    assert states[i + 1] == Exec(h, states[i], t, events[i].act).0;
    assert states[i].threads[t].Idle?;
  }

  lemma CallGoesOn(h: Key -> nat, states: seq<State>, events: seq<Event>, t: nat, i: nat, n: nat, j: nat)
    returns (j': nat)
    requires InCall(h, states, events, t, i, n + 1) && i < n && EffectAt(h, states, events, t, i, n, j)
    ensures EffectAt(h, states, events, t, i, n + 1, j') && (j < n ==> j' == j)
  {
    hide Exec, Enabled, IsEffect;
    var pc, pc' := states[n].threads[t], states[n + 1].threads[t];
    var u, a := events[n].thread, events[n].act;
    assert states[n + 1] == Exec(h, states[n], u, a).0;
    if u != t {
      StepOfOther(h, states[n], u, a, t);
      j' := if j < n then j else n + 1;
    } else {
      StepOfCall(h, states[n], t, a);
      j' := if j < n then j else if Done(pc') then n else n + 1;
    }
    forall m | i <= m < n + 1 && m != j'
      ensures Aside(h, states, events, t, events[i].act.key, j', InFind(pc'), m)
    {
      if m < n {
        assert Aside(h, states, events, t, events[i].act.key, j, InFind(pc), m);
      }
    }
  }

  /** Every call takes effect in exactly one of its steps, and a find returns
      what the map holds for its key at that step. */
  lemma {:induction false} CallTakesEffect(h: Key -> nat, states: seq<State>, events: seq<Event>,
                                           t: nat, i: nat, n: nat)
    returns (j: nat)
    requires InCall(h, states, events, t, i, n)
    ensures EffectAt(h, states, events, t, i, n, j)
    ensures var pc := states[n].threads[t]; pc.FindExit? ==> pc.result == At(Replay(h, states, events, j), pc.key)
    decreases n
  {
    hide EffectAt, Run, LabelAt;
    if n == i + 1 {
      CallStarts(h, states, events, t, i);
      j := n;
    } else {
      var j' := CallTakesEffect(h, states, events, t, i, n - 1);
      j := CallGoesOn(h, states, events, t, i, n - 1, j');
    }
    EffectIs(h, states, events, t, i, n, j);
  }

  /** The answer of a find is that of the map at the step of its effect. */
  lemma EffectIs(h: Key -> nat, states: seq<State>, events: seq<Event>, t: nat, i: nat, n: nat, j: nat)
    requires InCall(h, states, events, t, i, n) && EffectAt(h, states, events, t, i, n, j)
    ensures var pc := states[n].threads[t]; pc.FindExit? ==> pc.result == At(Replay(h, states, events, j), pc.key)
  {
    hide Aside, Inv, Represents, Run, LabelAt;
    if j < n {
      RunRefines(h, states, events, j);
    }
  }

  /** A call returns only once it has taken effect. */
  lemma CallReturns(h: Key -> nat, states: seq<State>, events: seq<Event>, t: nat, i: nat, n: nat) returns (j: nat)
    requires InCall(h, states, events, t, i, n) && n < |events| && t < |states[n + 1].threads|
    requires states[n + 1].threads[t].Idle?
    ensures i < j < n && EffectAt(h, states, events, t, i, n, j)
    ensures events[n].thread == t && LabelAt(h, states, events, n).Silent?
  {
    hide Exec, Enabled;
    j := CallTakesEffect(h, states, events, t, i, n);
    var u, a := events[n].thread, events[n].act;
    assert states[n + 1] == Exec(h, states[n], u, a).0;
    if u != t {
      StepOfOther(h, states[n], u, a, t);
    } else {
      StepOfCall(h, states[n], t, a);
    }
  }

  // ------------------------------------------------------- locks and deadlock

  /** The next step of a thread here reads or writes bucket i. */
  predicate Touches(pc: Pc, i: nat) {
    pc.Moving? || (UsesBucket(pc) && pc.bucket == i)
  }

  /** In every reachable state L divides N, and whoever is at work on bucket i
      holds lock i % L. */
  lemma Guarded(h: Key -> nat, states: seq<State>, events: seq<Event>, n: nat, t: nat, i: nat)
    requires Run(h, states, events) && n <= |events|
    ensures var s := states[n];
            && s.L == |s.locks| > 0 && s.N % s.L == 0 && |s.buckets| % s.L == 0
            && (t < |s.threads| && i < |s.buckets| && Touches(s.threads[t], i) ==> s.locks[i % s.L] == Some(t))
  {
    RunRefines(h, states, events, n);
    GuardedAt(h, states[n], t, i);
  }

  lemma GuardedAt(h: Key -> nat, s: State, t: nat, i: nat)
    requires Inv(h, s)
    ensures s.L > 0 && s.N % s.L == 0 && |s.buckets| % s.L == 0
    ensures t < |s.threads| && i < |s.buckets| && Touches(s.threads[t], i) ==> s.locks[S.Slot(i, s.L)] == Some(t)
  {
    S.DividesDouble(s.L, |s.buckets|);
    hide S.Slot, AllProper, Get, Attended;
    if t < |s.threads| && i < |s.buckets| && Touches(s.threads[t], i) {
      LocalAt(h, s, t);
      var pc := s.threads[t];
      if !pc.Moving? {
        LockOfBucket(h(pc.key), s.N, s.L);
      }
      assert Owns(h, s, pc, S.Slot(i, s.L));
      hide Local, Tables;
    }
  }

  /** A step that changes a bucket, or the table itself, is taken by the
      holder of its lock, or of all locks. */
  lemma OnlyHoldersWrite(h: Key -> nat, s: State, t: nat, a: Act, i: nat)
    requires Inv(h, s) && Enabled(h, s, t, a) && i < |s.buckets|
    ensures var s' := Exec(h, s, t, a).0;
            && (|s'.buckets| == |s.buckets| && s'.buckets[i] != s.buckets[i] ==> s.locks[S.Slot(i, s.L)] == Some(t))
            && (|s'.buckets| != |s.buckets| || s'.N != s.N || s'.grown != s.grown ==>
                  forall l | 0 <= l < s.L :: s.locks[l] == Some(t))
  {
    hide S.Slot, S.Divides, Spliced, Inv;
    InvShape(h, s);
    var pc := s.threads[t];
    if pc.Moving? || pc.Recheck? {
      AllHeld(h, s, t);
    } else if UsesBucket(pc) && pc.bucket == i {
      GuardedAt(h, s, t, i);
    } else {
      ElsewhereKept(h, s, t, a, i);
    }
  }

  lemma AllHeld(h: Key -> nat, s: State, t: nat)
    requires Inv(h, s) && t < |s.threads| && (s.threads[t].Moving? || s.threads[t].Recheck?)
    ensures forall l | 0 <= l < s.L :: s.locks[l] == Some(t)
  {
    hide S.Slot, S.Divides, AllProper, Get, Attended, Local, Tables;
    forall l | 0 <= l < s.L
      ensures s.locks[l] == Some(t)
    {
      assert Owns(h, s, s.threads[t], l);
    }
  }

  lemma ElsewhereKept(h: Key -> nat, s: State, t: nat, a: Act, i: nat)
    requires Shape(s) && Enabled(h, s, t, a) && i < |s.buckets|
    requires var pc := s.threads[t]; !pc.Moving? && !pc.Recheck? && !(UsesBucket(pc) && pc.bucket == i)
    ensures var s' := Exec(h, s, t, a).0;
            |s'.buckets| == |s.buckets| && s'.buckets[i] == s.buckets[i] && s'.N == s.N && s'.grown == s.grown
  {
    hide S.Slot, Spliced;
  }

  /** While any call is in progress, some call can take a step: waiting only
      ever leads to a thread that waits for a higher lock. */
  lemma {:induction false} Progress(h: Key -> nat, s: State, t: nat) returns (u: nat)
    requires Inv(h, s) && t < |s.threads| && !s.threads[t].Idle?
    ensures u < |s.threads| && !s.threads[u].Idle? && Enabled(h, s, u, Go)
    decreases s.L - (if s.threads[t].LockAll? then s.threads[t].next else 0)
  {
    hide S.Slot, S.Divides, AllProper, Get, Attended, Tables;
    if Enabled(h, s, t, Go) {
      return t;
    }
    var pc := s.threads[t];
    var l := if pc.LockAll? then pc.next else LockFor(s, h, pc.key);
    var v := s.locks[l].value;
    assert Owns(h, s, s.threads[v], l);
    if Enabled(h, s, v, Go) {
      return v;
    }
    LocalAt(h, s, v);
    u := Progress(h, s, v);
  }

  /** No reachable state is stuck. */
  lemma NoDeadlock(h: Key -> nat, states: seq<State>, events: seq<Event>, n: nat, t: nat)
    requires Run(h, states, events) && n <= |events| && t < |states[n].threads| && !states[n].threads[t].Idle?
    ensures var s := states[n];
            Shape(s) && exists u | 0 <= u < |s.threads| && !s.threads[u].Idle? :: Enabled(h, s, u, Go)
  {
    RunRefines(h, states, events, n);
    var u := Progress(h, states[n], t);
  }
}
