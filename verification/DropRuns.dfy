/** Runs of the dropper that end badly: each failure that the lemmas of
    `Dropper` describe is reached from an empty storage. */
module DropRuns {
  import opened Measurements
  import opened Streams
  import opened Dropper

  /** Some run of a new storage ends in s. */
  ghost predicate Reached(s: State) {
    exists states, actions :: Execution(states, actions) && states[|actions|] == s
  }

  lemma ReachedStart()
    ensures Reached(State(EMPTY, Up(IDLE), map[]))
  {
    assert Execution([State(EMPTY, Up(IDLE), map[])], []);
  }

  lemma ReachedNext(s: State, a: Action)
    requires Reached(s) && Can(s, a)
    ensures Reached(Do(s, a))
  {
    hide Can, Do;
    var states, actions :| Execution(states, actions) && states[|actions|] == s;
    var states', actions' := states + [Do(s, a)], actions + [a];
    forall i | 0 <= i < |actions'|
      ensures Can(states'[i], actions'[i]) && states'[i + 1] == Do(states'[i], actions'[i])
    {
      assert states'[i] == states[i];
    }
    assert Execution(states', actions') && states'[|actions'|] == Do(s, a);
  }

  /** The memory while the drop of f is at some stage. */
  function Busy(f: Stem, stage: Stage): Phase {
    Up(Memory([f], Posted(f), Worker, 1, Some(Task(f, stage))))
  }

  lemma StartDrop(s: State, f: Stem)
    requires Reached(s) && s.phase == Up(IDLE) && f in s.disk.wals
    ensures Reached(s.(phase := Busy(f, Reading)))
  {
    hide Reached;
    ReachedNext(s, InMemory(DropWal(f)));
    assert IDLE.queue + [f] == [f];
    var s1 := s.(phase := Up(IDLE.(queue := [f])));
    assert s1 == Do(s, InMemory(DropWal(f)));
    ReachedNext(s1, InMemory(Take));
    var s2 := s.(phase := Up(Memory([f], Taken(f), Nobody, 0, None)));
    assert s2 == Do(s1, InMemory(Take));
    ReachedNext(s2, InMemory(TryLock));
    var s3 := s.(phase := Up(Memory([f], Locked(f), Worker, 0, None)));
    assert s3 == Do(s2, InMemory(TryLock));
    ReachedNext(s3, InMemory(Post));
    assert s.(phase := Busy(f, Reading)) == Do(s3, InMemory(Post));
  }

  lemma StageNext(s: State, f: Stem, stage: Stage, op: StageOp)
    requires Reached(s) && s.phase == Busy(f, stage) && CanStage(s.disk, Task(f, stage), op)
    ensures var r := Work(s.disk, Task(f, stage), op); Reached(State(r.0, Busy(f, r.1), s.batches))
  {
    hide Reached, CanStage, Work;
    ReachedNext(s, OnDisk(op));
  }

  /** From a WAL to the open page and index files. */
  lemma OpenFiles(s: State, f: Stem, cs: seq<seq<Meas>>)
    requires Reached(s) && s.phase == Busy(f, Reading) && f in s.disk.wals && SortedCopy(Concat(cs), s.disk.wals[f])
    ensures var d := s.disk.(pages := Put(s.disk.pages, f, []), indexes := Put(s.disk.indexes, f, []));
            Reached(State(d, Busy(f, Writing(cs, 0, 0)), s.batches))
  {
    hide Reached, SortedCopy, Concat, Put, Busy;
    var ms := Concat(cs);
    StageNext(s, f, Reading, Read);
    var s1 := s.(phase := Busy(f, Sorting(s.disk.wals[f])));
    StageNext(s1, f, Sorting(s.disk.wals[f]), Sort(ms));
    var s2 := s.(phase := Busy(f, Compressing(ms)));
    StageNext(s2, f, Compressing(ms), OpenPage(cs));
    var s3 := s.(disk := s.disk.(pages := Put(s.disk.pages, f, [])), phase := Busy(f, OpeningIndex(cs)));
    StageNext(s3, f, OpeningIndex(cs), OpenIndex);
  }

  /** From the open files of a page of two chunks to both chunks and records. */
  lemma WriteBatch(s: State, f: Stem, cs: seq<seq<Meas>>, st: seq<IndexItem>)
    requires Reached(s) && s.phase == Busy(f, Writing(cs, 0, 0)) && |cs| == 2
    requires f in s.disk.pages && s.disk.pages[f] == [] && f in s.disk.indexes && s.disk.indexes[f] == st
    ensures var d := s.disk.(pages := s.disk.pages[f := Items(cs)], indexes := s.disk.indexes[f := st + Records(0, 2)]);
            Reached(State(d, Busy(f, Writing(cs, 2, 2)), s.batches))
  {
    hide Reached, SortedCopy, Concat, Busy, Records, Put;
    var d := s.disk;
    var p0 := [PageChunk(cs[0])];
    assert d.pages == d.pages[f := []] && d.indexes == d.indexes[f := st];
    StageNext(s, f, Writing(cs, 0, 0), WriteChunk);
    PutThen(d.pages, f, [], p0, p0);
    var d1 := d.(pages := d.pages[f := p0]);
    StageNext(State(d1, Busy(f, Writing(cs, 1, 0)), s.batches), f, Writing(cs, 1, 0), WriteChunk);
    assert p0 + [PageChunk(cs[1])] == Items(cs);
    PutThen(d.pages, f, p0, [PageChunk(cs[1])], Items(cs));
    var d2 := d.(pages := d.pages[f := Items(cs)]);
    StageNext(State(d2, Busy(f, Writing(cs, 2, 0)), s.batches), f, Writing(cs, 2, 0), WriteRecords);
    PutThen(d.indexes, f, st, Records(0, 2), st + Records(0, 2));
  }

  /** ... and to the finished ones. */
  lemma WriteFiles(s: State, f: Stem, cs: seq<seq<Meas>>, st: seq<IndexItem>)
    requires Reached(s) && s.phase == Busy(f, Writing(cs, 0, 0)) && |cs| == 2
    requires f in s.disk.pages && s.disk.pages[f] == [] && f in s.disk.indexes && s.disk.indexes[f] == st
    ensures var d := s.disk.(pages := s.disk.pages[f := PageOf(cs)],
                             indexes := s.disk.indexes[f := st + Records(0, 2) + [IndexFooter(2)]]);
            Reached(State(d, Busy(f, Listing), s.batches))
  {
    hide Reached, SortedCopy, Concat, Busy, Records, Put, Items;
    WriteBatch(s, f, cs, st);
    var d, i2 := s.disk, st + Records(0, 2);
    var d3 := d.(pages := d.pages[f := Items(cs)], indexes := d.indexes[f := i2]);
    StageNext(State(d3, Busy(f, Writing(cs, 2, 2)), s.batches), f, Writing(cs, 2, 2), WritePageFooter);
    PutThen(d.pages, f, Items(cs), [PageFooter(2)], PageOf(cs));
    var d4 := d3.(pages := d.pages[f := PageOf(cs)]);
    StageNext(State(d4, Busy(f, IndexFooting(cs)), s.batches), f, IndexFooting(cs), WriteIndexFooter);
    PutThen(d.indexes, f, i2, [IndexFooter(2)], i2 + [IndexFooter(2)]);
  }

  lemma PutThen<V>(m: map<Stem, seq<V>>, f: Stem, a: seq<V>, more: seq<V>, b: seq<V>)
    requires b == a + more
    ensures Put(m[f := a], f, more) == m[f := b]
  {
  }

  lemma PutNew<V>(m: map<Stem, seq<V>>, f: Stem, more: seq<V>)
    ensures f !in m ==> Put(m, f, more) == m[f := more]
    ensures f in m && more == [] ==> Put(m, f, more) == m
  {
    assert [] + more == more;
    if f in m && more == [] {
      assert m[f] + more == m[f];
      assert m[f := m[f]] == m;
    }
  }

  const BATCH := [Meas(1, 1, 0, 0), Meas(1, 2, 0, 0)]
  const CHUNKS := [[Meas(1, 1, 0, 0)], [Meas(1, 2, 0, 0)]]

  /** One WAL of two measurements, and perhaps an index file of its stem. */
  function OneWal(indexes: map<Stem, seq<IndexItem>>): Disk {
    Disk(map[0 := BATCH], map[], indexes, {0}, {})
  }

  lemma BatchSplits()
    ensures SortedCopy(Concat(CHUNKS), BATCH)
  {
    assert Concat(CHUNKS) == CHUNKS[0] + Concat(CHUNKS[1..])
           && Concat(CHUNKS[1..]) == CHUNKS[1] + Concat(CHUNKS[1..][1..]);
    assert Concat(CHUNKS) == BATCH;
  }

  lemma WalReached()
    ensures Reached(State(OneWal(map[]), Up(IDLE), map[0 := BATCH]))
  {
    hide Reached;
    ReachedStart();
    var s0 := State(EMPTY, Up(IDLE), map[]);
    ReachedNext(s0, ListWal(0));
    var s1 := State(EMPTY.(walList := {0}), Up(IDLE), map[]);
    assert s1 == Do(s0, ListWal(0));
    ReachedNext(s1, Append(0, BATCH[0]));
    PutNew<Meas>(map[], 0, [BATCH[0]]);
    var s2 := State(s1.disk.(wals := map[0 := [BATCH[0]]]), Up(IDLE), map[0 := [BATCH[0]]]);
    assert s2 == Do(s1, Append(0, BATCH[0]));
    ReachedNext(s2, Append(0, BATCH[1]));
    PutThen(map[], 0, [BATCH[0]], [BATCH[1]], BATCH);
    assert Do(s2, Append(0, BATCH[1])) == State(OneWal(map[]), Up(IDLE), map[0 := BATCH]);
  }

  /** The drop of that WAL up to the open files ... */
  lemma OpenReached(indexes: map<Stem, seq<IndexItem>>, st: seq<IndexItem>)
    requires Reached(State(OneWal(indexes), Up(IDLE), map[0 := BATCH]))
    requires st == if 0 in indexes then indexes[0] else []
    ensures var d := OneWal(indexes[0 := st]).(pages := map[0 := []]);
            Reached(State(d, Busy(0, Writing(CHUNKS, 0, 0)), map[0 := BATCH]))
  {
    hide Reached, SortedCopy, Concat;
    var s := State(OneWal(indexes), Up(IDLE), map[0 := BATCH]);
    StartDrop(s, 0);
    BatchSplits();
    OpenFiles(s.(phase := Busy(0, Reading)), 0, CHUNKS);
    PutNew<PageItem>(map[], 0, []);
    PutNew(indexes, 0, []);
    assert 0 in indexes ==> indexes[0 := st] == indexes;
  }

  /** ... and up to the finished page. */
  lemma PageReached(indexes: map<Stem, seq<IndexItem>>, st: seq<IndexItem>)
    requires Reached(State(OneWal(indexes), Up(IDLE), map[0 := BATCH]))
    requires st == if 0 in indexes then indexes[0] else []
    ensures var ix := indexes[0 := st + Records(0, 2) + [IndexFooter(2)]];
            Reached(State(OneWal(ix).(pages := map[0 := PageOf(CHUNKS)]), Busy(0, Listing), map[0 := BATCH]))
  {
    hide Reached, Records, SortedCopy, Concat, PageOf;
    OpenReached(indexes, st);
    var d := OneWal(indexes[0 := st]).(pages := map[0 := []]);
    WriteFiles(State(d, Busy(0, Writing(CHUNKS, 0, 0)), map[0 := BATCH]), 0, CHUNKS, st);
    assert d.indexes[0 := st + Records(0, 2) + [IndexFooter(2)]] == indexes[0 := st + Records(0, 2) + [IndexFooter(2)]];
    assert d.pages[0 := PageOf(CHUNKS)] == map[0 := PageOf(CHUNKS)];
  }

  /** The finished page listed, the WAL not yet unlisted. */
  lemma ListedReached(indexes: map<Stem, seq<IndexItem>>)
    requires Reached(State(OneWal(indexes).(pages := map[0 := PageOf(CHUNKS)]), Busy(0, Listing), map[0 := BATCH]))
    ensures var d := OneWal(indexes).(pages := map[0 := PageOf(CHUNKS)], pageList := {0});
            Reached(State(d, Busy(0, Unlisting), map[0 := BATCH]))
  {
    hide Reached, PageOf;
    var d := OneWal(indexes).(pages := map[0 := PageOf(CHUNKS)]);
    StageNext(State(d, Busy(0, Listing), map[0 := BATCH]), 0, Listing, ListPage);
    assert d.pageList + {0} == {0};
  }

  /** ... and the WAL unlisted, but not yet removed. */
  lemma UnlistedReached(indexes: map<Stem, seq<IndexItem>>)
    requires Reached(State(OneWal(indexes).(pages := map[0 := PageOf(CHUNKS)]), Busy(0, Listing), map[0 := BATCH]))
    ensures var d := OneWal(indexes).(pages := map[0 := PageOf(CHUNKS)], pageList := {0}, walList := {});
            Reached(State(d, Busy(0, Removing), map[0 := BATCH]))
  {
    ListedReached(indexes);
    hide Reached, PageOf;
    var d := OneWal(indexes).(pages := map[0 := PageOf(CHUNKS)], pageList := {0});
    StageNext(State(d, Busy(0, Unlisting), map[0 := BATCH]), 0, Unlisting, UnlistWal);
    assert d.walList - {0} == {};
  }

  lemma RunTo(s: State) returns (states: seq<State>, actions: seq<Action>)
    requires Reached(s)
    ensures Execution(states, actions) && states[|actions|] == s
  {
    states, actions :| Execution(states, actions) && states[|actions|] == s;
  }

  /** A run after which recovery leaves a batch in a WAL that nothing lists. */
  lemma OrphanRun() returns (states: seq<State>, actions: seq<Action>)
    ensures Execution(states, actions) && states[|actions|].phase.Down?
    ensures var s, d := states[|actions|], Recovered(states[|actions|].disk);
            && 0 in s.batches && 0 in d.wals && 0 !in d.walList && 0 !in d.pages && !AllListed(d, s.batches)
  {
    hide Reached, Records, PageOf;
    WalReached();
    PageReached(map[], []);
    var ix: map<Stem, seq<IndexItem>> := map[0 := [] + Records(0, 2) + [IndexFooter(2)]];
    assert map[][0 := [] + Records(0, 2) + [IndexFooter(2)]] == ix;
    UnlistedReached(ix);
    var d := OneWal(ix).(pages := map[0 := PageOf(CHUNKS)], pageList := {0}, walList := {});
    var s := State(d, Busy(0, Removing), map[0 := BATCH]);
    ReachedNext(s, Crash(0, 0));
    states, actions := RunTo(s.(phase := Down));
  }

  /** A run after which the first start fails: the manifest lists a page that
      the clean-up erases. */
  lemma FailedOpenRun() returns (states: seq<State>, actions: seq<Action>)
    ensures Execution(states, actions) && states[|actions|].phase.Down?
    ensures !Opens(Recovered(states[|actions|].disk))
  {
    hide Reached, Records, PageOf;
    WalReached();
    PageReached(map[], []);
    var ix: map<Stem, seq<IndexItem>> := map[0 := [] + Records(0, 2) + [IndexFooter(2)]];
    assert map[][0 := [] + Records(0, 2) + [IndexFooter(2)]] == ix;
    ListedReached(ix);
    var d := OneWal(ix).(pages := map[0 := PageOf(CHUNKS)], pageList := {0});
    var s := State(d, Busy(0, Unlisting), map[0 := BATCH]);
    ReachedNext(s, Crash(0, 0));
    OpensAfterRecovery(d);
    assert 0 in d.wals && 0 in d.pages && 0 in d.pageList;
    states, actions := RunTo(s.(phase := Down));
  }

  /** A crash in the middle of a drop, before the footers are written, that
      leaves one chunk of two and one record of two. */
  lemma TornReached()
    ensures var d := OneWal(map[0 := [IndexRecord(0)]]).(pages := map[0 := [PageChunk(CHUNKS[0])]]);
            Reached(State(d, Down, map[0 := BATCH]))
  {
    hide Reached;
    WalReached();
    OpenReached(map[], []);
    var b := map[0 := BATCH];
    var d0 := OneWal(map[0 := []]).(pages := map[0 := []]);
    assert d0.indexes == map[][0 := []];
    WriteBatch(State(d0, Busy(0, Writing(CHUNKS, 0, 0)), b), 0, CHUNKS, []);
    var p, r := Items(CHUNKS), Records(0, 2);
    var d := OneWal(map[0 := r]).(pages := map[0 := p]);
    assert [] + r == r && d0.pages[0 := p] == d.pages && d0.indexes[0 := r] == d.indexes;
    ReachedNext(State(d, Busy(0, Writing(CHUNKS, 2, 2)), b), Crash(1, 1));
    TornTo(0, p, 1, [PageChunk(CHUNKS[0])]);
    TornTo(0, r, 1, [IndexRecord(0)]);
  }

  lemma TornTo<V>(f: Stem, s: seq<V>, k: nat, r: seq<V>)
    requires k <= |s| && r == s[..k]
    ensures Torn(map[f := s], f, k) == map[f := r]
  {
  }

  /** The page erased, and a crash before its index is: the storage opens again
      with the WAL and the stale index. */
  lemma StaleReached()
    ensures Reached(State(OneWal(map[0 := [IndexRecord(0)]]), Up(IDLE), map[0 := BATCH]))
  {
    hide Reached;
    TornReached();
    var b, clean := map[0 := BATCH], OneWal(map[0 := [IndexRecord(0)]]);
    var d := clean.(pages := map[0 := [PageChunk(CHUNKS[0])]]);
    assert Restored(d) == d && Restored(clean) == clean;
    ReachedNext(State(d, Down, b), Restart([0]));
    ReachedNext(State(d, Cleaning([0], false), b), CleanPage);
    assert d.pages - {0} == map[];
    ReachedNext(State(clean, Cleaning([0], true), b), Crash(0, 0));
    ReachedNext(State(clean, Down, b), Restart([]));
    ReachedNext(State(clean, Cleaning([], false), b), Open);
  }

  /** A run after which a finished page, its WAL gone, is not read in full: the
      second chunk is not found through the index. */
  lemma LostChunkRun() returns (states: seq<State>, actions: seq<Action>)
    ensures Execution(states, actions)
    ensures var s := states[|actions|];
            && 0 in s.batches && 0 !in s.disk.wals && 0 in s.disk.pages && 0 in s.disk.indexes
            && s.disk.pages[0] == PageOf(CHUNKS) && Complete(s.disk.pages[0], s.batches[0])
            && ReadIndex(s.disk.indexes[0]) != Some(Records(0, 2))
  {
    hide Reached, PageOf, ReadIndex, Records, SortedCopy, Concat;
    var st := [IndexRecord(0)];
    StaleReached();
    PageReached(map[0 := st], st);
    var ix := map[0 := st + Records(0, 2) + [IndexFooter(2)]];
    assert map[0 := st][0 := st + Records(0, 2) + [IndexFooter(2)]] == ix;
    UnlistedReached(ix);
    var d := OneWal(ix).(pages := map[0 := PageOf(CHUNKS)], pageList := {0}, walList := {});
    StageNext(State(d, Busy(0, Removing), map[0 := BATCH]), 0, Removing, RemoveWal);
    IndexReadable(st, 2);
    NotRecords();
    BatchSplits();
    states, actions := RunTo(State(d.(wals := d.wals - {0}), Busy(0, Finishing), map[0 := BATCH]));
  }

  lemma NotRecords()
    ensures !(Records(0, 2) <= [IndexRecord(0)])
  {
  }
}
