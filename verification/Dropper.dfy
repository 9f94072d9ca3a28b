/** Turning write-ahead logs into pages: the dropper's worker and its chain of
    asynchronous stages, the storage lock, the files and the manifest on disk,
    crashes at any moment and the clean-up at start. A WAL and the page made
    from it have the same stem, the file name without extension. */
module Dropper {
  import opened Measurements
  import opened Streams

  type Stem = nat

  /** A page file: chunks, then a footer. */
  datatype PageItem = PageChunk(ms: seq<Meas>) | PageFooter(chunks: nat)

  /** An index file: one record per chunk, then a footer. */
  datatype IndexItem = IndexRecord(chunk: nat) | IndexFooter(records: nat)

  datatype Disk = Disk(wals: map<Stem, seq<Meas>>, pages: map<Stem, seq<PageItem>>, indexes: map<Stem, seq<IndexItem>>,
                       walList: set<Stem>, pageList: set<Stem>)

  /** What the asynchronous task will do next. */
  datatype Stage =
    | Reading
    | Sorting(ms: seq<Meas>)
    | Compressing(ms: seq<Meas>)
    | OpeningIndex(cs: seq<seq<Meas>>)
    | Writing(cs: seq<seq<Meas>>, done: nat, indexed: nat)
    | IndexFooting(cs: seq<seq<Meas>>)
    | Listing
    | Unlisting
    | Removing
    | Finishing

  datatype Task = Task(file: Stem, stage: Stage)

  datatype WorkerPc = Waiting | Taken(file: Stem) | Locked(file: Stem) | Posted(file: Stem) | Popped

  datatype Holder = Nobody | Worker | Reader

  datatype Memory = Memory(queue: seq<Stem>, worker: WorkerPc, lock: Holder, active: nat, task: Option<Task>)

  datatype Phase = Down | Cleaning(todo: seq<Stem>, half: bool) | Up(mem: Memory)

  /** The files, the process, and what clients have stored so far by WAL. */
  datatype State = State(disk: Disk, phase: Phase, batches: map<Stem, seq<Meas>>)

  /** The stages of one drop, in order. */
  datatype StageOp =
    | Read | Sort(ms: seq<Meas>) | OpenPage(cs: seq<seq<Meas>>) | OpenIndex | WriteChunk | WriteRecords
    | WritePageFooter | WriteIndexFooter | ListPage | UnlistWal | RemoveWal

  /** What callers, the worker thread and readers do in memory. */
  datatype MemoryOp = DropWal(file: Stem) | Take | TryLock | Post | Finish | Pop | Unlock | LockStorage | UnlockStorage

  datatype Action =
    | ListWal(file: Stem) | Append(file: Stem, m: Meas) | InMemory(mop: MemoryOp) | OnDisk(sop: StageOp)
    | Crash(page: nat, index: nat) | Restart(todo: seq<Stem>) | CleanPage | CleanIndex | Open

  /** Chunks written between two writes to the index. */
  const BATCH_SIZE := 10

  // -------------------------------------------------------------------- files

  function Items(cs: seq<seq<Meas>>): seq<PageItem> {
    seq(|cs|, i requires 0 <= i < |cs| => PageChunk(cs[i]))
  }

  function PageOf(cs: seq<seq<Meas>>): seq<PageItem> {
    Items(cs) + [PageFooter(|cs|)]
  }

  function Records(from: nat, to: nat): seq<IndexItem>
    requires from <= to
  {
    seq(to - from, i requires 0 <= i < to - from => IndexRecord(from + i))
  }

  ghost predicate SortedCopy(ma: seq<Meas>, ms: seq<Meas>) {
    Nondecreasing(ma) && multiset(ma) == multiset(ms)
  }

  /** A finished page holding exactly the measurements ms, in time order. */
  ghost predicate Complete(p: seq<PageItem>, ms: seq<Meas>) {
    exists cs :: p == PageOf(cs) && SortedCopy(Concat(cs), ms)
  }

  /** A page without its footer is never taken for a finished one. */
  lemma PartialIsNotComplete(cs: seq<seq<Meas>>, n: nat, ms: seq<Meas>)
    requires n <= |cs|
    ensures !Complete(PageOf(cs)[..n], ms)
  {
    var p := PageOf(cs)[..n];
    assert forall i | 0 <= i < n :: p[i] == PageChunk(cs[i]);
    forall ds
      ensures p != PageOf(ds)
    {
      assert PageOf(ds)[|ds|] == PageFooter(|ds|);
    }
  }

  // -------------------------------------------------------------------- steps

  /** The pages that have a WAL of the same stem, in the order listed. */
  ghost predicate IsWorkList(todo: seq<Stem>, d: Disk) {
    && (forall i, j | 0 <= i < j < |todo| :: todo[i] != todo[j])
    && (forall f :: f in todo <==> f in d.wals && f in d.pages)
  }

  predicate CanMemory(m: Memory, op: MemoryOp) {
    match op
    case DropWal(_) => true
    case Take => m.worker.Waiting? && m.queue != []
    case TryLock => m.worker.Taken? && m.lock.Nobody?
    case Post => m.worker.Locked?
    case Finish => m.active > 0 && m.task.Some? && m.task.value.stage.Finishing?
    case Pop => m.worker.Posted? && m.active == 0 && m.queue != []
    case Unlock => m.worker.Popped?
    case LockStorage => m.lock.Nobody?
    case UnlockStorage => m.lock.Reader?
  }

  ghost predicate CanStage(d: Disk, t: Task, op: StageOp) {
    match op
    case Read => t.stage.Reading? && t.file in d.wals
    case Sort(ms) => t.stage.Sorting? && SortedCopy(ms, t.stage.ms)
    case OpenPage(cs) => t.stage.Compressing? && Concat(cs) == t.stage.ms
    case OpenIndex => t.stage.OpeningIndex?
    case WriteChunk => t.stage.Writing? && t.stage.done < |t.stage.cs| && t.stage.done < t.stage.indexed + BATCH_SIZE
    case WriteRecords =>
      && t.stage.Writing? && t.stage.indexed < t.stage.done <= |t.stage.cs|
      && (t.stage.done == |t.stage.cs| || t.stage.done == t.stage.indexed + BATCH_SIZE)
    case WritePageFooter => t.stage.Writing? && t.stage.indexed == t.stage.done == |t.stage.cs|
    case WriteIndexFooter => t.stage.IndexFooting?
    case ListPage => t.stage.Listing?
    case UnlistWal => t.stage.Unlisting?
    case RemoveWal => t.stage.Removing?
  }

  ghost predicate Can(s: State, a: Action) {
    match a
    case ListWal(f) => s.phase.Up? && f !in s.batches && f !in s.disk.walList
    case Append(f, _) => s.phase.Up? && f in s.disk.walList && f !in s.phase.mem.queue
    case InMemory(op) => s.phase.Up? && CanMemory(s.phase.mem, op)
    case OnDisk(op) => s.phase.Up? && s.phase.mem.task.Some? && CanStage(s.disk, s.phase.mem.task.value, op)
    case Crash(_, _) => !s.phase.Down?
    case Restart(todo) => s.phase.Down? && IsWorkList(todo, s.disk)
    case CleanPage => s.phase.Cleaning? && s.phase.todo != [] && !s.phase.half
    case CleanIndex => s.phase.Cleaning? && s.phase.todo != [] && s.phase.half
    case Open => s.phase.Cleaning? && s.phase.todo == []
  }

  function Put<V>(m: map<Stem, seq<V>>, f: Stem, more: seq<V>): map<Stem, seq<V>> {
    m[f := (if f in m then m[f] else []) + more]
  }

  /** One stage's work on the files, and the stage after it. */
  ghost function Work(d: Disk, t: Task, op: StageOp): (Disk, Stage)
    requires CanStage(d, t, op)
  {
    var f := t.file;
    match op
    case Read => (d, Sorting(d.wals[f]))
    case Sort(ms) => (d, Compressing(ms))
    case OpenPage(cs) => (d.(pages := Put(d.pages, f, [])), OpeningIndex(cs))
    case OpenIndex => (d.(indexes := Put(d.indexes, f, [])), Writing(t.stage.cs, 0, 0))
    case WriteChunk =>
      (d.(pages := Put(d.pages, f, [PageChunk(t.stage.cs[t.stage.done])])), t.stage.(done := t.stage.done + 1))
    case WriteRecords =>
      (d.(indexes := Put(d.indexes, f, Records(t.stage.indexed, t.stage.done))), t.stage.(indexed := t.stage.done))
    case WritePageFooter => (d.(pages := Put(d.pages, f, [PageFooter(|t.stage.cs|)])), IndexFooting(t.stage.cs))
    case WriteIndexFooter => (d.(indexes := Put(d.indexes, f, [IndexFooter(|t.stage.cs|)])), Listing)
    case ListPage => (d.(pageList := d.pageList + {f}), Unlisting)
    case UnlistWal => (d.(walList := d.walList - {f}), Removing)
    case RemoveWal => (d.(wals := d.wals - {f}), Finishing)
  }

  function Think(d: Disk, m: Memory, op: MemoryOp): Memory
    requires CanMemory(m, op)
  {
    match op
    case DropWal(f) => if f in m.queue || f !in d.wals then m else m.(queue := m.queue + [f])
    case Take => m.(worker := Taken(m.queue[0]))
    case TryLock => m.(worker := Locked(m.worker.file), lock := Worker)
    case Post => m.(worker := Posted(m.worker.file), active := m.active + 1, task := Some(Task(m.worker.file, Reading)))
    case Finish => m.(task := None, active := m.active - 1)
    case Pop => m.(queue := m.queue[1..], worker := Popped)
    case Unlock => m.(worker := Waiting, lock := Nobody)
    case LockStorage => m.(lock := Reader)
    case UnlockStorage => m.(lock := Nobody)
  }

  const IDLE := Memory([], Waiting, Nobody, 0, None)

  function Torn<V>(m: map<Stem, seq<V>>, f: Stem, keep: nat): map<Stem, seq<V>> {
    if f in m && keep <= |m[f]| then m[f := m[f][..keep]] else m
  }

  /** The files a crash leaves: those still open may have lost their tails. */
  function AfterCrash(d: Disk, p: Phase, page: nat, index: nat): Disk {
    if p.Up? && p.mem.task.Some? && (p.mem.task.value.stage.Writing? || p.mem.task.value.stage.OpeningIndex?) then
      var f := p.mem.task.value.file;
      d.(pages := Torn(d.pages, f, page), indexes := Torn(d.indexes, f, index))
    else if p.Up? && p.mem.task.Some? && p.mem.task.value.stage.IndexFooting? then
      d.(indexes := Torn(d.indexes, p.mem.task.value.file, index))
    else d
  }

  /** The manifest forgets files that are gone. */
  function Restored(d: Disk): Disk {
    d.(walList := d.walList * d.wals.Keys, pageList := d.pageList * d.pages.Keys)
  }

  ghost function Do(s: State, a: Action): State
    requires Can(s, a)
  {
    match a
    case ListWal(f) => s.(disk := s.disk.(walList := s.disk.walList + {f}))
    case Append(f, m) => s.(disk := s.disk.(wals := Put(s.disk.wals, f, [m])), batches := Put(s.batches, f, [m]))
    case InMemory(op) => s.(phase := Up(Think(s.disk, s.phase.mem, op)))
    case OnDisk(op) =>
      var t := s.phase.mem.task.value;
      var r := Work(s.disk, t, op);
      s.(disk := r.0, phase := Up(s.phase.mem.(task := Some(Task(t.file, r.1)))))
    case Crash(page, index) => s.(disk := AfterCrash(s.disk, s.phase, page, index), phase := Down)
    case Restart(todo) => s.(disk := Restored(s.disk), phase := Cleaning(todo, false))
    case CleanPage =>
      s.(disk := s.disk.(pages := s.disk.pages - {s.phase.todo[0]}), phase := Cleaning(s.phase.todo, true))
    case CleanIndex =>
      s.(disk := s.disk.(indexes := s.disk.indexes - {s.phase.todo[0]}), phase := Cleaning(s.phase.todo[1..], false))
    case Open => s.(phase := Up(IDLE))
  }

  // ---------------------------------------------------------------- invariant

  /** No batch is ever lost: it is all in its WAL, or all in a finished page
      that the manifest lists. */
  ghost predicate Safe(d: Disk, batches: map<Stem, seq<Meas>>) {
    && (forall f | f in d.wals :: f in batches && d.wals[f] == batches[f])
    && (forall f | f in d.pages :: f in batches)
    && (forall f | f in batches && f !in d.wals ::
          f in d.pages && Complete(d.pages[f], batches[f]) && f in d.pageList && f !in d.walList)
  }

  /** Every batch is in a WAL or a page, and not in both. */
  ghost predicate Once(d: Disk, batches: map<Stem, seq<Meas>>) {
    forall f | f in batches ::
      || (f in d.wals && f !in d.pages && d.wals[f] == batches[f])
      || (f !in d.wals && f in d.pages && Complete(d.pages[f], batches[f]))
  }

  /** What has been done to the files by the time a stage begins. */
  ghost predicate StageOk(d: Disk, f: Stem, st: Stage, batch: seq<Meas>) {
    && (f in d.wals <==> !st.Finishing?)
    && match st {
         case Reading => f !in d.pages
         case Sorting(ms) => f !in d.pages && ms == batch
         case Compressing(ms) => f !in d.pages && SortedCopy(ms, batch)
         case OpeningIndex(cs) => f in d.pages && d.pages[f] == [] && SortedCopy(Concat(cs), batch)
         case Writing(cs, done, indexed) =>
           f in d.pages && indexed <= done <= |cs| && d.pages[f] == Items(cs[..done]) && SortedCopy(Concat(cs), batch)
         case Unlisting => f in d.pages && Complete(d.pages[f], batch) && f in d.pageList
         case Removing => f in d.pages && Complete(d.pages[f], batch) && f in d.pageList && f !in d.walList
         case _ => f in d.pages && Complete(d.pages[f], batch)
       }
  }

  /** The file the worker has in hand, taken from the front of the queue. */
  predicate InHand(m: Memory) {
    m.worker.Taken? || m.worker.Locked? || m.worker.Posted?
  }

  /** The file at the front of the queue is already a page. */
  predicate DoneWith(m: Memory, f: Stem) {
    m.worker == Posted(f) && (m.task.None? || m.task.value.stage.Finishing?)
  }

  ghost predicate QueueOk(d: Disk, m: Memory) {
    && (forall i, j | 0 <= i < j < |m.queue| :: m.queue[i] != m.queue[j])
    && (InHand(m) ==> m.queue != [] && m.queue[0] == m.worker.file)
    && (forall f | f in m.queue :: f in d.wals <==> !DoneWith(m, f))
  }

  ghost predicate MemoryOk(d: Disk, batches: map<Stem, seq<Meas>>, m: Memory) {
    && QueueOk(d, m)
    && (m.lock.Worker? <==> m.worker.Locked? || m.worker.Posted? || m.worker.Popped?)
    && (m.active == if m.task.Some? then 1 else 0)
    && (m.task.Some? ==>
          && m.worker == Posted(m.task.value.file)
          && m.task.value.file in batches
          && StageOk(d, m.task.value.file, m.task.value.stage, batches[m.task.value.file]))
    && (forall f | f in d.wals && f in d.pages :: m.task.Some? && m.task.value.file == f)
  }

  ghost predicate Inv(s: State) {
    && Safe(s.disk, s.batches)
    && match s.phase {
         case Down => true
         case Cleaning(todo, half) =>
           && (forall i, j | 0 <= i < j < |todo| :: todo[i] != todo[j])
           && (forall f | f in s.disk.wals && f in s.disk.pages :: f in todo)
           && (forall f | f in todo :: f in s.disk.wals)
           && (half ==> todo != [] && todo[0] !in s.disk.pages)
         case Up(m) => MemoryOk(s.disk, s.batches, m)
       }
  }

  lemma MemoryKeeps(d: Disk, batches: map<Stem, seq<Meas>>, m: Memory, op: MemoryOp)
    requires Safe(d, batches) && MemoryOk(d, batches, m) && CanMemory(m, op)
    ensures MemoryOk(d, batches, Think(d, m, op))
  {
    hide Complete, SortedCopy, Concat, Items;
    var m' := Think(d, m, op);
    QueueKeeps(d, m, op);
    hide QueueOk;
    if op.Post? {
      QueueFront(d, m);
    }
  }

  lemma QueueFront(d: Disk, m: Memory)
    requires QueueOk(d, m) && m.worker.Locked?
    ensures m.worker.file in d.wals
  {
    assert m.queue[0] in m.queue;
  }

  lemma QueueKeeps(d: Disk, m: Memory, op: MemoryOp)
    requires QueueOk(d, m) && CanMemory(m, op) && (m.task.Some? ==> m.worker == Posted(m.task.value.file))
    ensures QueueOk(d, Think(d, m, op))
  {
  }

  /** Two disks that differ in the files of stem f only. */
  ghost predicate AgreeBut(d: Disk, d': Disk, f: Stem) {
    forall g | g != f ::
      && (g in d'.wals <==> g in d.wals) && (g in d.wals ==> d'.wals[g] == d.wals[g])
      && (g in d'.pages <==> g in d.pages) && (g in d.pages ==> d'.pages[g] == d.pages[g])
      && (g in d'.walList <==> g in d.walList) && (g in d'.pageList <==> g in d.pageList)
  }

  lemma StageFrame(d: Disk, t: Task, op: StageOp)
    requires CanStage(d, t, op)
    ensures AgreeBut(d, Work(d, t, op).0, t.file)
  {
    hide SortedCopy, Concat, Records;
  }

  lemma SafeBut(d: Disk, d': Disk, f: Stem, batches: map<Stem, seq<Meas>>)
    requires Safe(d, batches) && AgreeBut(d, d', f) && f in batches
    requires f in d'.wals ==> f in d.wals && d'.wals[f] == d.wals[f]
    requires f !in d'.wals ==>
               f in d'.pages && Complete(d'.pages[f], batches[f]) && f in d'.pageList && f !in d'.walList
    ensures Safe(d', batches)
  {
    hide Complete;
  }

  /** And brings the files of its own stem to where the next stage expects them. */
  lemma StageAdvances(d: Disk, t: Task, op: StageOp, batch: seq<Meas>)
    requires CanStage(d, t, op) && StageOk(d, t.file, t.stage, batch) && (t.file in d.wals ==> d.wals[t.file] == batch)
    ensures var r := Work(d, t, op);
            && StageOk(r.0, t.file, r.1, batch)
            && (t.file in r.0.wals ==> t.file in d.wals && r.0.wals[t.file] == d.wals[t.file])
            && (t.file !in r.0.wals ==>
                  && t.file in r.0.pages && Complete(r.0.pages[t.file], batch)
                  && t.file in r.0.pageList && t.file !in r.0.walList)
  {
    hide SortedCopy, Concat, Records;
    if op.WritePageFooter? {
      FooterCompletes(d.pages[t.file], t.stage.cs, batch);
    } else if op.WriteChunk? {
      hide Complete;
      var cs, n := t.stage.cs, t.stage.done;
      assert Items(cs[..n]) + [PageChunk(cs[n])] == Items(cs[..n + 1]);
    } else {
      hide Complete;
    }
  }

  lemma FooterCompletes(p: seq<PageItem>, cs: seq<seq<Meas>>, batch: seq<Meas>)
    requires p == Items(cs[..|cs|]) && SortedCopy(Concat(cs), batch)
    ensures Complete(p + [PageFooter(|cs|)], batch)
  {
    assert cs[..|cs|] == cs;
    assert p + [PageFooter(|cs|)] == PageOf(cs);
  }

  lemma StageKeeps(d: Disk, batches: map<Stem, seq<Meas>>, m: Memory, op: StageOp)
    requires Safe(d, batches) && MemoryOk(d, batches, m) && m.task.Some? && CanStage(d, m.task.value, op)
    ensures var r := Work(d, m.task.value, op);
            Safe(r.0, batches) && MemoryOk(r.0, batches, m.(task := Some(Task(m.task.value.file, r.1))))
  {
    hide Complete, Work, CanStage, StageOk;
    var t := m.task.value;
    var r := Work(d, t, op);
    StageAdvances(d, t, op, batches[t.file]);
    StageFrame(d, t, op);
    SafeBut(d, r.0, t.file, batches);
    FinishingIsRemoved(d, t, op);
    FinishingIsGone(r.0, t.file, r.1, batches[t.file]);
    hide Safe;
  }

  lemma FinishingIsGone(d: Disk, f: Stem, st: Stage, batch: seq<Meas>)
    requires StageOk(d, f, st, batch)
    ensures f in d.wals <==> !st.Finishing?
  {
  }

  lemma FinishingIsRemoved(d: Disk, t: Task, op: StageOp)
    requires CanStage(d, t, op)
    ensures Work(d, t, op).1.Finishing? <==> op.RemoveWal?
    ensures !t.stage.Finishing?
  {
    hide SortedCopy, Concat, Records;
  }

  /** A crash loses the tails of open files, and those have their WAL still. */
  lemma CrashKeeps(s: State, page: nat, index: nat)
    requires Inv(s) && !s.phase.Down?
    ensures Safe(AfterCrash(s.disk, s.phase, page, index), s.batches)
  {
    hide Complete, SortedCopy, Concat, Items;
    var d' := AfterCrash(s.disk, s.phase, page, index);
    if s.phase.Up? && s.phase.mem.task.Some? {
      var f := s.phase.mem.task.value.file;
      assert AgreeBut(s.disk, d', f);
      SafeBut(s.disk, d', f, s.batches);
    }
  }

  lemma AppendKeeps(s: State, f: Stem, x: Meas)
    requires Inv(s) && Can(s, Append(f, x))
    ensures Inv(Do(s, Append(f, x)))
  {
    hide Complete, SortedCopy, Concat, Items, StageOk;
    var s', m := Do(s, Append(f, x)), s.phase.mem;
    if m.task.Some? {
      var t := m.task.value;
      assert t.file == m.queue[0];
      StageElsewhere(s.disk, s'.disk, t.file, t.stage, s.batches[t.file]);
    }
  }

  lemma StageElsewhere(d: Disk, d': Disk, f: Stem, st: Stage, batch: seq<Meas>)
    requires StageOk(d, f, st, batch) && (f in d'.wals <==> f in d.wals) && d'.pages == d.pages
             && d'.pageList == d.pageList
    requires f in d'.walList ==> f in d.walList
    ensures StageOk(d', f, st, batch)
  {
  }

  /** Every step keeps the invariant, a crash and each half of an erase included. */
  lemma Step(s: State, a: Action)
    requires Inv(s) && Can(s, a)
    ensures Inv(Do(s, a))
  {
    hide Complete, SortedCopy, Concat, Items, StageOk, Work, CanStage;
    match a {
      case ListWal(f) => ListKeeps(s, f);
      case Append(f, m) => AppendKeeps(s, f, m);
      case InMemory(op) => MemoryKeeps(s.disk, s.batches, s.phase.mem, op);
      case OnDisk(op) => StageKeeps(s.disk, s.batches, s.phase.mem, op);
      case Crash(page, index) => CrashKeeps(s, page, index);
      case Restart(_) => RestartKeeps(s, a.todo);
      case CleanPage => CleanKeeps(s, a);
      case CleanIndex => CleanKeeps(s, a);
      case Open =>
    }
  }

  lemma ListKeeps(s: State, f: Stem)
    requires Inv(s) && Can(s, ListWal(f))
    ensures Inv(Do(s, ListWal(f)))
  {
    hide Complete, SortedCopy, Concat, Items, StageOk;
    var s', m := Do(s, ListWal(f)), s.phase.mem;
    if m.task.Some? {
      var t := m.task.value;
      StageElsewhere(s.disk, s'.disk, t.file, t.stage, s.batches[t.file]);
    }
  }

  lemma RestartKeeps(s: State, todo: seq<Stem>)
    requires Inv(s) && Can(s, Restart(todo))
    ensures Inv(Do(s, Restart(todo)))
  {
    hide Complete;
  }

  lemma CleanKeeps(s: State, a: Action)
    requires Inv(s) && Can(s, a) && (a.CleanPage? || a.CleanIndex?)
    ensures Inv(Do(s, a))
  {
    hide Complete, MemoryOk;
    var s', f := Do(s, a), s.phase.todo[0];
    assert f in s.phase.todo;
    assert forall g | g in s.phase.todo && g != f :: g in s.phase.todo[1..];
  }

  // --------------------------------------------------------------------- runs

  const EMPTY := Disk(map[], map[], map[], {}, {})

  /** A run of a new storage, with any number of crashes and restarts. */
  ghost predicate Execution(states: seq<State>, actions: seq<Action>) {
    && |states| == |actions| + 1 && states[0] == State(EMPTY, Up(IDLE), map[])
    && forall i | 0 <= i < |actions| :: Can(states[i], actions[i]) && states[i + 1] == Do(states[i], actions[i])
  }

  lemma {:induction false} Reachable(states: seq<State>, actions: seq<Action>, n: nat)
    requires Execution(states, actions) && n <= |actions|
    ensures Inv(states[n])
  {
    hide Inv, Do, Can;
    if n == 0 {
      InitInv();
    } else {
      Reachable(states, actions, n - 1);
      Step(states[n - 1], actions[n - 1]);
    }
  }

  lemma InitInv()
    ensures Inv(State(EMPTY, Up(IDLE), map[]))
  {
  }

  /** Crash safety: whatever crashed before, once the clean-up is through every
      batch is in exactly one place, complete. */
  lemma CrashSafe(states: seq<State>, actions: seq<Action>, n: nat)
    requires Execution(states, actions) && n <= |actions|
    ensures Safe(states[n].disk, states[n].batches)
    ensures states[n].phase.Cleaning? && states[n].phase.todo == [] ==> Once(states[n].disk, states[n].batches)
  {
    Reachable(states, actions, n);
    hide Complete;
  }

  /** Drop atomicity: one operation at most, always under the lock; so anyone
      else who holds the lock, or finds it free, sees each batch exactly once. */
  lemma DropAtomic(states: seq<State>, actions: seq<Action>, n: nat)
    requires Execution(states, actions) && n <= |actions| && states[n].phase.Up?
    ensures var s, m := states[n], states[n].phase.mem;
            && m.active <= 1 && (m.active == 1 <==> m.task.Some?) && (m.task.Some? ==> m.lock.Worker?)
            && (!m.lock.Worker? ==> Once(s.disk, s.batches))
  {
    Reachable(states, actions, n);
    hide Complete, StageOk;
  }

  /** A removed WAL never comes back. */
  lemma {:induction false} GoneForGood(states: seq<State>, actions: seq<Action>, i: nat, j: nat, f: Stem)
    requires Execution(states, actions) && i <= j <= |actions|
    requires f in states[i].batches && f !in states[i].disk.wals
    ensures f in states[j].batches && f !in states[j].disk.wals
  {
    if i < j {
      GoneForGood(states, actions, i, j - 1, f);
      Reachable(states, actions, j - 1);
      StaysGone(states[j - 1], actions[j - 1], f);
    }
  }

  lemma StaysGone(s: State, a: Action, f: Stem)
    requires Inv(s) && Can(s, a) && f in s.batches && f !in s.disk.wals
    ensures f in Do(s, a).batches && f !in Do(s, a).disk.wals
  {
    hide Complete, SortedCopy, Concat, Items, StageOk;
  }

  /** No file is dropped twice. */
  lemma DroppedOnce(states: seq<State>, actions: seq<Action>, i: nat, j: nat)
    requires Execution(states, actions) && i < j < |actions|
    requires actions[i] == OnDisk(RemoveWal) && actions[j] == OnDisk(RemoveWal)
    ensures states[i].phase.Up? && states[i].phase.mem.task.Some? && states[j].phase.Up?
            && states[j].phase.mem.task.Some?
    ensures states[i].phase.mem.task.value.file != states[j].phase.mem.task.value.file
  {
    Reachable(states, actions, i);
    Reachable(states, actions, j);
    hide Do, Inv, Can;
    RemovesFile(states[i]);
    RemovesFile(states[j]);
    GoneForGood(states, actions, i + 1, j, states[i].phase.mem.task.value.file);
  }

  lemma RemovesFile(s: State)
    requires Inv(s) && Can(s, OnDisk(RemoveWal))
    ensures s.phase.Up? && s.phase.mem.task.Some?
    ensures var f, s' := s.phase.mem.task.value.file, Do(s, OnDisk(RemoveWal));
            f in s.disk.wals && f in s'.batches && f !in s'.disk.wals
  {
    hide Complete, SortedCopy, Concat, Items;
  }

  // ----------------------------------------------------------------- clean-up

  function Erased(d: Disk, f: Stem): Disk {
    d.(pages := d.pages - {f}, indexes := d.indexes - {f})
  }

  /** Every page that has a WAL of the same stem is erased. */
  function Cleaned(d: Disk): Disk {
    var both := d.wals.Keys * d.pages.Keys;
    d.(pages := d.pages - both, indexes := d.indexes - both)
  }

  /** The clean-up as written: two directory listings and two nested loops. */
  method CleanStorage(wals: seq<Stem>, pages: seq<Stem>, d: Disk) returns (d': Disk)
    requires forall f :: f in wals <==> f in d.wals
    requires forall f :: f in pages <==> f in d.pages
    ensures d' == Cleaned(d)
  {
    d' := d;
    ghost var gone: set<Stem> := {};
    for i := 0 to |wals|
      invariant d' == d.(pages := d.pages - gone, indexes := d.indexes - gone)
      invariant forall f :: f in gone <==> f in wals[..i] && f in pages
    {
      for j := 0 to |pages|
        invariant d' == d.(pages := d.pages - gone, indexes := d.indexes - gone)
        invariant forall f :: f in gone <==> (f in wals[..i] && f in pages) || (f == wals[i] && f in pages[..j])
      {
        if pages[j] == wals[i] {
          d' := Erased(d', pages[j]);
          gone := gone + {pages[j]};
          assert d'.pages == d.pages - gone && d'.indexes == d.indexes - gone;
        }
      }
    }
    assert wals[..|wals|] == wals;
    assert gone == d.wals.Keys * d.pages.Keys;
  }

  /** The steps of an undisturbed clean-up. */
  function CleanSteps(d: Disk, todo: seq<Stem>): Disk
    decreases |todo|
  {
    if todo == [] then d else CleanSteps(Erased(d, todo[0]), todo[1..])
  }

  lemma {:induction false} CleanStepsAre(d: Disk, todo: seq<Stem>, gone: set<Stem>)
    requires forall f :: f in gone <==> f in todo
    ensures CleanSteps(d, todo) == d.(pages := d.pages - gone, indexes := d.indexes - gone)
    decreases |todo|
  {
    if todo == [] {
      assert gone == {};
      assert d.pages - gone == d.pages && d.indexes - gone == d.indexes;
    } else {
      var f := todo[0];
      var rest := if f in todo[1..] then gone else gone - {f};
      CleanStepsAre(Erased(d, f), todo[1..], rest);
      assert Erased(d, f).pages - rest == d.pages - gone && Erased(d, f).indexes - rest == d.indexes - gone;
    }
  }

  /** Step by step or all at once, the clean-up comes to the same. */
  lemma CleanStepsClean(d: Disk, todo: seq<Stem>)
    requires IsWorkList(todo, d)
    ensures CleanSteps(d, todo) == Cleaned(d)
  {
    CleanStepsAre(d, todo, d.wals.Keys * d.pages.Keys);
  }

  // ----------------------------------------------------------------- manifest

  function Recovered(d: Disk): Disk {
    Cleaned(Restored(d))
  }

  /** What an undisturbed clean-up will come to. */
  function CleanRest(d: Disk, p: Phase): Disk
    requires p.Cleaning? && (p.half ==> p.todo != [])
  {
    if p.half then CleanSteps(d.(indexes := d.indexes - {p.todo[0]}), p.todo[1..]) else CleanSteps(d, p.todo)
  }

  lemma CleanRestSame(s: State, a: Action)
    requires Inv(s) && Can(s, a) && (a.CleanPage? || a.CleanIndex?)
    ensures var s' := Do(s, a);
            && s'.phase.Cleaning? && (s'.phase.half ==> s'.phase.todo != [])
            && CleanRest(s'.disk, s'.phase) == CleanRest(s.disk, s.phase)
  {
    hide Complete, Safe;
  }

  /** A clean-up that is not disturbed erases exactly the pages that have a WAL,
      whatever state the last crash left. */
  lemma CleanRun(states: seq<State>, actions: seq<Action>, i: nat, j: nat)
    requires Execution(states, actions) && i < j <= |actions| && actions[i].Restart?
    requires forall k | i < k < j :: actions[k].CleanPage? || actions[k].CleanIndex?
    ensures states[j].phase.Cleaning?
    ensures states[j].phase.todo == [] ==> states[j].disk == Recovered(states[i].disk)
  {
    hide Inv, Recovered;
    CleanRunRest(states, actions, i, j);
    RestartRest(states[i], actions[i].todo);
    Reachable(states, actions, j);
    if states[j].phase.todo == [] {
      NoneHalf(states[j]);
    }
  }

  lemma NoneHalf(s: State)
    requires Inv(s) && s.phase.Cleaning? && s.phase.todo == []
    ensures CleanRest(s.disk, s.phase) == s.disk
  {
    hide Complete;
  }

  lemma RestartRest(s: State, todo: seq<Stem>)
    requires Can(s, Restart(todo))
    ensures var s' := Do(s, Restart(todo));
            s'.phase == Cleaning(todo, false) && CleanRest(s'.disk, s'.phase) == Recovered(s.disk)
  {
    CleanStepsClean(Restored(s.disk), todo);
  }

  lemma {:induction false} CleanRunRest(states: seq<State>, actions: seq<Action>, i: nat, j: nat)
    requires Execution(states, actions) && i < j <= |actions| && actions[i].Restart?
    requires forall k | i < k < j :: actions[k].CleanPage? || actions[k].CleanIndex?
    ensures var p, p0 := states[j].phase, states[i + 1].phase;
            && p.Cleaning? && (p.half ==> p.todo != []) && p0.Cleaning? && (p0.half ==> p0.todo != [])
            && CleanRest(states[j].disk, p) == CleanRest(states[i + 1].disk, p0)
    decreases j
  {
    hide Inv, CleanRest;
    if j == i + 1 {
      RestartRest(states[i], actions[i].todo);
    } else {
      CleanRunRest(states, actions, i, j - 1);
      Reachable(states, actions, j - 1);
      hide Do, Can;
      CleanRestSame(states[j - 1], actions[j - 1]);
    }
  }

  /** The manifest leads to every batch. */
  ghost predicate AllListed(d: Disk, batches: map<Stem, seq<Meas>>) {
    forall f | f in batches :: if f in d.wals then f in d.walList else f in d.pageList
  }

  /** Opening the page manager reads the footer of every page listed. */
  ghost predicate Opens(d: Disk) {
    forall f | f in d.pageList :: f in d.pages
  }

  /** Recovery leaves every batch listed exactly if it found every WAL file listed. */
  lemma ListedAfterRecovery(d: Disk, batches: map<Stem, seq<Meas>>)
    requires Safe(d, batches)
    ensures AllListed(Recovered(d), batches) <==> forall f | f in d.wals :: f in d.walList
  {
    hide Complete;
    var d' := Recovered(d);
    assert d'.wals == d.wals;
    forall f | f in d.wals
      ensures f in d'.walList <==> f in d.walList
    {
    }
    forall f | f in batches && f !in d.wals
      ensures f in d'.pageList
    {
      assert f in d.pageList && f in d.pages;
    }
    if AllListed(d', batches) {
      forall f | f in d.wals
        ensures f in d.walList
      {
        assert f in batches;
      }
    }
  }

  /** The first start after a crash can open its pages exactly if no page it
      erases is listed; the start after that always can. */
  lemma OpensAfterRecovery(d: Disk)
    ensures Opens(Recovered(d)) <==> forall f | f in d.wals && f in d.pages :: f !in d.pageList
    ensures Opens(Recovered(Recovered(d)))
  {
    var r := Restored(d);
    var d' := Cleaned(r);
    forall f
      ensures f in d'.pageList && f !in d'.pages <==> f in d.pageList && f in d.pages && f in d.wals
    {
    }
    forall f | f in d.wals && f in d.pages
      ensures Opens(d') ==> f !in d.pageList
    {
      assert f in d.pageList ==> f in d'.pageList && f !in d'.pages;
    }
    var d'' := Recovered(d');
    forall f | f in d''.pageList
      ensures f in d''.pages
    {
      assert f in d'.pages && f !in d'.wals;
    }
  }

  /** The window between unlisting a WAL and removing it. */
  predicate InWindow(p: Phase) {
    p.Up? && p.mem.task.Some? && p.mem.task.value.stage.Removing?
  }

  ghost predicate WalsListed(s: State) {
    forall f | f in s.disk.wals :: f in s.disk.walList || (InWindow(s.phase) && s.phase.mem.task.value.file == f)
  }

  lemma ListedStep(s: State, a: Action)
    requires Inv(s) && Can(s, a) && WalsListed(s) && !(a.Crash? && InWindow(s.phase))
    ensures WalsListed(Do(s, a))
  {
    hide Complete, SortedCopy, Concat, Items, StageOk, Records, Work, CanStage, QueueOk;
    if a.OnDisk? {
      StageLists(s.disk, s.phase.mem.task.value, a.sop);
    }
  }

  lemma StageLists(d: Disk, t: Task, op: StageOp)
    requires CanStage(d, t, op)
    ensures var r := Work(d, t, op);
            && (forall f | f in r.0.wals :: f in d.wals)
            && (forall f | f in d.walList && f != t.file :: f in r.0.walList)
            && (if op.UnlistWal? then r.1.Removing? else r.0.walList == d.walList)
            && (t.stage.Removing? ==> t.file !in r.0.wals)
  {
    hide SortedCopy, Concat, Items, Records;
  }

  /** As long as no crash falls into that window, every recovery leaves every
      batch listed. */
  lemma {:induction false} ListedRun(states: seq<State>, actions: seq<Action>, n: nat)
    requires Execution(states, actions) && n <= |actions|
    requires forall i | 0 <= i < n :: !(actions[i].Crash? && InWindow(states[i].phase))
    ensures WalsListed(states[n])
    ensures states[n].phase.Down? ==> AllListed(Recovered(states[n].disk), states[n].batches)
  {
    hide Do, Can, Inv, WalsListed;
    if n > 0 {
      ListedRun(states, actions, n - 1);
      Reachable(states, actions, n - 1);
      ListedStep(states[n - 1], actions[n - 1]);
    } else {
      EmptyListed();
    }
    Reachable(states, actions, n);
    if states[n].phase.Down? {
      ListedDown(states[n]);
    }
  }

  lemma EmptyListed()
    ensures WalsListed(State(EMPTY, Up(IDLE), map[]))
  {
  }

  lemma ListedDown(s: State)
    requires Inv(s) && WalsListed(s) && s.phase.Down?
    ensures AllListed(Recovered(s.disk), s.batches)
  {
    ListedAfterRecovery(s.disk, s.batches);
  }

  /** A crash inside it always leaves the batch in an unlisted WAL alone: the
      clean-up erases the finished page. */
  lemma OrphanedInWindow(s: State, page: nat, index: nat)
    requires Inv(s) && InWindow(s.phase)
    ensures var f, d := s.phase.mem.task.value.file, Recovered(Do(s, Crash(page, index)).disk);
            f in s.batches && f in d.wals && f !in d.walList && f !in d.pages
  {
    hide Complete;
  }

  // ------------------------------------------------------------------ indexes

  /** Readers take the footer's count from the end and the records from the start. */
  function ReadIndex(ix: seq<IndexItem>): Option<seq<IndexItem>> {
    if ix != [] && ix[|ix| - 1].IndexFooter? && ix[|ix| - 1].records < |ix|
    then Some(ix[..ix[|ix| - 1].records])
    else None
  }

  /** Index files are opened for appending. What a stale file st does to the
      index of a page of n chunks: it reads back right exactly if st was empty
      or already began with the same records. */
  lemma IndexReadable(st: seq<IndexItem>, n: nat)
    ensures ReadIndex(st + Records(0, n) + [IndexFooter(n)]) == Some(Records(0, n)) <==> st == [] || Records(0, n) <= st
  {
    var ix := st + Records(0, n) + [IndexFooter(n)];
    assert ix[|ix| - 1] == IndexFooter(n);
    var k := |st|;
    if n == 0 {
      assert Records(0, n) == [];
    } else if 0 < k < n {
      assert ix[k] == IndexRecord(0) && Records(0, n)[k] == IndexRecord(k);
      assert ix[..n][k] != Records(0, n)[k];
    } else if k >= n {
      assert ix[..n] == st[..n];
      assert Records(0, n) <= st <==> st[..n] == Records(0, n);
    } else {
      assert ix[..n] == Records(0, n);
    }
  }

  ghost predicate GoodIndex(p: seq<PageItem>, ix: seq<IndexItem>) {
    p != [] && ix == Records(0, |p| - 1) + [IndexFooter(|p| - 1)]
  }

  ghost predicate StageIndexOk(d: Disk, f: Stem, st: Stage) {
    match st
    case Reading => f !in d.indexes
    case Sorting(_) => f !in d.indexes
    case Compressing(_) => f !in d.indexes
    case OpeningIndex(_) => f !in d.indexes
    case Writing(_, _, i) => f in d.indexes && d.indexes[f] == Records(0, i)
    case IndexFooting(cs) =>
      f in d.indexes && f in d.pages && |d.pages[f]| == |cs| + 1 && d.indexes[f] == Records(0, |cs|)
    case _ => f in d.indexes && f in d.pages && GoodIndex(d.pages[f], d.indexes[f])
  }

  /** The moment between erasing a page and erasing its index. */
  predicate Halfway(p: Phase) {
    p.Cleaning? && p.half
  }

  ghost predicate IndexInv(s: State) {
    && (forall f | f in s.batches && f !in s.disk.wals ::
          f in s.disk.indexes && f in s.disk.pages && GoodIndex(s.disk.pages[f], s.disk.indexes[f]))
    && (forall f | f in s.disk.indexes ::
          f in s.disk.pages || (s.phase.Cleaning? && s.phase.half && s.phase.todo != [] && s.phase.todo[0] == f))
    && (s.phase.Up? && s.phase.mem.task.Some? ==>
          StageIndexOk(s.disk, s.phase.mem.task.value.file, s.phase.mem.task.value.stage))
  }

  lemma RecordsJoin(i: nat, j: nat)
    requires i <= j
    ensures Records(0, i) + Records(i, j) == Records(0, j)
  {
  }

  lemma IndexStage(d: Disk, t: Task, op: StageOp, batch: seq<Meas>)
    requires CanStage(d, t, op) && StageOk(d, t.file, t.stage, batch) && StageIndexOk(d, t.file, t.stage)
    ensures var r := Work(d, t, op);
            && StageIndexOk(r.0, t.file, r.1)
            && (t.file in r.0.indexes ==> t.file in r.0.pages)
            && (t.file !in r.0.wals ==>
                  t.file in r.0.indexes && t.file in r.0.pages && GoodIndex(r.0.pages[t.file], r.0.indexes[t.file]))
  {
    hide Complete, SortedCopy, Concat;
    if op.WriteRecords? {
      RecordsJoin(t.stage.indexed, t.stage.done);
    }
    hide Records;
  }

  lemma IndexFrame(d: Disk, t: Task, op: StageOp, f: Stem)
    requires CanStage(d, t, op) && f != t.file
    ensures var d' := Work(d, t, op).0;
            (f in d'.indexes <==> f in d.indexes) && (f in d.indexes ==> d'.indexes[f] == d.indexes[f])
  {
    hide Complete, SortedCopy, Concat, Records;
  }

  lemma IndexOnDisk(s: State, op: StageOp)
    requires Inv(s) && IndexInv(s) && Can(s, OnDisk(op))
    ensures IndexInv(Do(s, OnDisk(op)))
  {
    hide Complete, SortedCopy, Concat, Records, CanStage, Work, StageOk, StageIndexOk, GoodIndex;
    var t := s.phase.mem.task.value;
    var d' := Work(s.disk, t, op).0;
    IndexStage(s.disk, t, op, s.batches[t.file]);
    StageFrame(s.disk, t, op);
    forall f | f != t.file
      ensures (f in d'.indexes <==> f in s.disk.indexes) && (f in s.disk.indexes ==> d'.indexes[f] == s.disk.indexes[f])
    {
      IndexFrame(s.disk, t, op, f);
    }
  }

  lemma IndexStep(s: State, a: Action)
    requires Inv(s) && IndexInv(s) && Can(s, a) && !(a.Crash? && Halfway(s.phase))
    ensures IndexInv(Do(s, a))
  {
    hide Inv, IndexInv, Can, Do;
    match a {
      case ListWal(f) => IndexElsewhere(s, a);
      case Append(f, m) => IndexElsewhere(s, a);
      case InMemory(op) => IndexInMemory(s, op);
      case OnDisk(op) => IndexOnDisk(s, op);
      case Crash(page, index) => IndexCrash(s, page, index);
      case Restart(_) => IndexClean(s, a);
      case CleanPage => IndexClean(s, a);
      case CleanIndex => IndexClean(s, a);
      case Open => IndexClean(s, a);
    }
  }

  lemma IndexElsewhere(s: State, a: Action)
    requires Inv(s) && IndexInv(s) && Can(s, a) && (a.ListWal? || a.Append?)
    ensures IndexInv(Do(s, a))
  {
    hide Complete, SortedCopy, Concat, Records, Work, CanStage, Items, MemoryOk, GoodIndex;
  }

  lemma IndexInMemory(s: State, op: MemoryOp)
    requires Inv(s) && IndexInv(s) && Can(s, InMemory(op))
    ensures IndexInv(Do(s, InMemory(op)))
  {
    hide Complete, SortedCopy, Concat, Records, Work, CanStage, Items, GoodIndex, StageOk;
    if op.Post? {
      QueueFront(s.disk, s.phase.mem);
    }
  }

  lemma IndexCrash(s: State, page: nat, index: nat)
    requires Inv(s) && IndexInv(s) && Can(s, Crash(page, index)) && !Halfway(s.phase)
    ensures IndexInv(Do(s, Crash(page, index)))
  {
    hide Complete, SortedCopy, Concat, Records, Work, CanStage, Items, GoodIndex, QueueOk;
  }

  lemma IndexClean(s: State, a: Action)
    requires Inv(s) && IndexInv(s) && Can(s, a) && (a.Restart? || a.CleanPage? || a.CleanIndex? || a.Open?)
    ensures IndexInv(Do(s, a))
  {
    hide Complete, GoodIndex, MemoryOk, StageIndexOk;
  }

  /** As long as no crash falls between the two halves of an erase, every page
      that has replaced its WAL is read in full through its index. */
  lemma {:induction false} IndexRun(states: seq<State>, actions: seq<Action>, n: nat, f: Stem)
    requires Execution(states, actions) && n <= |actions|
    requires forall i | 0 <= i < n :: !(actions[i].Crash? && Halfway(states[i].phase))
    ensures IndexInv(states[n])
    ensures var s := states[n];
            f in s.batches && f !in s.disk.wals ==>
              && f in s.disk.pages && s.disk.pages[f] != [] && f in s.disk.indexes
              && ReadIndex(s.disk.indexes[f]) == Some(Records(0, |s.disk.pages[f]| - 1))
  {
    if n > 0 {
      IndexRun(states, actions, n - 1, f);
      Reachable(states, actions, n - 1);
      hide Inv, IndexInv, Do, Can;
      IndexStep(states[n - 1], actions[n - 1]);
    }
    GoodRead(states[n], f);
  }

  lemma GoodRead(s: State, f: Stem)
    requires IndexInv(s)
    ensures f in s.batches && f !in s.disk.wals ==>
              && f in s.disk.pages && s.disk.pages[f] != [] && f in s.disk.indexes
              && ReadIndex(s.disk.indexes[f]) == Some(Records(0, |s.disk.pages[f]| - 1))
  {
    if f in s.batches && f !in s.disk.wals {
      var n := |s.disk.pages[f]| - 1;
      assert (Records(0, n) + [IndexFooter(n)])[..n] == Records(0, n);
    }
  }

  // ---------------------------------------------------------- stale indexes

  /** What an index file held before the drop opened it. */
  function Found(d: Disk, f: Stem): seq<IndexItem> {
    if f in d.indexes then d.indexes[f] else []
  }

  /** What a drop that found the index content st has made of it so far. */
  ghost predicate StaleStage(d: Disk, f: Stem, stage: Stage, st: seq<IndexItem>) {
    f in d.indexes &&
    match stage {
      case Writing(_, _, i) => d.indexes[f] == st + Records(0, i)
      case IndexFooting(cs) => f in d.pages && |d.pages[f]| == |cs| + 1 && d.indexes[f] == st + Records(0, |cs|)
      case Reading => false
      case Sorting(_) => false
      case Compressing(_) => false
      case OpeningIndex(_) => false
      case _ => f in d.pages && HasIndex(d.pages[f], d.indexes[f], st)
    }
  }

  /** The index of a finished page, written behind st. */
  ghost predicate HasIndex(p: seq<PageItem>, ix: seq<IndexItem>, st: seq<IndexItem>) {
    p != [] && ix == st + Records(0, |p| - 1) + [IndexFooter(|p| - 1)]
  }

  lemma StaleWork(d: Disk, t: Task, op: StageOp, batch: seq<Meas>, st: seq<IndexItem>)
    requires CanStage(d, t, op) && StageOk(d, t.file, t.stage, batch)
    requires if op.OpenIndex? then st == Found(d, t.file) else StaleStage(d, t.file, t.stage, st)
    ensures var r := Work(d, t, op); StaleStage(r.0, t.file, r.1, st)
  {
    hide Complete, SortedCopy, Concat;
    if op.WriteRecords? {
      var i, j := t.stage.indexed, t.stage.done;
      RecordsJoin(i, j);
      assert st + Records(0, i) + Records(i, j) == st + (Records(0, i) + Records(i, j));
    } else if op.OpenIndex? {
      assert st + Records(0, 0) == st;
    }
    hide Records;
  }

  /** The drop of f is under way in s and found the index content st. */
  ghost predicate Dropping(s: State, f: Stem, st: seq<IndexItem>) {
    && s.phase.Up? && s.phase.mem.task.Some? && s.phase.mem.task.value.file == f
    && StaleStage(s.disk, f, s.phase.mem.task.value.stage, st)
  }

  lemma DroppingStep(s: State, a: Action, f: Stem, st: seq<IndexItem>)
    requires Inv(s) && Can(s, a) && Dropping(s, f, st) && !a.Crash? && a != InMemory(Finish)
    ensures Dropping(Do(s, a), f, st)
  {
    hide Complete, SortedCopy, Concat, Records, Items, StageOk, CanStage, Work, QueueOk;
    if a.OnDisk? {
      OpensOnce(s.disk, s.phase.mem.task.value, a.sop, st);
      StaleWork(s.disk, s.phase.mem.task.value, a.sop, s.batches[f], st);
    }
  }

  lemma OpensOnce(d: Disk, t: Task, op: StageOp, st: seq<IndexItem>)
    requires CanStage(d, t, op) && StaleStage(d, t.file, t.stage, st)
    ensures !op.OpenIndex?
  {
    hide SortedCopy, Concat, Records;
  }

  /** Steps i to j of a run belong to one drop, which opens its index file in
      step i and has got as far as listing its page. */
  ghost predicate OneDrop(states: seq<State>, actions: seq<Action>, i: nat, j: nat) {
    && Execution(states, actions) && i < j <= |actions| && actions[i] == OnDisk(OpenIndex)
    && (forall k | i < k < j :: !actions[k].Crash? && actions[k] != InMemory(Finish))
    && states[j].phase.Up? && states[j].phase.mem.task.Some?
    && Written(states[j].phase.mem.task.value.stage)
  }

  /** Page and index are complete. */
  predicate Written(stage: Stage) {
    stage.Listing? || stage.Unlisting? || stage.Removing? || stage.Finishing?
  }

  lemma OpensIndex(s: State)
    requires Inv(s) && Can(s, OnDisk(OpenIndex))
    ensures s.phase.Up? && s.phase.mem.task.Some?
    ensures var f := s.phase.mem.task.value.file; Dropping(Do(s, OnDisk(OpenIndex)), f, Found(s.disk, f))
  {
    hide Complete, SortedCopy, Concat, Records, Items, StageOk, Work;
    var t := s.phase.mem.task.value;
    StaleWork(s.disk, t, OpenIndex, s.batches[t.file], Found(s.disk, t.file));
  }

  lemma {:induction false} DroppingRun(states: seq<State>, actions: seq<Action>, i: nat, j: nat)
    requires Execution(states, actions) && i < j <= |actions| && actions[i] == OnDisk(OpenIndex)
    requires forall k | i < k < j :: !actions[k].Crash? && actions[k] != InMemory(Finish)
    ensures states[i].phase.Up? && states[i].phase.mem.task.Some?
    ensures var f := states[i].phase.mem.task.value.file; Dropping(states[j], f, Found(states[i].disk, f))
    decreases j
  {
    hide Inv, Do, Dropping, Found, Can;
    Reachable(states, actions, j - 1);
    if j == i + 1 {
      OpensIndex(states[i]);
    } else {
      DroppingRun(states, actions, i, j - 1);
      var f := states[i].phase.mem.task.value.file;
      DroppingStep(states[j - 1], actions[j - 1], f, Found(states[i].disk, f));
    }
  }

  /** The index a drop leaves: whatever it found, then the records, then the
      footer. So the new page is read in full exactly if it found nothing, or
      the same records. */
  lemma DropIndex(states: seq<State>, actions: seq<Action>, i: nat, j: nat)
    requires OneDrop(states, actions, i, j)
    ensures states[i].phase.Up? && states[i].phase.mem.task.Some?
    ensures var f, d := states[i].phase.mem.task.value.file, states[j].disk;
            var st := Found(states[i].disk, f);
            && f in d.pages && f in d.indexes && HasIndex(d.pages[f], d.indexes[f], st)
            && var n := |d.pages[f]| - 1;
               ReadIndex(d.indexes[f]) == Some(Records(0, n)) <==> st == [] || Records(0, n) <= st
  {
    DroppingRun(states, actions, i, j);
    var f := states[i].phase.mem.task.value.file;
    hide Execution, Records, ReadIndex;
    IndexReadable(Found(states[i].disk, f), |states[j].disk.pages[f]| - 1);
  }

  /** Once the WAL is gone, page and index stay as they are. */
  lemma PageStays(s: State, a: Action, f: Stem)
    requires Inv(s) && Can(s, a) && f in s.batches && f !in s.disk.wals && f in s.disk.indexes
    ensures f in Do(s, a).batches && f !in Do(s, a).disk.wals
    ensures f in s.disk.pages && f in Do(s, a).disk.pages && Do(s, a).disk.pages[f] == s.disk.pages[f]
    ensures f in Do(s, a).disk.indexes && Do(s, a).disk.indexes[f] == s.disk.indexes[f]
  {
    hide Complete, Work, CanStage, StageOk, QueueOk, Think;
    if a.OnDisk? {
      var t := s.phase.mem.task.value;
      FinishingIsRemoved(s.disk, t, a.sop);
      FinishingIsGone(s.disk, t.file, t.stage, s.batches[t.file]);
      StageFrame(s.disk, t, a.sop);
      IndexFrame(s.disk, t, a.sop, f);
    } else if a.Crash? {
      CrashTears(s, a.page, a.index, f);
    } else if a.CleanPage? || a.CleanIndex? {
      assert s.phase.todo[0] in s.phase.todo;
    }
  }

  lemma CrashTears(s: State, page: nat, index: nat, f: Stem)
    requires Inv(s) && !s.phase.Down? && f in s.batches && f !in s.disk.wals && f in s.disk.indexes
    ensures var d := AfterCrash(s.disk, s.phase, page, index);
            && f in s.disk.pages && f in d.pages && d.pages[f] == s.disk.pages[f]
            && f in d.indexes && d.indexes[f] == s.disk.indexes[f]
  {
    hide Complete, QueueOk, SortedCopy, Concat, Items;
  }

  /** ... for the rest of the run. */
  lemma {:induction false} DropIndexStays(states: seq<State>, actions: seq<Action>, j: nat, k: nat, f: Stem)
    requires Execution(states, actions) && j <= k <= |actions|
    requires f in states[j].batches && f !in states[j].disk.wals && f in states[j].disk.indexes
    ensures f in states[k].batches && f !in states[k].disk.wals && f in states[k].disk.indexes
    ensures f in states[j].disk.pages && f in states[k].disk.pages
    ensures states[k].disk.pages[f] == states[j].disk.pages[f] && states[k].disk.indexes[f] == states[j].disk.indexes[f]
    decreases k
  {
    Reachable(states, actions, j);
    if j < k {
      hide Inv, Do, Can;
      DropIndexStays(states, actions, j, k - 1, f);
      Reachable(states, actions, k - 1);
      PageStays(states[k - 1], actions[k - 1], f);
    }
  }

  /** The WAL of f is there, its page is not, and its index is stale. */
  ghost predicate Stale(s: State, f: Stem, ix: seq<IndexItem>) {
    && f in s.disk.wals && f !in s.disk.pages && f in s.disk.indexes && s.disk.indexes[f] == ix
    && (s.phase.Cleaning? ==> f !in s.phase.todo)
  }

  /** A drop of f gets as far as opening its page file. */
  predicate OpensPageOf(s: State, a: Action, f: Stem) {
    a.OnDisk? && a.sop.OpenPage? && s.phase.Up? && s.phase.mem.task.Some? && s.phase.mem.task.value.file == f
  }

  lemma StaleStep(s: State, a: Action, f: Stem, ix: seq<IndexItem>)
    requires Inv(s) && Can(s, a) && Stale(s, f, ix) && !OpensPageOf(s, a, f)
    ensures Stale(Do(s, a), f, ix)
  {
    hide Complete, SortedCopy, Concat, Items, Records, QueueOk, Think;
    if a.OnDisk? {
      var t := s.phase.mem.task.value;
      if t.file != f {
        hide Work, CanStage, StageOk;
        StageFrame(s.disk, t, a.sop);
        IndexFrame(s.disk, t, a.sop, f);
      }
    } else if a.CleanPage? || a.CleanIndex? {
      assert s.phase.todo[0] in s.phase.todo;
    }
  }

  /** A crash there leaves the index behind: no start and no clean-up touches it
      until a drop of the WAL opens the page file again, and then appends to
      it. */
  lemma {:induction false} IndexLeftBehind(states: seq<State>, actions: seq<Action>, i: nat, j: nat, f: Stem)
    requires Execution(states, actions) && i < j <= |actions| && actions[i].Crash? && Halfway(states[i].phase)
    requires states[i].phase.todo != [] && f == states[i].phase.todo[0] && f in states[i].disk.indexes
    requires forall k | i < k < j :: !OpensPageOf(states[k], actions[k], f)
    ensures Stale(states[j], f, states[i].disk.indexes[f])
    decreases j
  {
    Reachable(states, actions, j - 1);
    if j == i + 1 {
      hide Execution;
      StaleStart(states[i], actions[i], f);
    } else {
      hide Inv, Can, Do, Stale;
      IndexLeftBehind(states, actions, i, j - 1, f);
      StaleStep(states[j - 1], actions[j - 1], f, states[i].disk.indexes[f]);
    }
  }

  lemma StaleStart(s: State, a: Action, f: Stem)
    requires Inv(s) && Can(s, a) && a.Crash? && Halfway(s.phase) && s.phase.todo != []
    requires f == s.phase.todo[0] && f in s.disk.indexes
    ensures Stale(Do(s, a), f, s.disk.indexes[f])
  {
    hide Complete;
    assert s.phase.todo[0] in s.phase.todo;
  }
}
