/** The cursors that read from other cursors, nested to any depth over arrays
    and packed chunks: the k-way merge and the sequential cursor. A cursor's
    abstract value is `Pending`, the stream it will still yield. */
module Cursors {
  import opened Measurements
  import opened Sorting
  import opened Streams
  import opened Grouping
  import opened Blocks
  import opened ArrayCursors
  import opened ChunkCursors
  import PackedRuns

  datatype Cursor =
    | InMemory(full: FullCursor)
    | InChunk(chunk: ChunkReader)
    | Merged(merge: MergeSortCursor)
    | Linear(lin: LinearCursor)
  {
    /** The objects that reading the cursor changes ... */
    ghost function Repr(): set<object> {
      match this
      case InMemory(f) => {f}
      case InChunk(c) => c.Objects()
      case Merged(m) => {m} + m.repr
      case Linear(l) => {l} + l.repr
    }

    /** ... and the byte arrays it only looks at. */
    ghost function Shared(): set<object> {
      match this
      case InMemory(_) => {}
      case InChunk(c) => {c.reader.bw.data}
      case Merged(m) => m.shared
      case Linear(l) => l.shared
    }

    ghost function Height(): nat {
      match this
      case InMemory(_) => 0
      case InChunk(_) => 0
      case Merged(m) => m.height
      case Linear(l) => l.height
    }

    function MinTime(): Time {
      match this
      case InMemory(f) => f.minTime
      case InChunk(c) => c.minTime
      case Merged(m) => m.minTime
      case Linear(l) => l.minTime
    }

    function MaxTime(): Time {
      match this
      case InMemory(f) => f.maxTime
      case InChunk(c) => c.maxTime
      case Merged(m) => m.maxTime
      case Linear(l) => l.maxTime
    }

    function Extent(): Range {
      Range(MinTime(), MaxTime())
    }

    ghost predicate Valid()
      reads Repr(), Shared()
      decreases Height(), 4
    {
      match this
      case InMemory(f) => f.Valid()
      case InChunk(c) => c.Valid()
      case Merged(m) => m.Valid()
      case Linear(l) => l.Valid()
    }

    ghost function Pending(): seq<Meas>
      reads Repr()
    {
      match this
      case InMemory(f) => if f.Valid() then f.Pending() else []
      case InChunk(c) => PackedRuns.Yielded(c.Items())
      case Merged(m) => m.pending
      case Linear(l) => l.pending
    }

    method IsEnd() returns (b: bool)
      requires Valid()
      ensures b == (Pending() == [])
    {
      hide Heads, MergeAll, Concat, Mergeable, AllHold, Family;
      match this
      case InMemory(f) =>
        f.EndIsEmpty();
        b := f.IsEnd();
      case InChunk(c) =>
        c.EndIsEmpty();
        b := c.IsEnd();
      case Merged(m) =>
        b := m.IsEnd();
      case Linear(l) =>
        l.EndIsEmpty();
        b := l.IsEnd();
    }

    method Top() returns (m: Meas)
      requires Valid() && Pending() != []
      ensures m == Pending()[0]
      decreases Height(), 4
    {
      hide Heads, MergeAll, Concat, Mergeable, AllHold, Family;
      match this
      case InMemory(f) =>
        f.EndIsEmpty();
        m := f.Top();
      case InChunk(c) =>
        c.EndIsEmpty();
        m := c.Top();
      case Merged(mc) =>
        m := mc.Top();
      case Linear(l) =>
        l.EndIsEmpty();
        m := l.Top();
    }

    method ReadNext() returns (m: Meas)
      requires Valid() && Pending() != []
      modifies Repr()
      ensures Valid() && old(Pending()) == [m] + Pending()
      decreases Height(), 4
    {
      hide Heads, MergeAll, Concat, Mergeable, AllHold, Family;
      match this
      case InMemory(f) =>
        f.EndIsEmpty();
        m := f.ReadNext();
      case InChunk(c) =>
        c.EndIsEmpty();
        PackedRuns.YieldedStep(c.Items());
        m := c.ReadNext();
      case Merged(mc) =>
        m := mc.ReadNext();
      case Linear(l) =>
        l.EndIsEmpty();
        m := l.ReadNext();
    }

    /** The top time, or the time that stands for "nothing left". */
    method TopTimeOf() returns (t: Time)
      requires Valid()
      ensures t == TopTime(Pending())
      decreases Height(), 5
    {
      hide Heads, MergeAll, Concat, Mergeable, AllHold, Family;
      var ended := IsEnd();
      if ended {
        t := MAX_TIME;
      } else {
        var m := Top();
        t := m.time;
      }
    }

    /** Reads on if the top has time t. */
    method SkipStep(t: Time) returns (moved: bool)
      requires Valid()
      modifies Repr()
      ensures Valid() && SkipRun(Pending(), t) == SkipRun(old(Pending()), t)
      ensures if moved then |Pending()| < |old(Pending())| else Pending() == SkipRun(Pending(), t)
      decreases Height(), 5
    {
      hide Heads, MergeAll, Concat, Mergeable, AllHold, Family, SkipRun;
      ghost var before := Pending();
      var ended := IsEnd();
      if ended {
        SkipNothing(before, t);
        return false;
      }
      var m := Top();
      if m.time != t {
        SkipNothing(before, t);
        return false;
      }
      m := ReadNext();
      SkipOne(m, Pending(), t);
      return true;
    }

    /** The inner loop of a merge: read on while the top has time t. */
    method SkipTime(t: Time)
      requires Valid()
      modifies Repr()
      ensures Valid() && Pending() == SkipRun(old(Pending()), t)
      decreases Height(), 6
    {
      hide Valid, Pending, SkipRun;
      var moved := true;
      while moved
        invariant Valid() && SkipRun(Pending(), t) == SkipRun(old(Pending()), t)
        invariant !moved ==> Pending() == SkipRun(Pending(), t)
        decreases moved, |Pending()|
      {
        moved := SkipStep(t);
      }
    }
  }

  lemma SkipOne(m: Meas, s: seq<Meas>, t: Time)
    requires m.time == t
    ensures SkipRun([m] + s, t) == SkipRun(s, t)
  {
    assert ([m] + s)[1..] == s;
  }

  lemma SkipNothing(s: seq<Meas>, t: Time)
    requires TopTime(s) != t || s == []
    ensures SkipRun(s, t) == s
  {
  }

  // -------------------------------------------------------- sets of sub-cursors

  ghost predicate Holds(c: Cursor, s: seq<Meas>)
    reads c.Repr(), c.Shared()
    decreases c.Height(), 5
  {
    c.Valid() && c.Pending() == s
  }

  ghost predicate Inside(c: Cursor, repr: set<object>, shared: set<object>, height: nat) {
    c.Repr() <= repr && c.Shared() <= shared && c.Height() < height
  }

  /** Cursors that live in repr, share no object and change no byte array. */
  ghost predicate Family(cs: seq<Cursor>, repr: set<object>, shared: set<object>, height: nat) {
    && (forall k | 0 <= k < |cs| :: Inside(cs[k], repr, shared, height))
    && (forall k, l | 0 <= k < l < |cs| :: cs[k].Repr() !! cs[l].Repr())
    && repr !! shared
  }

  /** Every cursor is sound and will yield its stream. */
  ghost predicate AllHold(cs: seq<Cursor>, ss: seq<seq<Meas>>, repr: set<object>, shared: set<object>, height: nat)
    reads repr, shared
    decreases height, 1
  {
    && |ss| == |cs|
    && forall k | 0 <= k < |cs| :: Inside(cs[k], repr, shared, height) && Holds(cs[k], ss[k])
  }

  /** Every stream lies in the extent of its cursor. */
  ghost predicate Ranged(cs: seq<Cursor>, ss: seq<seq<Meas>>) {
    |ss| == |cs| && forall k | 0 <= k < |cs| :: Within(ss[k], cs[k].Extent())
  }

  /** The cached top times and end flags match the streams. */
  ghost predicate CacheMatches(topTimes: seq<Time>, isEnd: seq<bool>, ss: seq<seq<Meas>>) {
    && |topTimes| == |isEnd| == |ss|
    && forall i | 0 <= i < |ss| :: topTimes[i] == TopTime(ss[i]) && isEnd[i] == (ss[i] == [])
  }

  /** The smallest range that covers the extents of some cursors. */
  function MinStart(cs: seq<Cursor>): Time {
    if cs == [] then MAX_TIME else MinOf(MinStart(cs[..|cs| - 1]), cs[|cs| - 1].MinTime())
  }

  function MaxEnd(cs: seq<Cursor>): Time {
    if cs == [] then MIN_TIME else MaxOf(MaxEnd(cs[..|cs| - 1]), cs[|cs| - 1].MaxTime())
  }

  method HullOf(cs: seq<Cursor>) returns (lo: Time, hi: Time)
    ensures lo == MinStart(cs) && hi == MaxEnd(cs)
  {
    lo, hi := MAX_TIME, MIN_TIME;
    for i := 0 to |cs|
      invariant lo == MinStart(cs[..i]) && hi == MaxEnd(cs[..i])
    {
      lo := MinOf(lo, cs[i].MinTime());
      hi := MaxOf(hi, cs[i].MaxTime());
      assert cs[..i + 1][..i] == cs[..i];
    }
    assert cs[..|cs|] == cs;
  }

  // ---------------------------------------------------------------- the merge

  class MergeSortCursor {
    var readers: seq<Cursor>
    var topTimes: seq<Time>
    var isEndStatus: seq<bool>
    const minTime: Time
    const maxTime: Time
    ghost const repr: set<object>
    ghost const shared: set<object>
    ghost const height: nat
    ghost var streams: seq<seq<Meas>>
    ghost var pending: seq<Meas>

    /** The sub-cursors are sound and the cache matches them. */
    ghost predicate Cached()
      reads this, repr, shared
      decreases height, 2
    {
      && this !in repr && this !in shared && Family(readers, repr, shared, height)
      && AllHold(readers, streams, repr, shared, height) && CacheMatches(topTimes, isEndStatus, streams)
    }

    ghost predicate Valid()
      reads this, repr, shared
      decreases height, 3
    {
      && Cached() && Mergeable(streams) && pending == MergeAll(streams)
      && minTime == MinStart(readers) && maxTime == MaxEnd(readers)
    }

    /** Merges the inputs, of which earlier ones win at equal times; what the
        inputs merge themselves is merged here. */
    constructor (inputs: seq<Cursor>, ghost ss: seq<seq<Meas>>,
                 ghost objects: set<object>, ghost arrays: set<object>, ghost level: nat)
      requires inputs != [] && Ready(inputs, ss, objects, arrays, level) && Mergeable(ss)
      requires forall k | 0 <= k < |inputs| :: Whole(inputs[k])
      modifies objects
      ensures Valid() && NoneEmpty(streams) && pending == MergeAll(ss)
      ensures repr == objects && shared == arrays && height == level
      ensures minTime == MinStart(inputs) && maxTime == MaxEnd(inputs)
    {
      hide *;
      var flat;
      ghost var fs;
      flat, fs := UnpackMerged(inputs, ss, objects, arrays, level);
      ReadyStreams(flat, fs, objects, arrays, level);
      var lo, hi := HullOf(flat);
      var tops, ends := TopTimes(flat, fs, objects, arrays, level);
      readers, topTimes, isEndStatus, minTime, maxTime := flat, tops, ends, lo, hi;
      repr, shared, height, streams := objects, arrays, level, fs;
      pending := MergeAll(ss);
      new;
      SameMerge(fs, ss);
      Built();
    }

    lemma Built()
      requires this !in repr && this !in shared && Ready(readers, streams, repr, shared, height)
      requires CacheMatches(topTimes, isEndStatus, streams) && Mergeable(streams) && pending == MergeAll(streams)
      requires minTime == MinStart(readers) && maxTime == MaxEnd(readers)
      ensures Valid()
    {
    }

    method IsEnd() returns (b: bool)
      requires Valid()
      ensures b == (pending == [])
    {
      hide Mergeable, MergeAll, AllHold, Family;
      MergeAllEmpty(streams);
      for i := 0 to |isEndStatus|
        invariant forall j | 0 <= j < i :: isEndStatus[j]
      {
        if !isEndStatus[i] {
          assert streams[i] != [];
          return false;
        }
      }
      return true;
    }

    /** The lowest index with the earliest cached top time. */
    method MinTimeIndex(ghost ss: seq<seq<Meas>>) returns (k: nat)
      requires CacheMatches(topTimes, isEndStatus, ss) && Mergeable(ss) && !AllEmpty(ss)
      ensures k < |ss| && IsFirstMin(ss, k) && ss[k] != []
    {
      var minTime := MAX_TIME;
      k := 0;
      for i := 0 to |topTimes|
        invariant (k == 0 && minTime == MAX_TIME) || (k < i && minTime == topTimes[k])
        invariant forall j | 0 <= j < i :: minTime <= topTimes[j]
        invariant forall j | 0 <= j < k :: minTime < topTimes[j]
      {
        if topTimes[i] != MAX_TIME && minTime > topTimes[i] {
          minTime := topTimes[i];
          k := i;
        }
      }
      MinIndexFound(ss, k, minTime);
    }

    method Top() returns (m: Meas)
      requires Valid() && pending != []
      ensures m == pending[0]
      decreases height, 3
    {
      hide MergeAll, Mergeable, IsFirstMin, Family, CacheMatches;
      CachedLength();
      MergeAllEmpty(streams);
      var k := MinTimeIndex(streams);
      TopIsFirst(streams, k);
      assert Cached() && AllHold(readers, streams, repr, shared, height);
      assert Holds(readers[k], streams[k]);
      m := readers[k].Top();
    }

    method ReadNext() returns (m: Meas)
      requires Valid() && pending != []
      modifies this, repr
      ensures Valid() && old(pending) == [m] + pending
      decreases height, 3
    {
      hide MergeAll, Mergeable, IsFirstMin, Family, CacheMatches, AllHold;
      ghost var ss := streams;
      CachedLength();
      MergeAllEmpty(ss);
      var k := MinTimeIndex(ss);
      m := TakeFrom(k);
      SkipDuplicates(m.time);
      StepDone(ss, m, streams, k);
      MergeAllStep(ss, m, streams);
      pending := MergeAll(streams);
    }

    /** Reads one measurement from sub-cursor k and refreshes its cache. */
    method TakeFrom(k: nat) returns (m: Meas)
      requires Cached() && k < |readers| == |streams| && streams[k] != []
      modifies this`topTimes, this`isEndStatus, this`streams, repr
      ensures Cached() && m == old(streams)[k][0] && streams == old(streams)[k := old(streams)[k][1..]]
      decreases height, 2
    {
      hide CacheMatches;
      var c := readers[k];
      assert Holds(c, streams[k]);
      m := c.ReadNext();
      assert streams[k] == [m] + c.Pending();
      forall j | 0 <= j < |readers| && j != k
        ensures Holds(readers[j], streams[j])
      {
        assert old(Holds(readers[j], streams[j]));
      }
      Refresh(k, streams[k][1..]);
    }

    /** Brings the cache of sub-cursor k, which has moved on to s, up to date. */
    method Refresh(k: nat, ghost s: seq<Meas>)
      requires this !in repr && this !in shared && Family(readers, repr, shared, height)
      requires |streams| == |readers| && k < |readers| && Holds(readers[k], s)
      requires forall j | 0 <= j < |readers| && j != k :: Holds(readers[j], streams[j])
      requires CacheMatches(topTimes, isEndStatus, streams)
      modifies this`topTimes, this`isEndStatus, this`streams
      ensures Cached() && streams == old(streams)[k := s]
      decreases height, 1
    {
      var t := readers[k].TopTimeOf();
      var ended := readers[k].IsEnd();
      hide CacheMatches, Family;
      SetCache(k, t, ended, s);
    }

    method SetCache(k: nat, t: Time, ended: bool, ghost s: seq<Meas>)
      requires this !in repr && this !in shared && Family(readers, repr, shared, height)
      requires |streams| == |readers| && k < |readers| && Holds(readers[k], s)
      requires forall j | 0 <= j < |readers| && j != k :: Holds(readers[j], streams[j])
      requires CacheMatches(topTimes, isEndStatus, streams) && t == TopTime(s) && ended == (s == [])
      modifies this`topTimes, this`isEndStatus, this`streams
      ensures Cached() && streams == old(streams)[k := s]
    {
      hide Holds;
      topTimes := topTimes[k := t];
      isEndStatus := isEndStatus[k := ended];
      streams := streams[k := s];
      forall j | 0 <= j < |readers|
        ensures Holds(readers[j], streams[j])
      {
        assert old(Holds(readers[j], if j == k then s else streams[j]));
      }
    }

    /** Drops the time just emitted from every sub-cursor. */
    method SkipDuplicates(t: Time)
      requires Cached()
      modifies this`topTimes, this`isEndStatus, this`streams, repr
      ensures Cached() && |streams| == |old(streams)|
      ensures forall j | 0 <= j < |streams| :: streams[j] == SkipRun(old(streams)[j], t)
      decreases height, 2
    {
      hide SkipRun, CacheMatches, AllHold, Family;
      CachedLength();
      for i := 0 to |readers|
        invariant Cached() && |streams| == |readers|
        invariant forall j | 0 <= j < |readers| ::
                    streams[j] == if j < i then SkipRun(old(streams)[j], t) else old(streams)[j]
      {
        SkipAt(i, t);
      }
    }

    lemma CachedLength()
      requires Cached()
      ensures |streams| == |readers|
    {
    }

    method SkipAt(i: nat, t: Time)
      requires Cached() && i < |readers|
      modifies this`topTimes, this`isEndStatus, this`streams, repr
      ensures |old(streams)| == |readers|
      ensures Cached() && streams == old(streams)[i := SkipRun(old(streams)[i], t)]
      decreases height, 1
    {
      hide SkipRun;
      if !isEndStatus[i] && topTimes[i] == t {
        hide CacheMatches;
        var c := readers[i];
        assert Holds(c, streams[i]);
        c.SkipTime(t);
        forall j | 0 <= j < |readers| && j != i
          ensures Holds(readers[j], streams[j])
        {
          assert old(Holds(readers[j], streams[j]));
        }
        Refresh(i, SkipRun(streams[i], t));
      } else {
        SkipNothing(streams[i], t);
      }
    }
  }

  lemma MinIndexFound(ss: seq<seq<Meas>>, k: nat, t: Time)
    requires Mergeable(ss) && !AllEmpty(ss)
    requires (k == 0 && t == MAX_TIME) || (k < |ss| && t == TopTime(ss[k]))
    requires forall j | 0 <= j < |ss| :: t <= TopTime(ss[j])
    requires forall j | 0 <= j < k :: t < TopTime(ss[j])
    ensures IsFirstMin(ss, k) && ss[k] != []
  {
    var i: nat :| i < |ss| && ss[i] != [];
    assert Readable(ss[i]);
    assert TopTime(ss[i]) == ss[i][0].time < MAX_TIME;
  }

  lemma StepDone(ss: seq<seq<Meas>>, m: Meas, rs: seq<seq<Meas>>, k: nat)
    requires Mergeable(ss) && |rs| == |ss|
    requires IsFirstMin(ss, k) && ss[k] != [] && m == ss[k][0]
    requires forall i | 0 <= i < |rs| :: rs[i] == SkipRun(ss[k := ss[k][1..]][i], m.time)
    ensures MergeStep(ss, m, rs) && Mergeable(rs)
  {
    hide Mergeable;
    SkipOne(m, ss[k][1..], m.time);
    assert ss[k] == [m] + ss[k][1..];
    StepKeepsMergeable(ss, m, rs);
  }

  lemma MergeAllEmpty(ss: seq<seq<Meas>>)
    requires Mergeable(ss)
    ensures MergeAll(ss) == [] <==> AllEmpty(ss)
  {
  }

  lemma TopIsFirst(ss: seq<seq<Meas>>, k: nat)
    requires Mergeable(ss) && IsFirstMin(ss, k) && ss[k] != []
    ensures MergeAll(ss) != [] && MergeAll(ss)[0] == ss[k][0]
  {
    var m := ss[k][0];
    MergeAllStep(ss, m, SkipAll(ss, m.time));
  }

  // -------------------------------------------------------- the linear cursor

  /** Each extent ends before the next one starts. */
  ghost predicate Chained(cs: seq<Cursor>) {
    forall k, l | 0 <= k < l < |cs| :: cs[k].MaxTime() < cs[l].MinTime()
  }

  ghost predicate StartSorted(cs: seq<Cursor>) {
    forall k, l | 0 <= k < l < |cs| :: cs[k].MinTime() <= cs[l].MinTime()
  }

  ghost predicate NoneEmpty(ss: seq<seq<Meas>>) {
    forall k | 0 <= k < |ss| :: ss[k] != []
  }

  /** The extents lie between lo and hi. */
  ghost predicate Bounded(cs: seq<Cursor>, lo: Time, hi: Time) {
    forall k | 0 <= k < |cs| :: lo <= cs[k].MinTime() && cs[k].MaxTime() <= hi
  }

  class LinearCursor {
    var readers: seq<Cursor>
    const minTime: Time
    const maxTime: Time
    ghost const repr: set<object>
    ghost const shared: set<object>
    ghost const height: nat
    ghost var streams: seq<seq<Meas>>
    ghost var pending: seq<Meas>

    ghost predicate Valid()
      reads this, repr, shared
      decreases height, 3
    {
      && this !in repr && this !in shared && Family(readers, repr, shared, height)
      && AllHold(readers, streams, repr, shared, height)
      && NoneEmpty(streams) && pending == Concat(streams)
      && StartSorted(readers) && Bounded(readers, minTime, maxTime)
    }

    /** The sub-cursors are sorted and follow each other. */
    ghost predicate InLine()
      reads this
    {
      Ranged(readers, streams) && Chained(readers) && Mergeable(streams)
    }

    /** Reads the inputs one after another, by start; what the inputs read in
        turn is read here. Nothing is lost or added; inputs that do not overlap
        give a sorted stream. */
    constructor (inputs: seq<Cursor>, ghost ss: seq<seq<Meas>>,
                 ghost objects: set<object>, ghost arrays: set<object>, ghost level: nat)
      requires inputs != [] && Ready(inputs, ss, objects, arrays, level)
      modifies objects
      ensures Valid() && multiset(pending) == multiset(Concat(ss))
      ensures old(Separate(inputs, ss, objects)) ==> InLine() && IsJoinOf(pending, ss)
      ensures repr == objects && shared == arrays && height == level
    {
      hide *;
      var flat;
      ghost var fs;
      flat, fs := UnpackLinear(inputs, ss, objects, arrays, level);
      var sorted;
      ghost var ordered;
      sorted, ordered := SortByStart(flat, fs, objects, arrays, level);
      if old(Separate(inputs, ss, objects)) {
        SameJoin(Concat(ordered), flat, fs, inputs, ss);
      }
      var lo, hi := HullOf(sorted);
      HullBounds(sorted);
      readers, minTime, maxTime := sorted, lo, hi;
      repr, shared, height, streams := objects, arrays, level, ordered;
      pending := Concat(ordered);
      new;
      Built();
    }

    lemma Built()
      requires this !in repr && this !in shared && Ready(readers, streams, repr, shared, height)
      requires pending == Concat(streams) && StartSorted(readers) && Bounded(readers, minTime, maxTime)
      ensures Valid() && (Ranged(readers, streams) && Chained(readers) && Mergeable(streams) ==> InLine())
    {
    }

    predicate IsEnd()
      reads this
    {
      readers == []
    }

    lemma EndIsEmpty()
      requires Valid()
      ensures IsEnd() <==> pending == []
    {
      ConcatEmpty(streams);
    }

    method Top() returns (m: Meas)
      requires Valid() && !IsEnd()
      ensures pending != [] && m == pending[0]
      decreases height, 3
    {
      assert Holds(readers[0], streams[0]) && streams[0] != [];
      m := readers[0].Top();
    }

    method ReadNext() returns (m: Meas)
      requires Valid() && !IsEnd()
      modifies this, repr
      ensures Valid() && old(pending) == [m] + pending && (old(InLine()) ==> InLine())
      decreases height, 3
    {
      hide Concat, Mergeable, Ranged, Chained, StartSorted, Bounded;
      var front := readers[0];
      assert Holds(front, streams[0]) && streams[0] != [];
      m := front.ReadNext();
      ghost var s := front.Pending();
      assert streams[0] == [m] + s;
      forall j | 1 <= j < |readers|
        ensures Holds(readers[j], streams[j])
      {
        assert old(Holds(readers[j], streams[j]));
      }
      assert Holds(front, s);
      var ended := front.IsEnd();
      MoveOn(s, ended);
    }

    /** The front cursor has moved on to s; it is dropped if nothing is left. */
    method MoveOn(ghost s: seq<Meas>, ended: bool)
      requires this !in repr && this !in shared && Family(readers, repr, shared, height)
      requires readers != [] && |streams| == |readers| && Holds(readers[0], s) && ended == (s == [])
      requires forall j | 1 <= j < |readers| :: Holds(readers[j], streams[j])
      requires NoneEmpty(streams) && StartSorted(readers)
      requires Bounded(readers, minTime, maxTime) && s == streams[0][1..]
      modifies this
      ensures Valid() && Concat(old(streams)) == [old(streams)[0][0]] + pending && (old(InLine()) ==> InLine())
    {
      hide Holds, Concat, Mergeable, Ranged, Chained, StartSorted, Bounded;
      if InLine() {
        FrontInLine(readers, streams, s);
      }
      FrontMoved(readers, streams, s, minTime, maxTime);
      if ended {
        readers, streams := readers[1..], streams[1..];
      } else {
        streams := [s] + streams[1..];
      }
      pending := Concat(streams);
      forall j | 0 <= j < |readers|
        ensures Holds(readers[j], streams[j])
      {
        ghost var i := if ended then j + 1 else j;
        assert old(i == 0 || Holds(readers[i], streams[i]));
      }
    }
  }

  lemma ConcatEmpty(ss: seq<seq<Meas>>)
    requires NoneEmpty(ss)
    ensures Concat(ss) == [] <==> ss == []
  {
  }

  /** What is left after the front cursor has read one measurement. */
  lemma FrontMoved(cs: seq<Cursor>, ss: seq<seq<Meas>>, s: seq<Meas>, lo: Time, hi: Time)
    requires cs != [] && |ss| == |cs| && NoneEmpty(ss) && StartSorted(cs) && Bounded(cs, lo, hi)
    requires s == ss[0][1..]
    ensures var ss' := [s] + ss[1..]; (s != [] ==> NoneEmpty(ss')) && Concat(ss) == [ss[0][0]] + Concat(ss')
    ensures s == [] ==>
              && NoneEmpty(ss[1..]) && StartSorted(cs[1..]) && Bounded(cs[1..], lo, hi)
              && Concat([s] + ss[1..]) == Concat(ss[1..])
  {
    assert ([s] + ss[1..])[1..] == ss[1..] && ss[0] == [ss[0][0]] + s;
  }

  lemma FrontInLine(cs: seq<Cursor>, ss: seq<seq<Meas>>, s: seq<Meas>)
    requires cs != [] && |ss| == |cs| && NoneEmpty(ss) && s == ss[0][1..]
    requires Ranged(cs, ss) && Chained(cs) && Mergeable(ss)
    ensures Ranged(cs, [s] + ss[1..]) && Mergeable([s] + ss[1..])
    ensures Ranged(cs[1..], ss[1..]) && Chained(cs[1..]) && Mergeable(ss[1..])
  {
    assert Within(s, cs[0].Extent()) by { assert Within(ss[0], cs[0].Extent()); }
    assert Readable(s) by { assert Readable(ss[0]); }
    hide Within, Readable;
  }

  // ------------------------------------------------------ unpacking sub-cursors

  /** Sound cursors with something left to read. */
  ghost predicate Ready(cs: seq<Cursor>, ss: seq<seq<Meas>>, repr: set<object>, shared: set<object>, height: nat)
    reads repr, shared
  {
    Family(cs, repr, shared, height) && AllHold(cs, ss, repr, shared, height) && NoneEmpty(ss)
  }

  /** A merge none of whose sub-cursors has ended. */
  ghost predicate Whole(c: Cursor)
    reads c.Repr()
  {
    c.Merged? ==> NoneEmpty(c.merge.streams)
  }

  /** A linear cursor whose sub-cursors follow each other, or another kind. */
  ghost predicate Straight(c: Cursor)
    reads c.Repr()
  {
    c.Linear? ==> c.lin.InLine()
  }

  /** Cursors that do not overlap, of sorted streams that lie in their extents. */
  ghost predicate Separate(cs: seq<Cursor>, ss: seq<seq<Meas>>, repr: set<object>)
    reads repr
  {
    && Mergeable(ss) && Ranged(cs, ss) && Apart(cs)
    && forall k | 0 <= k < |cs| :: cs[k].Repr() <= repr && Straight(cs[k])
  }

  lemma ReadyJoin(cs: seq<Cursor>, ss: seq<seq<Meas>>, repr: set<object>,
                  cs': seq<Cursor>, ss': seq<seq<Meas>>, repr': set<object>, shared': set<object>, height': nat,
                  shared: set<object>, height: nat)
    requires Ready(cs, ss, repr, shared, height) && Ready(cs', ss', repr', shared', height')
    requires repr !! repr' && repr' !! shared && shared' <= shared && height' <= height
    ensures Ready(cs + cs', ss + ss', repr + repr', shared, height)
  {
    hide Holds;
  }

  /** One cursor on its own. */
  lemma ReadyOne(c: Cursor, s: seq<Meas>)
    requires Holds(c, s) && s != [] && c.Repr() !! c.Shared()
    ensures Ready([c], [s], c.Repr(), c.Shared(), c.Height() + 1)
  {
    hide Holds;
  }

  lemma ReadyMore(cs: seq<Cursor>, ss: seq<seq<Meas>>, repr: set<object>, shared: set<object>, height: nat,
                  repr': set<object>, height': nat)
    requires Ready(cs, ss, repr, shared, height) && repr <= repr' && repr' !! shared && height <= height'
    ensures Ready(cs, ss, repr', shared, height')
  {
    hide Holds;
  }

  /** A merge holds, for every time, what its sub-cursors give. */
  lemma MergedReady(m: MergeSortCursor)
    requires m.Valid() && NoneEmpty(m.streams)
    ensures Ready(m.readers, m.streams, m.repr, m.shared, m.height) && Mergeable(m.streams)
    ensures m.minTime == MinStart(m.readers) && m.maxTime == MaxEnd(m.readers)
    ensures forall t: Time :: FirstOf(m.streams, t) == Lookup(m.pending, t)
  {
    assert m.Cached();
    hide AllHold, Family, CacheMatches, NoneEmpty, Mergeable, MergeAll;
    MergeAllCorrect(m.streams);
  }

  lemma LoneFirst(s: seq<Meas>, t: Time)
    ensures FirstOf([s], t) == Lookup(s, t)
  {
    assert FirstOf([s][1..], t) == None;
  }

  /** The sub-cursors of a merge, taken out of it; any other cursor as it is. */
  method HoistMerged(c: Cursor, ghost s: seq<Meas>) returns (cs: seq<Cursor>, ghost ss: seq<seq<Meas>>)
    requires Holds(c, s) && Whole(c) && s != [] && Readable(s) && c.Repr() !! c.Shared()
    modifies c.Repr()
    ensures Ready(cs, ss, c.Repr(), c.Shared(), c.Height() + 1) && Mergeable(ss)
    ensures MinStart(cs) == c.MinTime() && MaxEnd(cs) == c.MaxTime()
    ensures forall t: Time :: FirstOf(ss, t) == Lookup(s, t)
  {
    hide Ready, FirstOf, Lookup, NoneEmpty;
    if !c.Merged? {
      cs, ss := [c], [s];
      ReadyOne(c, s);
      forall t: Time
        ensures FirstOf(ss, t) == Lookup(s, t)
      {
        LoneFirst(s, t);
      }
    } else {
      var m := c.merge;
      MergedReady(m);
      cs, ss := m.readers, m.streams;
      m.readers := [];
      ReadyMore(cs, ss, m.repr, m.shared, m.height, c.Repr(), c.Height() + 1);
    }
  }

  /** Merges among the inputs give way to their sub-cursors. */
  method UnpackMerged(inputs: seq<Cursor>, ghost ss: seq<seq<Meas>>,
                      ghost repr: set<object>, ghost shared: set<object>, ghost height: nat)
    returns (flat: seq<Cursor>, ghost fs: seq<seq<Meas>>)
    requires Ready(inputs, ss, repr, shared, height) && Mergeable(ss)
    requires forall k | 0 <= k < |inputs| :: Whole(inputs[k])
    modifies repr
    ensures Ready(flat, fs, repr, shared, height) && Mergeable(fs)
    ensures MinStart(flat) == MinStart(inputs) && MaxEnd(flat) == MaxEnd(inputs)
    ensures forall t: Time :: FirstOf(fs, t) == FirstOf(ss, t)
  {
    hide *;
    flat, fs := [], [];
    ghost var used: set<object> := {};
    ReadyParts(inputs, ss, repr, shared, height);
    HullStart(inputs, ss);
    MergeableParts(ss);
    for i := 0 to |inputs|
      invariant used <= repr && Ready(flat, fs, used, shared, height) && Mergeable(fs)
      invariant forall j | i <= j < |inputs| :: inputs[j].Repr() !! used && Holds(inputs[j], ss[j]) && Whole(inputs[j])
      invariant MinStart(flat) == MinStart(inputs[..i]) && MaxEnd(flat) == MaxEnd(inputs[..i])
      invariant forall t: Time :: FirstOf(fs, t) == FirstOf(ss[..i], t)
    {
      var cs;
      ghost var hs;
      cs, hs := HoistMerged(inputs[i], ss[i]);
      ReadyJoin(flat, fs, used, cs, hs, inputs[i].Repr(), inputs[i].Shared(), inputs[i].Height() + 1, shared, height);
      MergeableJoin(fs, hs);
      HullStep(inputs, i, flat, cs);
      FirstStep(ss, i, fs, hs);
      flat, fs, used := flat + cs, fs + hs, used + inputs[i].Repr();
    }
    assert inputs[..|inputs|] == inputs && ss[..|ss|] == ss;
    ReadyMore(flat, fs, used, shared, height, repr, height);
  }

  lemma MergeableParts(ss: seq<seq<Meas>>)
    requires Mergeable(ss)
    ensures Mergeable([]) && forall k | 0 <= k < |ss| :: Readable(ss[k])
  {
  }

  lemma MergeableJoin(a: seq<seq<Meas>>, b: seq<seq<Meas>>)
    requires Mergeable(a) && Mergeable(b)
    ensures Mergeable(a + b)
  {
    hide Readable;
  }

  /** What each of a list of cursors brings along. */
  lemma ReadyParts(cs: seq<Cursor>, ss: seq<seq<Meas>>, repr: set<object>, shared: set<object>, height: nat)
    requires Ready(cs, ss, repr, shared, height)
    ensures |ss| == |cs| && repr !! shared && Ready([], [], {}, shared, height)
    ensures forall k | 0 <= k < |cs| ::
              && Holds(cs[k], ss[k]) && ss[k] != []
              && cs[k].Repr() <= repr && cs[k].Shared() <= shared && cs[k].Height() < height
              && cs[k].Repr() !! cs[k].Shared()
    ensures forall k, l | 0 <= k < |cs| && 0 <= l < |cs| && k != l :: cs[k].Repr() !! cs[l].Repr()
  {
    hide Holds;
  }

  lemma HullStart(cs: seq<Cursor>, ss: seq<seq<Meas>>)
    ensures MinStart([]) == MinStart(cs[..0]) && MaxEnd([]) == MaxEnd(cs[..0])
    ensures forall t: Time :: FirstOf([], t) == FirstOf(ss[..0], t)
  {
  }

  lemma HullStep(cs: seq<Cursor>, i: nat, flat: seq<Cursor>, more: seq<Cursor>)
    requires i < |cs| && MinStart(flat) == MinStart(cs[..i]) && MaxEnd(flat) == MaxEnd(cs[..i])
    requires MinStart(more) == cs[i].MinTime() && MaxEnd(more) == cs[i].MaxTime()
    ensures MinStart(flat + more) == MinStart(cs[..i + 1]) && MaxEnd(flat + more) == MaxEnd(cs[..i + 1])
  {
    HullJoin(flat, more);
    assert cs[..i + 1][..i] == cs[..i];
  }

  lemma FirstStep(ss: seq<seq<Meas>>, i: nat, fs: seq<seq<Meas>>, more: seq<seq<Meas>>)
    requires i < |ss| && forall t: Time :: FirstOf(fs, t) == FirstOf(ss[..i], t)
    requires forall t: Time :: FirstOf(more, t) == Lookup(ss[i], t)
    ensures forall t: Time :: FirstOf(fs + more, t) == FirstOf(ss[..i + 1], t)
  {
    forall t: Time
      ensures FirstOf(fs + more, t) == FirstOf(ss[..i + 1], t)
    {
      hide FirstOf, Lookup;
      FirstOfAppend(fs, more, t);
      FirstOfSnoc(ss, i, t);
    }
  }

  lemma FirstOfSnoc(ss: seq<seq<Meas>>, i: nat, t: Time)
    requires i < |ss|
    ensures FirstOf(ss[..i + 1], t) == if FirstOf(ss[..i], t).Some? then FirstOf(ss[..i], t) else Lookup(ss[i], t)
  {
    hide FirstOf, Lookup;
    FirstOfAppend(ss[..i], [ss[i]], t);
    LoneFirst(ss[i], t);
    assert ss[..i + 1] == ss[..i] + [ss[i]];
  }

  lemma ReadyStreams(cs: seq<Cursor>, ss: seq<seq<Meas>>, repr: set<object>, shared: set<object>, height: nat)
    requires Ready(cs, ss, repr, shared, height)
    ensures NoneEmpty(ss) && |ss| == |cs|
  {
  }

  /** Streams that agree at every time have the same merge. */
  lemma SameMerge(fs: seq<seq<Meas>>, ss: seq<seq<Meas>>)
    requires Mergeable(fs) && Mergeable(ss) && forall t: Time :: FirstOf(fs, t) == FirstOf(ss, t)
    ensures MergeAll(fs) == MergeAll(ss)
  {
    hide MergeAll, Mergeable, FirstOf, Lookup, Increasing;
    MergeAllCorrect(fs);
    MergeAllCorrect(ss);
    MergeUnique(MergeAll(fs), MergeAll(ss), ss);
  }

  /** The cache of a new merge: none of its sub-cursors has ended. */
  method TopTimes(cs: seq<Cursor>, ghost ss: seq<seq<Meas>>,
                  ghost repr: set<object>, ghost shared: set<object>, ghost height: nat)
    returns (tops: seq<Time>, ends: seq<bool>)
    requires Ready(cs, ss, repr, shared, height)
    ensures CacheMatches(tops, ends, ss) && Ready(cs, ss, repr, shared, height)
  {
    hide Ready, AllHold, Family, Mergeable, NoneEmpty;
    ReadyParts(cs, ss, repr, shared, height);
    tops, ends := [], seq(|cs|, _ => false);
    for i := 0 to |cs|
      invariant |tops| == i && forall j | 0 <= j < i :: tops[j] == TopTime(ss[j])
      invariant Ready(cs, ss, repr, shared, height) && forall k | 0 <= k < |cs| :: Holds(cs[k], ss[k])
    {
      assert Holds(cs[i], ss[i]);
      var t := cs[i].TopTimeOf();
      tops := tops + [t];
    }
  }

  lemma {:induction false} HullJoin(a: seq<Cursor>, b: seq<Cursor>)
    ensures MinStart(a + b) == MinOf(MinStart(a), MinStart(b)) && MaxEnd(a + b) == MaxOf(MaxEnd(a), MaxEnd(b))
    decreases |b|
  {
    hide Cursor.MinTime, Cursor.MaxTime;
    if b == [] {
      assert a + b == a;
    } else {
      var n := |b| - 1;
      HullJoin(a, b[..n]);
      assert (a + b)[..|a + b| - 1] == a + b[..n];
    }
  }

  /** The extents of the two cursors do not overlap. */
  ghost predicate Away(c: Cursor, d: Cursor) {
    c.MaxTime() < d.MinTime() || d.MaxTime() < c.MinTime()
  }

  ghost predicate Apart(cs: seq<Cursor>) {
    forall k, l | 0 <= k < l < |cs| :: Away(cs[k], cs[l])
  }

  /** Among cursors that do not overlap, only one can have time t. */
  lemma OnlyOne(cs: seq<Cursor>, ss: seq<seq<Meas>>, t: Time) returns (k: nat)
    requires Ranged(cs, ss) && Apart(cs)
    ensures k <= |ss| && (forall j | 0 <= j < |ss| && j != k :: At(ss[j], t) == [])
    ensures k < |ss| ==> At(ss[k], t) != []
  {
    if j: nat :| j < |ss| && At(ss[j], t) != [] {
      k := j;
      forall i | 0 <= i < |ss| && i != k
        ensures At(ss[i], t) == []
      {
        assert Within(ss[i], cs[i].Extent()) && Within(ss[k], cs[k].Extent());
        assert Away(cs[i], cs[k]) || Away(cs[k], cs[i]);
        hide At, Lookup;
      }
    } else {
      k := |ss|;
    }
  }

  lemma {:induction false} ConcatAbove(cs: seq<Cursor>, ss: seq<seq<Meas>>, t: Time)
    requires Ranged(cs, ss) && forall k | 0 <= k < |cs| :: t < cs[k].MinTime()
    ensures AllAfter(Concat(ss), t)
    decreases |cs|
  {
    if cs != [] {
      assert Within(ss[0], cs[0].Extent());
      ConcatAbove(cs[1..], ss[1..], t);
    }
  }

  /** Read in turn, cursors that follow each other give a sorted stream. */
  lemma {:induction false} ChainSorted(cs: seq<Cursor>, ss: seq<seq<Meas>>)
    requires Ranged(cs, ss) && Chained(cs) && Mergeable(ss)
    ensures Readable(Concat(ss))
    decreases |cs|
  {
    if cs != [] {
      ChainSorted(cs[1..], ss[1..]);
      ConcatAbove(cs[1..], ss[1..], cs[0].MaxTime());
      assert Readable(ss[0]) && Within(ss[0], cs[0].Extent());
    }
  }

  /** The sub-cursors of a linear cursor, taken out of it; any other cursor as
      it is. */
  method HoistLinear(c: Cursor, ghost s: seq<Meas>) returns (cs: seq<Cursor>, ghost ss: seq<seq<Meas>>)
    requires Holds(c, s) && s != [] && c.Repr() !! c.Shared()
    modifies c.Repr()
    ensures Ready(cs, ss, c.Repr(), c.Shared(), c.Height() + 1) && Concat(ss) == s
    ensures Bounded(cs, c.MinTime(), c.MaxTime())
    ensures old(Straight(c)) && Within(s, c.Extent()) && Readable(s) ==> Ranged(cs, ss) && Apart(cs) && Mergeable(ss)
  {
    hide Ready, NoneEmpty, Within, Readable;
    if !c.Linear? {
      cs, ss := [c], [s];
      ReadyOne(c, s);
      assert Concat(ss[1..]) == [];
    } else {
      var l := c.lin;
      LinearReady(l);
      cs, ss := l.readers, l.streams;
      l.readers := [];
      ReadyMore(cs, ss, l.repr, l.shared, l.height, c.Repr(), c.Height() + 1);
    }
  }

  lemma LinearReady(l: LinearCursor)
    requires l.Valid()
    ensures Ready(l.readers, l.streams, l.repr, l.shared, l.height)
    ensures Concat(l.streams) == l.pending && Bounded(l.readers, l.minTime, l.maxTime)
    ensures l.InLine() ==> Ranged(l.readers, l.streams) && Apart(l.readers) && Mergeable(l.streams)
  {
    hide AllHold, Family, NoneEmpty, Mergeable, Bounded, Ranged, Concat;
  }

  /** Streams of cursors that do not overlap hold, at every time, what they
      give one after another. */
  lemma ApartConcat(cs: seq<Cursor>, ss: seq<seq<Meas>>, t: Time)
    requires Ranged(cs, ss) && Apart(cs)
    ensures AtFirst(ss, t) == At(Concat(ss), t)
  {
    hide Ranged, Apart, At, AtFirst, Concat;
    var k := OnlyOne(cs, ss, t);
    AtFirstOnly(ss, t, k);
    ConcatAt(ss, t, k);
  }

  /** Linear cursors among the inputs give way to their sub-cursors. */
  method UnpackLinear(inputs: seq<Cursor>, ghost ss: seq<seq<Meas>>,
                      ghost repr: set<object>, ghost shared: set<object>, ghost height: nat)
    returns (flat: seq<Cursor>, ghost fs: seq<seq<Meas>>)
    requires Ready(inputs, ss, repr, shared, height)
    modifies repr
    ensures Ready(flat, fs, repr, shared, height) && Concat(fs) == Concat(ss)
    ensures old(Separate(inputs, ss, repr)) ==>
              Ranged(inputs, ss) && Apart(inputs) && Ranged(flat, fs) && Apart(flat) && Mergeable(fs)
  {
    hide *;
    flat, fs := [], [];
    ghost var used: set<object> := {};
    ghost var separate := Separate(inputs, ss, repr);
    ReadyParts(inputs, ss, repr, shared, height);
    if separate { SeparateParts(inputs, ss, repr); }
    assert ss[..0] == [];
    for i := 0 to |inputs|
      invariant used <= repr && Ready(flat, fs, used, shared, height)
      invariant forall j | i <= j < |inputs| :: inputs[j].Repr() !! used && Holds(inputs[j], ss[j])
      invariant separate ==> Clear(flat, fs, inputs, i) && forall j | i <= j < |inputs| :: Straight(inputs[j])
      invariant Concat(fs) == Concat(ss[..i])
    {
      var cs;
      ghost var hs;
      cs, hs := HoistLinear(inputs[i], ss[i]);
      ReadyJoin(flat, fs, used, cs, hs, inputs[i].Repr(), inputs[i].Shared(), inputs[i].Height() + 1, shared, height);
      if separate { ClearStep(flat, fs, inputs, i, cs, hs); }
      ConcatJoin(fs, hs);
      ConcatSnoc(ss[..i], ss[i]);
      assert ss[..i + 1] == ss[..i] + [ss[i]];
      flat, fs, used := flat + cs, fs + hs, used + inputs[i].Repr();
    }
    assert ss[..|ss|] == ss;
    ReadyMore(flat, fs, used, shared, height, repr, height);
    if separate { ClearApart(flat, fs, inputs, |inputs|); }
  }

  /** Cursors that overlap neither each other nor an input still to come. */
  ghost predicate Clear(flat: seq<Cursor>, fs: seq<seq<Meas>>, inputs: seq<Cursor>, i: nat) {
    && Mergeable(fs) && Ranged(flat, fs) && Apart(flat) && Apart(inputs)
    && forall k, j | 0 <= k < |flat| && i <= j < |inputs| :: Away(flat[k], inputs[j])
  }

  lemma ClearApart(flat: seq<Cursor>, fs: seq<seq<Meas>>, inputs: seq<Cursor>, i: nat)
    requires Clear(flat, fs, inputs, i)
    ensures Ranged(flat, fs) && Apart(flat) && Mergeable(fs)
  {
  }

  lemma SeparateParts(inputs: seq<Cursor>, ss: seq<seq<Meas>>, repr: set<object>)
    requires Separate(inputs, ss, repr)
    ensures Clear([], [], inputs, 0) && Ranged(inputs, ss) && Apart(inputs)
    ensures forall k | 0 <= k < |inputs| :: Straight(inputs[k])
    ensures |ss| == |inputs| && forall k | 0 <= k < |inputs| :: Within(ss[k], inputs[k].Extent()) && Readable(ss[k])
  {
    hide Straight, Within, Apart, Readable;
    assert Apart([]) by { NoneApart(); }
  }

  lemma NoneApart()
    ensures Apart([])
  {
  }

  lemma ClearStep(flat: seq<Cursor>, fs: seq<seq<Meas>>, inputs: seq<Cursor>, i: nat,
                  more: seq<Cursor>, ms: seq<seq<Meas>>)
    requires i < |inputs| && Clear(flat, fs, inputs, i) && Ranged(more, ms) && Apart(more) && Mergeable(ms)
    requires Bounded(more, inputs[i].MinTime(), inputs[i].MaxTime())
    ensures Clear(flat + more, fs + ms, inputs, i + 1)
  {
    forall j | i < j < |inputs|
      ensures Away(inputs[i], inputs[j])
    {
    }
    hide Cursor.MinTime, Cursor.MaxTime, Within, Readable;
  }

  /** Sorts by start; cursors that do not overlap then follow each other. */
  method SortByStart(cs: seq<Cursor>, ghost ss: seq<seq<Meas>>,
                     ghost repr: set<object>, ghost shared: set<object>, ghost height: nat)
    returns (r: seq<Cursor>, ghost rs: seq<seq<Meas>>)
    requires Ready(cs, ss, repr, shared, height)
    ensures Ready(r, rs, repr, shared, height) && StartSorted(r) && multiset(Concat(rs)) == multiset(Concat(ss))
    ensures Ranged(cs, ss) && Apart(cs) && Mergeable(ss) ==>
              Ranged(r, rs) && Chained(r) && Mergeable(rs) && IsJoinOf(Concat(rs), ss)
  {
    hide Ready, Apart, Chained, Ranged, Mergeable, IsJoinOf, SortedBy, Concat;
    ReadyParts(cs, ss, repr, shared, height);
    ghost var perm;
    r, perm := InsertionSort(cs, (c: Cursor) => c.MinTime());
    rs := seq(|ss|, k requires 0 <= k < |ss| => ss[perm[k]]);
    PermutedReady(cs, ss, r, rs, perm, repr, shared, height);
    ReadyStreams(r, rs, repr, shared, height);
    SortedStarts(r);
    PermutedConcat(ss, rs, perm);
    if Ranged(cs, ss) && Apart(cs) && Mergeable(ss) {
      PermutedRanged(cs, ss, r, rs, perm);
      StartsChain(cs, r, rs, perm);
      JoinsAll(r, rs, ss, perm);
    }
  }

  lemma SortedStarts(cs: seq<Cursor>)
    requires SortedBy(cs, (c: Cursor) => c.MinTime())
    ensures StartSorted(cs)
  {
    var key := (c: Cursor) => c.MinTime();
    forall k, l | 0 <= k < l < |cs|
      ensures cs[k].MinTime() <= cs[l].MinTime()
    {
      assert key(cs[k]) <= key(cs[l]);
    }
  }

  lemma PermutedRanged(cs: seq<Cursor>, ss: seq<seq<Meas>>, cs': seq<Cursor>, ss': seq<seq<Meas>>, perm: seq<nat>)
    requires Ranged(cs, ss) && Mergeable(ss) && Permuted(cs, cs', perm) && Permuted(ss, ss', perm)
    ensures Ranged(cs', ss') && Mergeable(ss')
  {
    hide Within, Readable;
  }

  /** Streams put in another order hold the same measurements. */
  lemma {:induction false} PermutedConcat(ss: seq<seq<Meas>>, ss': seq<seq<Meas>>, perm: seq<nat>)
    requires Permuted(ss, ss', perm)
    ensures multiset(Concat(ss')) == multiset(Concat(ss))
    decreases |ss|
  {
    hide Permuted, Concat;
    PermutedLength(ss, ss', perm);
    if ss != [] {
      var n := |ss| - 1;
      var k := LastPlace(ss, ss', perm);
      PermutedConcat(ss[..n], ss'[..k] + ss'[k + 1..], perm[..k] + perm[k + 1..]);
      ConcatSnoc(ss[..n], ss[n]);
      assert ss == ss[..n] + [ss[n]];
      ConcatWithout(ss', k);
    }
  }

  lemma ConcatWithout(ss: seq<seq<Meas>>, k: nat)
    requires k < |ss|
    ensures multiset(Concat(ss)) == multiset(Concat(ss[..k] + ss[k + 1..])) + multiset(ss[k])
  {
    hide Concat;
    ConcatJoin(ss[..k], ss[k + 1..]);
    ConcatSnoc(ss[..k], ss[k]);
    ConcatJoin(ss[..k] + [ss[k]], ss[k + 1..]);
    assert ss == ss[..k] + [ss[k]] + ss[k + 1..];
  }

  lemma PermutedReady(cs: seq<Cursor>, ss: seq<seq<Meas>>, cs': seq<Cursor>, ss': seq<seq<Meas>>, perm: seq<nat>,
                      repr: set<object>, shared: set<object>, height: nat)
    requires Ready(cs, ss, repr, shared, height) && Permuted(cs, cs', perm) && Permuted(ss, ss', perm)
    ensures Ready(cs', ss', repr, shared, height)
  {
    hide Holds;
    forall k, l | 0 <= k < l < |cs'|
      ensures cs'[k].Repr() !! cs'[l].Repr()
    {
      assert perm[k] != perm[l];
    }
  }

  lemma StartsChain(cs: seq<Cursor>, cs': seq<Cursor>, ss': seq<seq<Meas>>, perm: seq<nat>)
    requires Apart(cs) && Permuted(cs, cs', perm) && StartSorted(cs') && Ranged(cs', ss') && NoneEmpty(ss')
    ensures Chained(cs')
  {
    forall k, l | 0 <= k < l < |cs'|
      ensures cs'[k].MaxTime() < cs'[l].MinTime()
    {
      assert perm[k] != perm[l];
      if perm[k] < perm[l] {
        assert Away(cs[perm[k]], cs[perm[l]]);
      } else {
        assert Away(cs[perm[l]], cs[perm[k]]);
      }
      assert Within(ss'[l], cs'[l].Extent());
      assert cs'[l].MinTime() <= ss'[l][0].time <= cs'[l].MaxTime();
    }
  }

  lemma JoinsAll(cs': seq<Cursor>, ss': seq<seq<Meas>>, ss: seq<seq<Meas>>, perm: seq<nat>)
    requires Permuted(ss, ss', perm) && Ranged(cs', ss') && Chained(cs') && Mergeable(ss')
    ensures IsJoinOf(Concat(ss'), ss)
  {
    ChainSorted(cs', ss');
    assert Apart(cs') && Nondecreasing(Concat(ss'));
    hide Ranged, Chained, Mergeable, Apart, Nondecreasing, At, AtFirst, Concat;
    forall t: Time
      ensures At(Concat(ss'), t) == AtFirst(ss, t)
    {
      var k := OnlyOne(cs', ss', t);
      ConcatAt(ss', t, k);
      forall j | 0 <= j < |ss| && (k < |ss| ==> j != perm[k])
        ensures At(ss[j], t) == []
      {
        assert j in perm;
        var l :| 0 <= l < |perm| && perm[l] == j;
        assert At(ss'[l], t) == [];
      }
      AtFirstOnly(ss, t, if k < |ss| then perm[k] else |ss|);
    }
  }

  lemma SameJoin(out: seq<Meas>, flat: seq<Cursor>, fs: seq<seq<Meas>>, cs: seq<Cursor>, ss: seq<seq<Meas>>)
    requires IsJoinOf(out, fs) && Concat(fs) == Concat(ss)
    requires Ranged(flat, fs) && Apart(flat) && Ranged(cs, ss) && Apart(cs)
    ensures IsJoinOf(out, ss)
  {
    hide At, AtFirst, Ranged, Apart, Concat;
    forall t: Time
      ensures At(out, t) == AtFirst(ss, t)
    {
      ApartConcat(flat, fs, t);
      ApartConcat(cs, ss, t);
    }
  }

  lemma {:induction false} HullBounds(cs: seq<Cursor>)
    ensures Bounded(cs, MinStart(cs), MaxEnd(cs))
    decreases |cs|
  {
    if cs != [] {
      var n := |cs| - 1;
      HullBounds(cs[..n]);
      assert forall k | 0 <= k < n :: cs[..n][k] == cs[k];
    }
  }
}
