/** Reading a chunk: the cursor over the packed bytes, the sorted copy that
    replaces it for an out-of-order chunk, and the statistic of an interval. */
module ChunkCursors {
  import opened Measurements
  import opened Sorting
  import opened Streams
  import opened Statistics
  import opened RunCodec
  import opened ByteBuffers
  import opened Compression
  import opened Writer
  import opened PackedRuns
  import opened ArrayCursors
  import opened Chunks

  class ChunkReader {
    var topValueExists: bool
    var topValue: Meas
    var count: nat
    const reader: CompressedReader
    const minTime: Time
    const maxTime: Time
    ghost var pending: seq<Meas>

    ghost function Objects(): set<object> {
      {this, reader.bw, reader.timeDcomp, reader.valueDcomp}
    }

    ghost predicate Valid()
      reads Objects(), reader.bw.data
    {
      && reader.Valid() && |pending| == count && (count > 0 ==> topValueExists)
      && Remaining(reader.St(), reader.first.id, count, Below(reader.bw), pending)
    }

    /** What the cursor still holds, top first. */
    ghost function Items(): seq<Meas>
      reads this
    {
      if topValueExists then [topValue] + pending else []
    }

    constructor (first: Meas, count: nat, data: array<byte>, minTime: Time, maxTime: Time, ghost pos: nat,
                 ghost h: seq<Meas>)
      requires 1 <= data.Length < TWO_32 && Packed(data[..], pos, h) && first == h[0] && count == |h| - 1
      ensures Valid() && Items() == Decoded(h)
      ensures fresh(Objects()) && reader.bw.data == data && this.minTime == minTime && this.maxTime == maxTime
    {
      this.minTime, this.maxTime := minTime, maxTime;
      hide DecodeRun, Packed, Decoded;
      topValueExists, topValue, this.count := true, first, count;
      var b := new ByteBuffer(data);
      reader := new CompressedReader(b, first);
      pending := Decoded(h)[1..];
      PackedDecodes(data[..], pos, h);
    }

    predicate IsEnd()
      reads this
    {
      count == 0 && !topValueExists
    }

    method Top() returns (m: Meas)
      requires Valid() && !IsEnd()
      ensures Items() != [] && m == Items()[0]
    {
      m := topValue;
    }

    lemma EndIsEmpty()
      requires Valid()
      ensures IsEnd() <==> Items() == []
    {
      hide Remaining;
    }

    /** Unpacks one more record into the top value. */
    method Unpack()
      requires Valid() && count > 0
      modifies Objects()
      ensures Valid() && topValueExists && count == old(count) - 1
      ensures old(pending) == [topValue] + pending
    {
      hide DecodeRun, ParseRecord, Remaining;
      ghost var s, p0 := Below(reader.bw), reader.bw.pos;
      RemainingStep(reader.St(), reader.first.id, count, s, pending);
      count := count - 1;
      topValue := reader.Read();
      topValueExists := true;
      DownSplit(reader.bw.data[..], 0, reader.bw.pos, p0);
      pending := pending[1..];
    }

    method SkipDuplicates(t: Time)
      requires Valid() && count > 0
      modifies Objects()
      ensures Valid() && topValueExists && Items() == Advance(old(pending), t)
    {
      hide Remaining, Advance;
      ghost var target, started := Advance(pending, t), false;
      while count > 0
        invariant Valid()
        invariant if started then topValueExists && topValue.time == t && Advance(Items(), t) == target
                  else count > 0 && Advance(pending, t) == target
        decreases count
      {
        if started { AdvanceMore(topValue, pending, t); }
        Unpack();
        started := true;
        if topValue.time != t {
          AdvanceStops(Items(), t);
          return;
        }
      }
      AdvanceStops(Items(), t);
    }

    method ReadNext() returns (m: Meas)
      requires Valid() && !IsEnd()
      modifies Objects()
      ensures Valid()
      ensures old(Items()) != [] && m == old(Items())[0] && Items() == AfterRead(old(Items()))
    {
      if count == 0 {
        topValueExists := false;
        return topValue;
      }
      m := topValue;
      ghost var l := Items();
      assert l[1..] == pending;
      SkipDuplicates(m.time);
    }
  }

  lemma AdvanceMore(m: Meas, l: seq<Meas>, t: Time)
    requires m.time == t && l != []
    ensures Advance([m] + l, t) == Advance(l, t)
  {
    assert ([m] + l)[1..] == l;
  }

  lemma AdvanceStops(l: seq<Meas>, t: Time)
    requires l != [] && (|l| == 1 || l[0].time != t)
    ensures Advance(l, t) == l
  {
  }

  /** The next n records of stream s are ms. */
  ghost predicate Remaining(st: State, id: Id, n: nat, s: seq<byte>, ms: seq<Meas>) {
    DecodeRun(st, id, n, s).Some? && DecodeRun(st, id, n, s).value.0 == ms
  }

  lemma RemainingStep(st: State, id: Id, n: nat, s: seq<byte>, ms: seq<Meas>)
    requires n > 0 && Remaining(st, id, n, s, ms)
    ensures ParseRecord(st, id, s).Some?
    ensures var rec := ParseRecord(st, id, s).value;
            ms == [rec.meas] + ms[1..] && Remaining(rec.state, id, n - 1, s[rec.size..], ms[1..])
  {
    hide ParseRecord;
  }

  // -------------------------------------------------- the cursor of a whole chunk

  datatype ChunkCursor = PackedCursor(reader: ChunkReader) | SortedCopy(full: FullCursor)

  function Blanks(n: nat): seq<Meas> {
    seq(n, _ => NO_MEAS)
  }

  /** Reads a cursor to its end into an array of the given size, whose unused
      tail keeps default measurements. */
  method Collect(reader: ChunkReader, size: nat) returns (ma: seq<Meas>)
    requires reader.Valid() && size == |reader.Items()|
    modifies reader.Objects()
    ensures |ma| == size
    ensures var l := old(reader.Items()); ma == Yielded(l) + Blanks(size - |Yielded(l)|)
  {
    hide Remaining, AfterRead, Yielded, Blanks, DecodeRun;
    ghost var l, done := reader.Items(), [];
    ma := Blanks(size);
    BlanksLength(size);
    YieldedBound(l);
    assert [] + Yielded(l) == Yielded(l) && [] + Blanks(size) == Blanks(size);
    var pos := 0;
    while !reader.IsEnd()
      invariant reader.Valid() && pos == |done| && pos + |reader.Items()| <= size && |ma| == size
      invariant Yielded(l) == done + Yielded(reader.Items())
      invariant ma == done + Blanks(size - pos)
      decreases |reader.Items()|
    {
      ghost var before := reader.Items();
      var v := reader.ReadNext();
      YieldedStep(before);
      BlanksStep(done, size - pos, v);
      assert done + ([v] + Yielded(reader.Items())) == done + [v] + Yielded(reader.Items());
      ma := ma[pos := v];
      pos := pos + 1;
      done := done + [v];
    }
    YieldedNothing();
    assert done + [] == done;
  }

  lemma BlanksLength(n: nat)
    ensures |Blanks(n)| == n
  {
  }

  lemma BlanksStep(done: seq<Meas>, n: nat, v: Meas)
    requires n > 0
    ensures |Blanks(n)| == n && |Blanks(n - 1)| == n - 1
    ensures (done + Blanks(n))[|done| := v] == done + [v] + Blanks(n - 1)
  {
  }

  lemma YieldedBound(l: seq<Meas>)
    ensures |Yielded(l)| <= |l|
  {
  }

  lemma YieldedNothing()
    ensures Yielded([]) == []
  {
  }

  method SortByTime(xs: seq<Meas>) returns (r: seq<Meas>)
    ensures Nondecreasing(r) && multiset(r) == multiset(xs) && |r| == |xs|
  {
    hide Permuted;
    ghost var perm;
    r, perm := InsertionSort(xs, (m: Meas) => m.time);
    PermutedMultiset(xs, r, perm);
    assert |multiset(r)| == |r| && |multiset(xs)| == |xs|;
    assert forall i, j | 0 <= i < j < |r| :: ((m: Meas) => m.time)(r[i]) <= ((m: Meas) => m.time)(r[j]);
  }

  /** A sorted array of everything the packed cursor yields, padded to size. */
  ghost predicate IsSortedCopy(ma: seq<Meas>, l: seq<Meas>) {
    Nondecreasing(ma) && multiset(ma) == multiset(Yielded(l) + Blanks(|l| - |Yielded(l)|))
  }

  method GetReader(chunk: Chunk) returns (c: ChunkCursor)
    requires chunk.Valid()
    ensures chunk.header.isSorted ==>
              && c.PackedCursor? && fresh(c.reader.Objects())
              && c.reader.Valid() && c.reader.Items() == Decoded(chunk.history)
              && c.reader.reader.bw.data == chunk.buffer
              && c.reader.minTime == chunk.header.stat.minTime && c.reader.maxTime == chunk.header.stat.maxTime
    ensures !chunk.header.isSorted ==>
              && c.SortedCopy? && fresh(c.full) && c.full.Valid() && c.full.index == 0 && c.full.ma != []
              && c.full.minTime == MinTimeOf(c.full.ma) && c.full.maxTime == MaxTimeOf(c.full.ma)
              && IsSortedCopy(c.full.ma, Decoded(chunk.history))
  {
    hide Packed, StatOf, Decoded, Nondecreasing, Remaining, Yielded, Blanks;
    ghost var h := chunk.history;
    StatCount(chunk.header.stat.env, h);
    var reader := new ChunkReader(chunk.header.first, chunk.header.stat.count - 1, chunk.buffer,
                                  chunk.header.stat.minTime, chunk.header.stat.maxTime, chunk.header.bwPos, h);
    if chunk.header.isSorted {
      return PackedCursor(reader);
    }
    var ma := Collect(reader, chunk.header.stat.count);
    var sorted := SortByTime(ma);
    var full := new FullCursor(sorted);
    return SortedCopy(full);
  }

  /** Compaction preserves content: a fresh cursor over the bytes that are kept
      yields the same run, and a second compaction drops nothing. */
  method CompactAndReopen(header: ChunkHeader, data: array<byte>, ghost h: seq<Meas>)
    returns (kept: array<byte>, reader: ChunkReader, again: nat)
    requires header.size == data.Length < TWO_32 && Packed(data[..], header.bwPos, h) && header.Describes(h)
    modifies header
    ensures kept.Length == header.size <= data.Length && kept[..] == data[data.Length - header.size..] && again == 0
    ensures header.Describes(h) && header.bwPos == 0
    ensures reader.Valid() && reader.Items() == Decoded(h) && reader.reader.bw.data == kept
  {
    hide Packed, StatOf, Decoded, Nondecreasing, Remaining;
    ghost var pos := header.bwPos;
    PackedPosition(data[..], pos, h);
    var skip := header.Compact();
    PackedDrop(data[..], pos, skip, h);
    kept := new byte[header.size](i requires 0 <= i < header.size reads data, header =>
      if skip + i < data.Length then data[skip + i] else 0);
    assert kept[..] == data[..][skip..];
    StatCount(header.stat.env, h);
    reader := new ChunkReader(header.first, header.stat.count - 1, kept,
                              header.stat.minTime, header.stat.maxTime, pos - skip, h);
    again := header.Compact();
  }

  lemma PackedPosition(data: seq<byte>, pos: nat, h: seq<Meas>)
    requires Packed(data, pos, h)
    ensures pos < |data|
  {
  }
}
