/** A chunk: a header, a buffer filled from the top, and the cursor that reads
    the chunk back. */
module Chunks {
  import opened Measurements
  import opened Streams
  import opened Statistics
  import opened RecordCodec
  import opened RunCodec
  import opened ByteBuffers
  import opened Writer
  import opened PackedRuns

  /** The measurement a header stores for m: the id is the header's own. */
  function Stored(id: Id, m: Meas): Meas {
    m.(id := id)
  }

  class ChunkHeader {
    var first: Meas
    var last: Meas
    var bwPos: nat
    var size: nat
    var isSorted: bool
    const stat: Statistic

    constructor (env: Numerics)
      ensures fresh(stat) && stat.env == env && stat.Current() == Empty(env)
    {
      first, last := NO_MEAS, NO_MEAS;
      bwPos, size, isSorted := 0, 0, false;
      stat := new Statistic(env);
    }

    /** The header of a chunk that holds the run h in `size` bytes. */
    ghost predicate Describes(h: seq<Meas>)
      reads this, stat
    {
      && h != []
      && first == h[0] && last == Stored(h[0].id, h[|h| - 1])
      && isSorted == Nondecreasing(h)
      && stat.Current() == StatOf(stat.env, h)
    }

    /** The header of a chunk that holds one measurement. */
    method Init(m: Meas, size: nat)
      requires stat.Current() == Empty(stat.env)
      modifies this, stat
      ensures this.size == size && Describes([m]) && bwPos == old(bwPos)
    {
      SingleRun(stat.env, m, [0]);
      hide Packed, Nondecreasing, StatOf, Combine, Single, Empty, Final, Initial;
      this.size := size;
      first, last := m, m;
      stat.Update(m);
      isSorted := true;
    }

    /** Shrinks the buffer to what is used; the result is the number of bytes
        to drop from its low end. */
    method Compact() returns (skip: nat)
      requires bwPos < size
      modifies this`size, this`bwPos
      ensures skip == if old(bwPos) == 0 then 0 else old(bwPos) - 1
      ensures size == old(size) - skip && bwPos == 0
    {
      if bwPos == 0 {
        return 0;
      }
      var used := size - bwPos + 1;
      skip := size - used;
      size := used;
      bwPos := 0;
    }
  }

  class Chunk {
    const header: ChunkHeader
    const buffer: array<byte>
    const bw: ByteBuffer
    const writer: CompressedWriter
    ghost var history: seq<Meas>

    ghost function Repr(): set<object> {
      {this, header, header.stat, buffer, bw, writer, writer.bb, writer.timeComp, writer.valueComp, writer.flagComp}
    }

    /** The committed part of the buffer is the packed history, and as long as
        the writer has not failed it stands exactly there. */
    ghost predicate Valid()
      reads Repr()
    {
      && writer.Valid() && writer.bb == bw && bw.data == buffer && !writer.isFirst
      && header.size == buffer.Length
      && Packed(buffer[..], header.bwPos, history)
      && header.Describes(history)
      && (!writer.isFull ==>
            && bw.pos == header.bwPos && writer.St() == Final(Initial(history[0]), history[1..])
            && writer.valueComp.prevValue == header.last.value)
    }

    constructor Create(hdr: ChunkHeader, buffer: array<byte>, first: Meas)
      requires 1 <= buffer.Length < TWO_32
      requires hdr.stat.Current() == Empty(hdr.stat.env)
      modifies hdr, hdr.stat, buffer
      ensures Valid() && header == hdr && this.buffer == buffer
      ensures history == [first] && !writer.isFull
      ensures fresh(Repr() - {hdr, hdr.stat, buffer})
    {
      hide Packed, Nondecreasing, StatOf, Combine, Single, Empty, Final, Initial, EncodeOne, After;
      header := hdr;
      this.buffer := buffer;
      var b := new ByteBuffer(buffer);
      bw := b;
      writer := new CompressedWriter(b);
      history := [first];
      new;
      header.Init(first, buffer.Length);
      forall i | 0 <= i < buffer.Length {
        buffer[i] := 0;
      }
      bw.ResetPos();
      header.bwPos := bw.pos;
      var _ := writer.Append(header.first);
      SingleRun(header.stat.env, first, buffer[..]);
      assert header.Describes(history);
    }

    method Append(m: Meas) returns (ok: bool)
      requires Valid() && !writer.isFull
      requires ValueFits(XorOf(header.last.value, m.value))
      modifies Repr()
      ensures Valid()
      ensures ok <==> |EncodeOne(old(writer.St()), m)| <= old(header.bwPos)
      ensures ok ==> history == old(history) + [m] && !writer.isFull
      ensures !ok ==>
                && history == old(history) && writer.isFull && unchanged(header) && unchanged(header.stat)
                && buffer[..][header.bwPos..] == old(buffer[..])[header.bwPos..]
    {
      hide Packed, Nondecreasing, StatOf, Combine, Single, Final, Initial, EncodeOne, ValueFits, XorOf;
      ghost var h := history;
      var tf := writer.Append(m);
      if !tf {
        PackedFrame(old(buffer[..]), buffer[..], header.bwPos, h);
        return false;
      }
      PackedAppend(old(buffer[..]), header.bwPos, buffer[..], bw.pos, h, m);
      DescribesMore(h, m);
      if m.time < header.last.time {
        header.isSorted := false;
      }
      header.bwPos := bw.pos;
      header.stat.Update(m);
      header.last := Stored(header.first.id, m);
      history := history + [m];
      return true;
    }
  }

  /** A run of one measurement lives in the header alone. */
  lemma SingleRun(env: Numerics, m: Meas, data: seq<byte>)
    requires data != []
    ensures Packed(data, |data| - 1, [m]) && Nondecreasing([m])
    ensures StatOf(env, [m]) == Combine(Empty(env), Single(env, m))
    ensures Final(Initial(m), [m][1..]) == Initial(m) && Initial(m).prevValue == m.value
  {
    assert [m][..0] == [] && [m][1..] == [];
  }

  lemma DescribesMore(h: seq<Meas>, m: Meas)
    requires h != []
    ensures Nondecreasing(h + [m]) <==> Nondecreasing(h) && h[|h| - 1].time <= m.time
    ensures forall env :: StatOf(env, h + [m]) == Combine(StatOf(env, h), Single(env, m))
  {
    assert (h + [m])[..|h|] == h;
    if Nondecreasing(h + [m]) {
      assert forall i | 0 <= i < |h| :: (h + [m])[i] == h[i];
      assert (h + [m])[|h| - 1].time <= (h + [m])[|h|].time;
    }
  }
}
