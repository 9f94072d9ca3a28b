/** The writer that packs whole measurements and the reader that unpacks them:
    three codecs on one buffer. */
module Writer {
  import opened Measurements
  import opened Bits
  import opened Leb128
  import opened RecordCodec
  import opened RunCodec
  import opened ByteBuffers
  import opened Compression

  class CompressedWriter {
    const bb: ByteBuffer
    var isFirst: bool
    var isFull: bool
    const timeComp: DeltaCompressor
    const valueComp: XorCompressor
    const flagComp: FlagCompressor

    ghost predicate Valid()
      reads this, bb, timeComp, valueComp, flagComp
    {
      && bb.Valid()
      && timeComp.bw == bb && valueComp.bw == bb && flagComp.bw == bb
      && timeComp.isFirst == valueComp.isFirst == flagComp.isFirst == isFirst
    }

    /** The state the next record depends on. */
    ghost function St(): State
      reads this, timeComp, valueComp
    {
      State(timeComp.prevTime, timeComp.prevDelta, valueComp.prevValue)
    }

    constructor (bw: ByteBuffer)
      requires bw.Valid()
      ensures Valid() && bb == bw && isFirst && !isFull
      ensures fresh(timeComp) && fresh(valueComp) && fresh(flagComp)
    {
      bb := bw;
      isFirst, isFull := true, false;
      timeComp := new DeltaCompressor(bw);
      valueComp := new XorCompressor(bw);
      flagComp := new FlagCompressor(bw);
    }

    method Append(m: Meas) returns (ok: bool)
      requires Valid()
      requires !isFirst ==> ValueFits(XorOf(valueComp.prevValue, m.value))
      modifies this, bb`pos, bb.data, timeComp, valueComp, flagComp
      ensures Valid() && !isFirst
      ensures old(isFirst) ==>
                && ok && St() == Initial(m) && isFull == old(isFull)
                && bb.pos == old(bb.pos) && bb.data[..] == old(bb.data[..])
      ensures !old(isFirst) ==> (ok <==> |EncodeOne(old(St()), m)| <= old(bb.pos))
      ensures !old(isFirst) && ok ==>
                && St() == After(old(St()), m) && isFull == old(isFull)
                && Emitted(old(bb.data[..]), bb.data[..], old(bb.pos), bb.pos, EncodeOne(old(St()), m))
      ensures !ok ==>
                && isFull && bb.pos <= old(bb.pos)
                && bb.data[..][old(bb.pos)..] == old(bb.data[..])[old(bb.pos)..]
    {
      hide DeltaBytes, XorBytes, Leb, ValueFits, Wrap, Signed, XorBits;
      ghost var st, wasFirst := St(), isFirst;
      ghost var d0, p0 := bb.data[..], bb.pos;
      if isFirst {
        isFirst := false;
      }
      var tf := timeComp.Append(m.time);
      ghost var d1, p1 := bb.data[..], bb.pos;
      var ff := valueComp.Append(m.value);
      ghost var d2, p2 := bb.data[..], bb.pos;
      var vf := flagComp.Append(m.flag);
      if !wasFirst {
        JoinParts(st, m, tf, ff, vf, d0, p0, d1, p1, d2, p2, bb.data[..], bb.pos);
      }
      if !tf || !ff || !vf {
        isFull := true;
        return false;
      } else {
        return true;
      }
    }
  }

  /** What one codec did to the buffer: wrote all its bytes, or ran out of room
      having touched nothing above its start. */
  ghost predicate Part(ok: bool, bytes: seq<byte>, d: seq<byte>, p: nat, d': seq<byte>, p': nat) {
    && p' <= p <= |d| == |d'| && d'[p..] == d[p..]
    && (ok <==> |bytes| <= p)
    && (ok ==> Emitted(d, d', p, p', bytes))
  }

  lemma JoinParts(st: State, m: Meas, tf: bool, ff: bool, vf: bool, d0: seq<byte>, p0: nat,
                  d1: seq<byte>, p1: nat, d2: seq<byte>, p2: nat, d3: seq<byte>, p3: nat)
    requires ValueFits(XorOf(st.prevValue, m.value))
    requires Part(tf, DeltaBytes(StepDelta(st, m.time)), d0, p0, d1, p1)
    requires Part(ff, XorBytes(XorOf(st.prevValue, m.value)), d1, p1, d2, p2)
    requires Part(vf, Leb(m.flag), d2, p2, d3, p3)
    ensures Part(tf && ff && vf, EncodeOne(st, m), d0, p0, d3, p3)
  {
    hide DeltaBytes, XorBytes, Leb, ValueFits, StepDelta, XorOf;
    var x, y, z := DeltaBytes(StepDelta(st, m.time)), XorBytes(XorOf(st.prevValue, m.value)), Leb(m.flag);
    if tf && ff && vf {
      EmittedThen(d0, d1, d2, p0, p1, p2, x, y);
      EmittedThen(d0, d2, d3, p0, p2, p3, x + y, z);
    }
  }

  class CompressedReader {
    const first: Meas
    const bw: ByteBuffer
    const timeDcomp: DeltaDeCompressor
    const valueDcomp: XorDeCompressor
    const flagDcomp: FlagDeCompressor

    ghost predicate Valid()
      reads bw
    {
      bw.Valid() && timeDcomp.bw == bw && valueDcomp.bw == bw && flagDcomp.bw == bw
    }

    ghost function St(): State
      reads timeDcomp, valueDcomp
    {
      State(timeDcomp.prevTime, timeDcomp.prevDelta, valueDcomp.prevValue)
    }

    constructor (bw: ByteBuffer, first: Meas)
      requires bw.Valid()
      ensures Valid() && this.bw == bw && this.first == first && St() == Initial(first)
      ensures fresh(timeDcomp) && fresh(valueDcomp) && fresh(flagDcomp)
    {
      this.bw, this.first := bw, first;
      timeDcomp := new DeltaDeCompressor(bw, first.time);
      valueDcomp := new XorDeCompressor(bw, first.value);
      flagDcomp := new FlagDeCompressor(bw, first.flag);
    }

    method Read() returns (m: Meas)
      requires Valid() && ParseRecord(St(), first.id, Below(bw)).Some?
      modifies bw`pos, timeDcomp, valueDcomp
      ensures Valid() && bw.pos <= old(bw.pos)
      ensures old(ParseRecord(St(), first.id, Below(bw)).value) == Record(m, St(), old(bw.pos) - bw.pos)
    {
      hide ParseDelta, ParseXor, ParseLeb, XorOf, Wrap;
      ghost var s, p0 := Below(bw), bw.pos;
      var t := timeDcomp.Read();
      ghost var p1 := bw.pos;
      DownSplit(bw.data[..], 0, p1, p0);
      assert Below(bw) == s[p0 - p1..];
      var v := valueDcomp.Read();
      DownSplit(bw.data[..], 0, bw.pos, p1);
      assert Below(bw) == s[p0 - p1..][p1 - bw.pos..];
      var f := flagDcomp.Read();
      m := Meas(first.id, t, v, f);
    }
  }
}
