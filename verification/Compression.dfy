/** The codec objects of a chunk: three compressors that share one buffer, the
    writer that drives them, and their mirror images on the reading side. */
module Compression {
  import opened Measurements
  import opened Bits
  import opened Leb128
  import opened RecordCodec
  import opened RunCodec
  import opened ByteBuffers

  /** The stream a reader of the buffer still has in front of it. */
  function Below(bw: ByteBuffer): (s: seq<byte>)
    requires bw.Valid()
    reads bw, bw.data
    ensures |s| == bw.pos
  {
    Down(bw.data[..], 0, bw.pos)
  }

  /** Reads the next n bytes as one number. */
  method NextValue(bw: ByteBuffer, n: nat) returns (v: nat)
    requires bw.Valid() && n <= bw.pos
    modifies bw`pos
    ensures bw.Valid() && bw.pos == old(bw.pos) - n
    ensures v == HighValue(old(Below(bw))[..n]) && Below(bw) == old(Below(bw))[n..]
  {
    hide HighValue;
    ghost var s := Below(bw);
    v := bw.Read(n);
    assert Down(bw.data[..], bw.pos, bw.pos + n) == s[..n];
    assert Down(bw.data[..], 0, bw.pos) == s[n..];
  }

  method NextByte(bw: ByteBuffer) returns (b: byte)
    requires bw.Valid() && 1 <= bw.pos
    modifies bw`pos
    ensures bw.Valid() && bw.pos == old(bw.pos) - 1
    ensures b == old(Below(bw))[0] && Below(bw) == old(Below(bw))[1..]
  {
    hide HighValue, Down;
    ghost var s := Below(bw);
    var v := NextValue(bw, 1);
    ByteValue(s[0]);
    assert s[..1] == [s[0]];
    b := v;
  }

  /** Writes one more byte behind those already emitted. */
  method PutByte(bw: ByteBuffer, b: byte, ghost p0: nat, ghost before: seq<byte>, ghost done: seq<byte>)
    requires bw.Valid() && 1 <= bw.pos && Emitted(before, bw.data[..], p0, bw.pos, done)
    modifies bw`pos, bw.data
    ensures bw.Valid() && bw.pos == old(bw.pos) - 1
    ensures Emitted(before, bw.data[..], p0, bw.pos, done + [b])
  {
    bw.Write(b, 1);
    assert HighBytes(b, 1) == [b];
    EmittedThen(before, old(bw.data[..]), bw.data[..], p0, old(bw.pos), bw.pos, done, [b]);
  }

  // ------------------------------------------------------------------ times

  class DeltaCompressor {
    const bw: ByteBuffer
    var isFirst: bool
    var first: Time
    var prevDelta: int64
    var prevTime: Time

    constructor (bw: ByteBuffer)
      ensures this.bw == bw && isFirst
    {
      this.bw := bw;
      isFirst, first, prevDelta, prevTime := true, 0, 0, 0;
    }

    ghost function Delta(t: Time): int64
      reads this
    {
      Signed(Wrap(t - prevTime - prevDelta))
    }

    method Append(t: Time) returns (ok: bool)
      requires bw.Valid()
      modifies this, bw`pos, bw.data
      ensures bw.Valid() && !isFirst
      ensures old(isFirst) ==>
                && ok && prevTime == t && prevDelta == 0
                && bw.pos == old(bw.pos) && bw.data[..] == old(bw.data[..])
      ensures !old(isFirst) ==> (ok <==> |DeltaBytes(old(Delta(t)))| <= old(bw.pos))
      ensures !old(isFirst) && ok ==>
                && prevTime == t && prevDelta == old(Delta(t))
                && Emitted(old(bw.data[..]), bw.data[..], old(bw.pos), bw.pos, DeltaBytes(old(Delta(t))))
      ensures !ok ==> bw.pos == old(bw.pos) && bw.data[..] == old(bw.data[..])
    {
      hide Delta1b, Delta2b, Delta3b, Wrap, Signed;
      if isFirst {
        first, isFirst, prevTime, prevDelta := t, false, t, 0;
        return true;
      }
      var D := Signed(Wrap(t - prevTime - prevDelta));
      if -32 < D < 32 {
        if bw.FreeSize() < 1 { return false; }
        var d := Delta1b(D);
        bw.Write(d, 1);
        assert HighBytes(d, 1) == [d];
      } else if -4096 < D < 4096 {
        if bw.FreeSize() < 2 { return false; }
        bw.Write(Delta2b(D), 2);
      } else if -524288 < D < 524287 {
        if bw.FreeSize() < 3 { return false; }
        Write3(Delta3b(D));
      } else {
        if bw.FreeSize() < 9 { return false; }
        Write9(Wrap(D));
      }
      prevDelta, prevTime := D, t;
      return true;
    }

    /** High byte, then the low half-word. */
    method Write3(d: uint32)
      requires bw.Valid() && 3 <= bw.pos && d < 0x1000000
      modifies bw`pos, bw.data
      ensures bw.Valid() && bw.pos == old(bw.pos) - 3
      ensures Emitted(old(bw.data[..]), bw.data[..], old(bw.pos), bw.pos, HighBytes(d, 3))
    {
      var hi, lo := d / 0x10000, d % 0x10000;
      bw.Write(hi, 1);
      ghost var mid := bw.data[..];
      bw.Write(lo, 2);
      EmittedThen(old(bw.data[..]), mid, bw.data[..], old(bw.pos), old(bw.pos) - 1, bw.pos,
                  HighBytes(hi, 1), HighBytes(lo, 2));
      HalfWords(d);
    }

    /** A zero byte, then the whole word. */
    method Write9(w: uint64)
      requires bw.Valid() && 9 <= bw.pos
      modifies bw`pos, bw.data
      ensures bw.Valid() && bw.pos == old(bw.pos) - 9
      ensures Emitted(old(bw.data[..]), bw.data[..], old(bw.pos), bw.pos, [0] + HighBytes(w, 8))
    {
      bw.Write(0, 1);
      ghost var mid := bw.data[..];
      bw.Write(w, 8);
      EmittedThen(old(bw.data[..]), mid, bw.data[..], old(bw.pos), old(bw.pos) - 1, bw.pos,
                  HighBytes(0, 1), HighBytes(w, 8));
      assert HighBytes(0, 1) == [0];
    }
  }

  lemma HalfWords(d: nat)
    requires d < 0x1000000
    ensures HighBytes(d / 0x10000, 1) + HighBytes(d % 0x10000, 2) == HighBytes(d, 3)
  {
    var lo := d % 0x10000;
    assert HighBytes(lo / 256, 1) == [lo / 256];
    assert HighBytes(d / 256 / 256, 1) == [d / 0x10000];
    assert HighBytes(d / 256, 2) == [d / 0x10000, lo / 256];
  }

  class DeltaDeCompressor {
    const bw: ByteBuffer
    var prevDelta: int64
    var prevTime: Time

    constructor (bw: ByteBuffer, first: Time)
      ensures this.bw == bw && prevDelta == 0 && prevTime == first
    {
      this.bw := bw;
      prevDelta, prevTime := 0, first;
    }

    method Read() returns (t: Time)
      requires bw.Valid() && ParseDelta(Below(bw)).Some?
      modifies this, bw`pos
      ensures bw.Valid()
      ensures var (D, n) := old(ParseDelta(Below(bw)).value);
              && t == prevTime == Wrap(old(prevTime) + D + old(prevDelta))
              && prevDelta == D && bw.pos == old(bw.pos) - n
    {
      var result := ReadDelta();
      t := Wrap(prevTime + result + prevDelta);
      prevDelta, prevTime := result, t;
    }

    method ReadDelta() returns (result: int64)
      requires bw.Valid() && ParseDelta(Below(bw)).Some?
      modifies bw`pos
      ensures bw.Valid()
      ensures old(ParseDelta(Below(bw)).value) == (result, old(bw.pos) - bw.pos)
    {
      hide HighValue, Below, Announces1b, Announces2b, Announces3b, Payload1b, Payload2b, Payload3b,
        Extend1b, Extend2b, Extend3b;
      ghost var s := Below(bw);
      var firstByte := NextByte(bw);
      if Announces1b(firstByte) {
        result := Payload1b(firstByte);
        if result > 32 {
          result := Extend1b(result);
        }
      } else if Announces2b(firstByte) {
        var second := NextByte(bw);
        result := Payload2b(firstByte, second);
        if result > 4096 {
          result := Extend2b(result);
        }
      } else if Announces3b(firstByte) {
        var second := NextValue(bw, 2);
        assert s[1..][..2] == [s[1], s[2]];
        TwoByteValue(s[1], s[2]);
        result := Payload3b(firstByte, second);
        if result > 524287 {
          result := Extend3b(result);
        }
      } else {
        assert firstByte == 0;
        var word := NextValue(bw, 8);
        assert s[1..][..8] == s[1..9];
        result := Signed(Wrap(word));
      }
    }
  }

  lemma ByteValue(b: byte)
    ensures HighValue([b]) == b
  {
  }

  lemma TwoByteValue(h: byte, l: byte)
    ensures HighValue([h, l]) == 256 * h as int + l
  {
    assert [h, l][..1] == [h];
    assert HighValue([h]) == h;
  }

  // ----------------------------------------------------------------- values

  class XorCompressor {
    const bw: ByteBuffer
    var isFirst: bool
    var first: Value
    var prevValue: Value

    constructor (bw: ByteBuffer)
      ensures this.bw == bw && isFirst
    {
      this.bw := bw;
      isFirst, first, prevValue := true, 0, 0;
    }

    method Append(v: Value) returns (ok: bool)
      requires bw.Valid()
      requires !isFirst ==> ValueFits(XorOf(prevValue, v))
      modifies this, bw`pos, bw.data
      ensures bw.Valid() && !isFirst
      ensures old(isFirst) ==>
                && ok && prevValue == v
                && bw.pos == old(bw.pos) && bw.data[..] == old(bw.data[..])
      ensures !old(isFirst) ==> (ok <==> |XorBytes(XorOf(old(prevValue), v))| <= old(bw.pos))
      ensures !old(isFirst) && ok ==>
                && prevValue == v
                && Emitted(old(bw.data[..]), bw.data[..], old(bw.pos), bw.pos, XorBytes(XorOf(old(prevValue), v)))
      ensures !ok ==> bw.pos == old(bw.pos) && bw.data[..] == old(bw.data[..])
    {
      if isFirst {
        first, isFirst, prevValue := v, false, v;
        return true;
      }
      var xorVal := XorOf(prevValue, v);
      if xorVal == 0 {
        XorZero(prevValue, v);
        if bw.FreeSize() < 1 { return false; }
        bw.Write(0, 1);
        assert HighBytes(0, 1) == [0];
        return true;
      }
      XorBytesSuffice(xorVal);
      var tail := Ctz(xorVal);
      var count := (64 - Clz(xorVal) - tail) / 8 + 1;
      if bw.FreeSize() < count + 2 { return false; }
      WriteWord(count, tail, Shr(xorVal, tail));
      prevValue := v;
      return true;
    }

    /** The byte count, the shift, and the low bytes of the shifted word. */
    method WriteWord(count: byte, tail: byte, moved: nat)
      requires bw.Valid() && count <= 8 && count + 2 <= bw.pos
      modifies bw`pos, bw.data
      ensures bw.Valid() && bw.pos == old(bw.pos) - count - 2
      ensures Emitted(old(bw.data[..]), bw.data[..], old(bw.pos), bw.pos, [count, tail] + LowBytes(moved, count))
    {
      hide Emitted, LowBytes;
      ghost var p0, before := bw.pos, bw.data[..];
      EmittedNothing(before, p0);
      PutByte(bw, count, p0, before, []);
      PutByte(bw, tail, p0, before, [] + [count]);
      var buff := LowBytes(moved, 8);
      LowBytesPrefix(moved, count, 8);
      ghost var head := [] + [count] + [tail];
      assert head + buff[..0] == head;
      for i := 0 to count
        invariant bw.Valid() && bw.pos == p0 - 2 - i
        invariant Emitted(before, bw.data[..], p0, bw.pos, head + buff[..i])
      {
        PutByte(bw, buff[i], p0, before, head + buff[..i]);
        assert head + buff[..i] + [buff[i]] == head + buff[..i + 1];
      }
      assert head == [count, tail];
    }
  }

  lemma {:induction false} LowBytesPrefix(x: nat, k: nat, n: nat)
    requires k <= n
    ensures LowBytes(x, n)[..k] == LowBytes(x, k)
    decreases k
  {
    if k > 0 {
      LowBytesPrefix(x / 256, k - 1, n - 1);
      assert LowBytes(x, n)[..k] == [x % 256] + LowBytes(x / 256, n - 1)[..k - 1];
    }
  }

  class XorDeCompressor {
    const bw: ByteBuffer
    var prevValue: Value

    constructor (bw: ByteBuffer, first: Value)
      ensures this.bw == bw && prevValue == first
    {
      this.bw := bw;
      prevValue := first;
    }

    method Read() returns (v: Value)
      requires bw.Valid() && ParseXor(Below(bw)).Some?
      modifies this, bw`pos
      ensures bw.Valid()
      ensures var (x, n) := old(ParseXor(Below(bw)).value);
              v == prevValue == XorOf(x, old(prevValue)) && bw.pos == old(bw.pos) - n
    {
      ghost var s, p0 := Below(bw), bw.pos;
      var flagByte := ReadByte(s, p0);
      if flagByte == 0 {
        XorSelf(prevValue);
        return prevValue;
      }
      var moveCount := ReadByte(s, p0);
      var buff: seq<byte> := [0, 0, 0, 0, 0, 0, 0, 0];
      for i := 0 to flagByte
        invariant bw.Valid() && bw.pos == p0 - 2 - i && |buff| == 8 && prevValue == old(prevValue)
        invariant buff[..i] == s[2..2 + i] && (forall j | i <= j < 8 :: buff[j] == 0)
      {
        var b := ReadByte(s, p0);
        buff := buff[i := b];
        assert buff[..i + 1] == s[2..2 + i] + [s[2 + i]] == s[2..2 + i + 1];
      }
      LowValueZeros(buff, flagByte);
      assert buff[..flagByte] == s[2..s[0] + 2];
      var moved := Wrap(Shl(LowValue(buff), moveCount));
      v := XorOf(moved, prevValue);
      prevValue := v;
    }

    method ReadByte(ghost s: seq<byte>, ghost p0: nat) returns (b: byte)
      requires bw.Valid() && 1 <= bw.pos <= p0 < bw.data.Length && s == Down(bw.data[..], 0, p0)
      modifies bw`pos
      ensures bw.Valid() && bw.pos == old(bw.pos) - 1 && b == s[p0 - old(bw.pos)]
    {
      var v := bw.Read(1);
      assert Down(bw.data[..], bw.pos, bw.pos + 1) == [s[p0 - old(bw.pos)]];
      b := v;
    }
  }

  lemma {:induction false} XorSelf(a: nat)
    ensures XorBits(0, a) == a
  {
    if a != 0 { XorSelf(a / 2); }
  }

  lemma {:induction false} LowValueZeros(s: seq<byte>, k: nat)
    requires k <= |s| && forall j | k <= j < |s| :: s[j] == 0
    ensures LowValue(s) == LowValue(s[..k])
    decreases |s|
  {
    if s != [] {
      LowValueZeros(s[1..], if k > 0 then k - 1 else 0);
      if k > 0 {
        assert s[1..][..k - 1] == s[..k][1..];
      } else {
        assert s[1..][..0] == [];
      }
    }
  }

  // ------------------------------------------------------------------ flags

  class FlagCompressor {
    const bw: ByteBuffer
    var isFirst: bool
    var first: Flag

    constructor (bw: ByteBuffer)
      ensures this.bw == bw && isFirst
    {
      this.bw := bw;
      isFirst, first := true, 0;
    }

    /** Out of room, the loop has already filled the rest of the buffer with a
        prefix of the code. */
    method Append(v: Flag) returns (ok: bool)
      requires bw.Valid()
      modifies this, bw`pos, bw.data
      ensures bw.Valid() && !isFirst
      ensures old(isFirst) ==> ok && bw.pos == old(bw.pos) && bw.data[..] == old(bw.data[..])
      ensures !old(isFirst) ==> (ok <==> |Leb(v)| <= old(bw.pos))
      ensures !old(isFirst) && ok ==>
                Emitted(old(bw.data[..]), bw.data[..], old(bw.pos), bw.pos, Leb(v))
      ensures !ok ==>
                && old(bw.pos) < |Leb(v)| && bw.pos == 0
                && Emitted(old(bw.data[..]), bw.data[..], old(bw.pos), 0, Leb(v)[..old(bw.pos)])
    {
      if isFirst {
        first, isFirst := v, false;
        return true;
      }
      hide Leb, LebTail, Emitted;
      var x: nat, more := v, true;
      ghost var done: seq<byte>, rest, p0, before := [], Leb(v), bw.pos, bw.data[..];
      EmittedNothing(before, p0);
      while more
        invariant bw.Valid() && bw.pos + |done| == p0 && !isFirst
        invariant Emitted(before, bw.data[..], p0, bw.pos, done)
        invariant done + rest == Leb(v) && rest == if more then Leb(x) else []
        decreases more, x
      {
        LebByte(done, x);
        if bw.FreeSize() < 1 {
          assert Leb(v)[..p0] == done;
          return false;
        }
        PutByte(bw, LebHead(x), p0, before, done);
        done, rest := done + [LebHead(x)], LebTail(x);
        LebLeft(x);
        x := x / 128;
        more := x != 0;
      }
      return true;
    }
  }

  class FlagDeCompressor {
    const bw: ByteBuffer
    const first: Flag

    constructor (bw: ByteBuffer, first: Flag)
      ensures this.bw == bw
    {
      this.bw := bw;
      this.first := first;
    }

    method Read() returns (result: Flag)
      requires bw.Valid() && ParseLeb(Below(bw)).Some?
      modifies bw`pos
      ensures bw.Valid()
      ensures var (f, n) := old(ParseLeb(Below(bw)).value);
              result == Narrow(f) && bw.pos == old(bw.pos) - n
    {
      hide ParseLeb, Pow128, LebSplit, Below, Narrow;
      ghost var s, p0 := Below(bw), bw.pos;
      ghost var acc: nat := 0;
      result := 0;
      var bytes: nat, more := 0, true;
      LebBegin(s);
      NarrowAdd(0, 0);
      while more
        invariant bw.Valid() && p0 == bw.pos + bytes && result == Narrow(acc)
        invariant more ==> LebSplit(s, acc, bytes, Below(bw))
        invariant !more ==> ParseLeb(s) == Some((acc, bytes))
        decreases more, bw.pos
      {
        LebStep(s, acc, bytes, Below(bw));
        var readed := NextByte(bw);
        NarrowAdd(acc, Pow128(bytes) * (readed % 128));
        acc := acc + Pow128(bytes) * (readed % 128);
        result := Narrow(result + Pow128(bytes) * (readed % 128));
        bytes := bytes + 1;
        more := readed >= 128;
      }
    }
  }
}
