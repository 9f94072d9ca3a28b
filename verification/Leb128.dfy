/** Unsigned LEB128 (section 7.6 of DWARF 4), the code that both the chunk's
    flag column and the network batch use. */
module Leb128 {
  import opened Measurements
  import opened Bits

  function Pow128(k: nat): (p: nat)
    ensures p >= 1
  {
    if k == 0 then 1 else 128 * Pow128(k - 1)
  }

  /** The encoding: seven bits per byte, low group first, bit 7 = "more". */
  function Leb(x: nat): (s: seq<byte>)
    ensures |s| >= 1
  {
    if x < 128 then [x] else [128 + x % 128] + Leb(x / 128)
  }

  /** The masks behind the arithmetic: the low seven bits, bit 7 set, bit 7
      tested. */
  lemma LebMasks(x: nat, b: byte)
    ensures AndBits(x, 0x7F) == x % 128 && OrBits(0x80, x % 128) == 128 + x % 128
    ensures AndBits(b, 0x80) != 0 <==> b >= 128
  {
    hide AndBits, OrBits, Pow2, Shl, Shr;
    Pow2Values();
    AndLow(7, x);
    AndCommutes(0x7F, x);
    ShlIs(1, 7);
    OrLow(7, 1, x % 128);
    AndHigh(7, b, 1);
    ShrIs(b, 7);
    AndLow(1, b / 128);
    AndCommutes(1, b / 128);
    ShlIs(b / 128 % 2, 7);
  }

  /** What a reader makes of a byte stream: the value of the groups up to and
      including the first byte without bit 7, and how many bytes that took.
      A group past the tenth has no defined shift in 64 bits. */
  function ParseLeb(s: seq<byte>, k: nat := 0): (r: Option<(nat, nat)>)
    ensures r.Some? ==> 1 <= r.value.1 <= |s|
    decreases |s|
  {
    if s == [] || k >= 10 then None
    else if s[0] < 128 then Some((s[0], 1))
    else match ParseLeb(s[1..], k + 1)
      case None => None
      case Some((v, n)) => Some((s[0] - 128 + 128 * v, n + 1))
  }

  /** Self-delimiting: parsing undoes encoding and stops exactly at its end,
      whatever follows. */
  lemma {:induction false} LebRoundTrip(x: nat, rest: seq<byte>, k: nat := 0)
    requires k + |Leb(x)| <= 10
    ensures ParseLeb(Leb(x) + rest, k) == Some((x, |Leb(x)|))
    decreases x
  {
    if x >= 128 {
      LebRoundTrip(x / 128, rest, k + 1);
      assert (Leb(x) + rest)[1..] == Leb(x / 128) + rest;
    } else {
      assert (Leb(x) + rest)[0] == x;
    }
  }

  /** The length of the code is the number of seven-bit groups. */
  lemma {:induction false} LebLength(x: nat, k: nat)
    requires k >= 1
    ensures |Leb(x)| <= k <==> x < Pow128(k)
    decreases k
  {
    if x >= 128 {
      if k > 1 {
        LebLength(x / 128, k - 1);
      } else {
        assert Pow128(0) == 1;
      }
    } else {
      assert Pow128(k) >= 128 by { assert Pow128(k - 1) >= 1; }
    }
  }

  /** The number of seven-bit groups of x, at least one. */
  function Groups7(x: nat): (k: nat)
    ensures k >= 1 && x < Pow128(k) && (k > 1 ==> Pow128(k - 1) <= x)
  {
    if x < 128 then assert Pow128(1) == 128; 1 else 1 + Groups7(x / 128)
  }

  lemma LebSize(x: nat)
    ensures |Leb(x)| == Groups7(x)
  {
    hide Leb, Groups7;
    var k := Groups7(x);
    LebLength(x, k);
    if k > 1 {
      LebLength(x, k - 1);
    }
  }

  lemma Leb64Length(x: uint64)
    ensures |Leb(x)| <= 10
  {
    LebLength(x, 10);
    assert Pow128(10) >= TWO_64 by {
      assert Pow128(4) == 0x1000_0000;
      assert Pow128(8) == 0x1000_0000 * 0x1000_0000;
    }
  }

  lemma Leb32Length(x: uint32)
    ensures |Leb(x)| <= 5
  {
    LebLength(x, 5);
    assert Pow128(5) == 0x8_0000_0000;
  }

  /** Having read k groups worth acc, what is left of the stream s is rest. */
  ghost predicate LebSplit(s: seq<byte>, acc: nat, k: nat, rest: seq<byte>) {
    match ParseLeb(rest, k)
    case None => false
    case Some((v, n)) => rest != [] && ParseLeb(s) == Some((acc + Pow128(k) * v, k + n))
  }

  lemma LebBegin(s: seq<byte>)
    requires ParseLeb(s).Some?
    ensures LebSplit(s, 0, 0, s)
  {
    assert Pow128(0) == 1;
  }

  lemma LebStep(s: seq<byte>, acc: nat, k: nat, rest: seq<byte>)
    requires LebSplit(s, acc, k, rest)
    ensures rest != []
    ensures var acc' := acc + Pow128(k) * (rest[0] % 128);
            if rest[0] >= 128 then LebSplit(s, acc', k + 1, rest[1..])
            else ParseLeb(s) == Some((acc', k + 1))
  {
    if rest[0] >= 128 {
      var v := ParseLeb(rest[1..], k + 1).value.0;
      LebGroup(acc, k, rest[0] % 128, v);
    }
  }

  lemma LebGroup(acc: nat, k: nat, b: nat, v: nat)
    ensures acc + Pow128(k) * (b + 128 * v) == acc + Pow128(k) * b + Pow128(k + 1) * v
  {
    assert Pow128(k + 1) == 128 * Pow128(k);
    assert Pow128(k) * (b + 128 * v) == Pow128(k) * b + Pow128(k) * 128 * v;
  }

  /** The byte the packing loop emits for x, and what is left to emit. */
  function LebHead(x: nat): byte {
    x % 128 + if x / 128 != 0 then 128 else 0
  }

  function LebTail(x: nat): seq<byte> {
    if x / 128 != 0 then Leb(x / 128) else []
  }

  lemma LebByte(done: seq<byte>, x: nat)
    ensures done + Leb(x) == (done + [LebHead(x)]) + LebTail(x) && |Leb(x)| == 1 + |LebTail(x)|
  {
    hide Leb, LebTail, LebHead;
    LebUnfold(x);
  }

  lemma LebUnfold(x: nat)
    ensures Leb(x) == [LebHead(x)] + LebTail(x)
  {
    if x < 128 {
      assert x / 128 == 0;
    } else {
      assert x / 128 != 0;
    }
  }

  lemma LebLeft(x: nat)
    ensures LebTail(x) == if x / 128 != 0 then Leb(x / 128) else []
  {
  }
}
