/** The byte-level meaning of one packed measurement: what the three codecs of
    a chunk write, and what a reader makes of a byte stream.  Everything here
    is a function of sequences; the buffer-moving objects are proved against
    it in `Compression`. */
module RecordCodec {
  import opened Measurements
  import opened Bits

  // ---------------------------------------------------------------- bytes

  function Pow256(k: nat): (p: nat)
    ensures p >= 1
  {
    if k == 0 then 1 else 256 * Pow256(k - 1)
  }

  /** The low n bytes of x, least significant first. */
  function LowBytes(x: nat, n: nat): (s: seq<byte>)
    ensures |s| == n
    decreases n
  {
    if n == 0 then [] else [x % 256] + LowBytes(x / 256, n - 1)
  }

  function LowValue(s: seq<byte>): nat {
    if s == [] then 0 else s[0] + 256 * LowValue(s[1..])
  }

  /** The low n bytes of x, most significant first: the order in which a
      little-endian store shows up to somebody walking down the addresses. */
  function HighBytes(x: nat, n: nat): (s: seq<byte>)
    ensures |s| == n
  {
    if n == 0 then [] else HighBytes(x / 256, n - 1) + [x % 256]
  }

  function HighValue(s: seq<byte>): nat {
    if s == [] then 0 else 256 * HighValue(s[..|s| - 1]) + s[|s| - 1]
  }

  lemma {:induction false} LowBytesValue(x: nat, n: nat)
    requires x < Pow256(n)
    ensures LowValue(LowBytes(x, n)) == x
    decreases n
  {
    if n > 0 {
      LowBytesValue(x / 256, n - 1);
      assert LowBytes(x, n)[1..] == LowBytes(x / 256, n - 1);
    }
  }

  lemma {:induction false} HighBytesValue(x: nat, n: nat)
    requires x < Pow256(n)
    ensures HighValue(HighBytes(x, n)) == x
  {
    if n > 0 {
      HighBytesValue(x / 256, n - 1);
      assert HighBytes(x, n)[..n - 1] == HighBytes(x / 256, n - 1);
    }
  }

  lemma Pow256Eight()
    ensures Pow256(8) == TWO_64
  {
    assert Pow256(4) == 0x1_0000_0000;
    assert Pow256(8) == 0x1_0000_0000 * Pow256(4);
  }

  // ---------------------------------------------------------------- times

  predicate In1b(D: int64) { -32 < D < 32 }
  predicate In2b(D: int64) { -4096 < D < 4096 }
  predicate In3b(D: int64) { -524288 < D < 524287 }

  lemma CutWrap(D: int64)
    ensures Wrap(D) % 0x100 % 0x40 == D % 0x40
    ensures Wrap(D) % 0x10000 % 0x2000 == D % 0x2000
    ensures Wrap(D) % TWO_32 % 0x100000 == D % 0x100000
  {
    RemainderOf(Wrap(D), 0x100, 0x40, 4);
    RemainderOf(D, TWO_64, 0x40, 0x400_0000_0000_0000);
    RemainderOf(Wrap(D), 0x10000, 0x2000, 8);
    RemainderOf(D, TWO_64, 0x2000, 0x8_0000_0000_0000);
    RemainderOf(Wrap(D), TWO_32, 0x100000, 0x1000);
    RemainderOf(D, TWO_64, 0x100000, 0x1000_0000_0000);
  }

  lemma ShlValues()
    ensures Shl(2, 6) == 0x80 && Shl(6, 13) == 0xC000 && Shl(14, 20) == 0xE00000
    ensures Shl(1, 7) == 0x80 && Shl(3, 6) == 0xC0 && Shl(7, 5) == 0xE0
    ensures Shl(0x3FF_FFFF_FFFF_FFFF, 6) == TWO_64 - 64
    ensures Shl(0xF_FFFF_FFFF_FFFF, 12) == TWO_64 - 4096 && Shl(1, 12) == 0x1000
    ensures Shl(0x1FFF_FFFF_FFFF, 19) == TWO_64 - 524288 && Shl(1, 19) == 0x80000
  {
    hide Shl, Pow2;
    Pow2Values();
    ShlIs(2, 6); ShlIs(6, 13); ShlIs(14, 20);
    ShlIs(1, 7); ShlIs(3, 6); ShlIs(7, 5);
    ShlIs(0x3FF_FFFF_FFFF_FFFF, 6);
    ShlIs(0xF_FFFF_FFFF_FFFF, 12); ShlIs(1, 12);
    ShlIs(0x1FFF_FFFF_FFFF, 19); ShlIs(1, 19);
  }

  /** And with k ones, whichever side the mask is on. */
  lemma LowOf(k: nat, mask: nat, x: nat)
    requires mask == Pow2(k) - 1
    ensures AndBits(mask, x) == AndBits(x, mask) == x % Pow2(k)
  {
    hide AndBits, Pow2;
    AndLow(k, x);
    AndCommutes(mask, x);
  }

  lemma Mask1b(D: int64)
    ensures OrBits(0x80, AndBits(0x3F, Wrap(D) % 0x100)) == 0x80 + D % 0x40
  {
    hide OrBits, AndBits, Pow2, Shl, Wrap;
    Pow2Values();
    ShlValues();
    CutWrap(D);
    LowOf(6, 0x3F, Wrap(D) % 0x100);
    OrLow(6, 2, D % 0x40);
  }

  lemma Mask2b(D: int64)
    ensures OrBits(0xC000, AndBits(0x1FFF, Wrap(D) % 0x10000)) == 0xC000 + D % 0x2000
  {
    hide OrBits, AndBits, Pow2, Shl, Wrap;
    Pow2Values();
    ShlValues();
    CutWrap(D);
    LowOf(13, 0x1FFF, Wrap(D) % 0x10000);
    OrLow(13, 6, D % 0x2000);
  }

  lemma Mask3b(D: int64)
    ensures OrBits(0xE00000, AndBits(0xFFFFF, Wrap(D) % TWO_32)) == 0xE00000 + D % 0x100000
  {
    hide OrBits, AndBits, Pow2, Shl, Wrap;
    Pow2Values();
    ShlValues();
    CutWrap(D);
    LowOf(20, 0xFFFFF, Wrap(D) % TWO_32);
    OrLow(20, 14, D % 0x100000);
  }

  lemma WrapMasks()
    ensures Wrap(-64) == TWO_64 - 64 && Wrap(-4096) == TWO_64 - 4096 && Wrap(-524287) == TWO_64 - 524287
  {
  }

  lemma Sign1b(r: nat)
    requires r < 0x40
    ensures OrBits(Wrap(-64), r) == TWO_64 - 0x40 + r
  {
    hide OrBits, Pow2, Shl, Wrap;
    WrapMasks();
    Pow2Values();
    ShlValues();
    OrLow(6, 0x3FF_FFFF_FFFF_FFFF, r);
  }

  lemma Sign2b(r: nat)
    requires 0x1000 <= r < 0x2000
    ensures OrBits(Wrap(-4096), r) == TWO_64 - 0x2000 + r
  {
    hide OrBits, Pow2, Shl, Wrap;
    WrapMasks();
    Pow2Values();
    ShlValues();
    OrSplit(12, 0xF_FFFF_FFFF_FFFF, 0, 1, r - 0x1000);
    OrOdd(0xF_FFFF_FFFF_FFFF);
    OrZero(r - 0x1000);
  }

  lemma Sign3b(r: nat)
    requires 0x80000 <= r < 0x100000
    ensures OrBits(Wrap(-524287), r) == TWO_64 - 0x100000 + (if r % 2 == 0 then r + 1 else r)
  {
    hide OrBits, Pow2, Shl, Wrap;
    WrapMasks();
    Pow2Values();
    ShlValues();
    OrSplit(19, 0x1FFF_FFFF_FFFF, 1, 1, r - 0x80000);
    OrOdd(0x1FFF_FFFF_FFFF);
    OrOne(r - 0x80000);
  }

  lemma TwoPart(b: byte, second: byte)
    ensures OrBits(Shl(AndBits(b, 0x1F), 8), second) == b as int % 0x20 * 256 + second
  {
    hide OrBits, AndBits, Pow2;
    Pow2Values();
    LowOf(5, 0x1F, b);
    var h := b as int % 0x20;
    OrLow(8, h, second);
    ShlIs(h, 8);
  }

  // The three short codes: a prefix of ones and a zero, or-ed with the low bits
  // of D. Casting D to an unsigned type cuts its 64-bit pattern.
  function Delta1b(D: int64): (r: byte)
    ensures r == 0x80 + D % 0x40
  {
    Mask1b(D);
    OrBits(0x80, AndBits(0x3F, Wrap(D) % 0x100))
  }

  function Delta2b(D: int64): (r: uint32)
    ensures r == 0xC000 + D % 0x2000
  {
    Mask2b(D);
    OrBits(0xC000, AndBits(0x1FFF, Wrap(D) % 0x10000))
  }

  function Delta3b(D: int64): (r: uint32)
    ensures r == 0xE00000 + D % 0x100000
  {
    Mask3b(D);
    OrBits(0xE00000, AndBits(0xFFFFF, Wrap(D) % TWO_32))
  }

  /** The bytes of a second difference, in write order. */
  function DeltaBytes(D: int64): (s: seq<byte>)
    ensures 1 <= |s| <= 9
  {
    if In1b(D) then [Delta1b(D)]
    else if In2b(D) then HighBytes(Delta2b(D), 2)
    else if In3b(D) then HighBytes(Delta3b(D), 3)
    else [0] + HighBytes(Wrap(D), 8)
  }

  // Sign extension in the reader: `mask | r` on the 64-bit patterns. The masks
  // -64 and -4096 have their low bits clear; -524287 has bit 0 set, so bit 0 of
  // the result is always one.
  function Extend1b(r: nat): (x: int64)
    requires r < 0x40
    ensures x == r - 0x40
  {
    Sign1b(r);
    Signed(OrBits(Wrap(-64), r))
  }

  function Extend2b(r: nat): (x: int64)
    requires 0x1000 <= r < 0x2000
    ensures x == r - 0x2000
  {
    Sign2b(r);
    Signed(OrBits(Wrap(-4096), r))
  }

  function Extend3b(r: nat): (x: int64)
    requires 0x80000 <= r < 0x100000
    ensures x == (if r % 2 == 0 then r + 1 else r) - 0x100000
  {
    Sign3b(r);
    Signed(OrBits(Wrap(-524287), r))
  }

  // Which code a first byte announces, and the bits it carries.
  predicate Check(v: nat, num: nat) {
    AndBits(Shr(v, num), 1) == 1
  }

  predicate Announces1b(b: byte) {
    AndBits(b, 0x80) == 0x80 && !Check(b, 6)
  }

  predicate Announces2b(b: byte) {
    AndBits(b, 0xC0) == 0xC0 && !Check(b, 5)
  }

  predicate Announces3b(b: byte) {
    AndBits(b, 0xE0) == 0xE0
  }

  lemma Announced(b: byte)
    ensures Announces1b(b) <==> 0x80 <= b < 0xC0
    ensures Announces2b(b) <==> 0xC0 <= b < 0xE0
    ensures Announces3b(b) <==> 0xE0 <= b
  {
    hide AndBits, Pow2, Shl, Shr;
    Pow2Values();
    ShlValues();
    ShrIs(b, 7);
    ShrIs(b, 6);
    ShrIs(b, 5);
    AndHigh(7, b, 1);
    AndHigh(6, b, 3);
    AndHigh(5, b, 7);
    LowOf(1, 1, Shr(b, 7));
    LowOf(1, 1, Shr(b, 6));
    LowOf(1, 1, Shr(b, 5));
    LowOf(2, 3, Shr(b, 6));
    LowOf(3, 7, Shr(b, 5));
    ShlIs(Shr(b, 7) % 2, 7);
    ShlIs(Shr(b, 6) % 4, 6);
    ShlIs(Shr(b, 5) % 8, 5);
  }

  function Payload1b(b: byte): (r: nat)
    ensures r == b % 0x40
  {
    Pow2Values();
    LowOf(6, 0x3F, b);
    AndBits(b, 0x3F)
  }

  function Payload2b(b: byte, second: byte): (r: nat)
    ensures r == b as int % 0x20 * 256 + second
  {
    TwoPart(b, second);
    OrBits(Shl(AndBits(b, 0x1F), 8), second)
  }

  function Payload3b(b: byte, second: nat): (r: nat)
    ensures r == b as int % 0x10 * 65536 + second
  {
    Pow2Values();
    LowOf(4, 0xF, b);
    AndBits(b, 0xF) * 65536 + second
  }

  /** What the reader takes from the front of a stream: a second difference
      and the number of bytes used.  None where the reader has no answer. */
  function ParseDelta(s: seq<byte>): (r: Option<(int64, nat)>)
    ensures r.Some? ==> r.value.1 <= |s|
  {
    if s == [] then None
    else if Announces1b(s[0]) then
      var r := Payload1b(s[0]);
      Some((if r > 32 then Extend1b(r) else r, 1))
    else if Announces2b(s[0]) then
      if |s| < 2 then None else
      var r := Payload2b(s[0], s[1]);
      Some((if r > 4096 then Extend2b(r) else r, 2))
    else if Announces3b(s[0]) then
      if |s| < 3 then None else
      var r := Payload3b(s[0], s[1] as int * 256 + s[2]);
      Some((if r > 524287 then Extend3b(r) else r, 3))
    else if s[0] == 0 && |s| >= 9 then
      var v := HighValue(s[1..9]);
      Some((Signed(Wrap(v)), 9))
    else None
  }

  /** The steps the 3-byte code does not give back: decoding adds one. */
  predicate Bumped(D: int64) {
    -524287 <= D <= -4096 && D % 2 == 0
  }

  function Bump(D: int64): int { if Bumped(D) then 1 else 0 }

  lemma DeltaRoundTrip(D: int64, rest: seq<byte>)
    ensures ParseDelta(DeltaBytes(D) + rest) == Some((D + Bump(D), |DeltaBytes(D)|))
  {
    hide DeltaBytes, ParseDelta;
    if In1b(D) {
      RoundTrip1b(D, rest);
    } else if In2b(D) {
      RoundTrip2b(D, rest);
    } else if In3b(D) {
      RoundTrip3b(D, rest);
    } else {
      RoundTrip9b(D, rest);
    }
  }

  /** The low bits of a step tell its sign. */
  lemma LowSigns(D: int64)
    ensures In1b(D) ==> D % 0x40 == if D < 0 then D + 0x40 else D
    ensures In2b(D) ==> D % 0x2000 == if D < 0 then D + 0x2000 else D
    ensures In3b(D) ==> D % 0x100000 == if D < 0 then D + 0x100000 else D
  {
  }

  lemma Parse1b(s: seq<byte>)
    requires |s| >= 1 && 0x80 <= s[0] < 0xC0
    ensures var r := s[0] as int - 0x80; ParseDelta(s) == Some((if r > 32 then r - 0x40 else r, 1))
  {
    hide Extend1b, Payload1b, Announces1b, Announces2b, Announces3b;
    Announced(s[0]);
  }

  lemma Parse2b(s: seq<byte>)
    requires |s| >= 2 && 0xC0 <= s[0] < 0xE0
    ensures var r := (s[0] as int - 0xC0) * 256 + s[1]; ParseDelta(s) == Some((if r > 4096 then r - 0x2000 else r, 2))
  {
    hide Extend1b, Extend2b, Payload2b, Announces1b, Announces2b, Announces3b;
    Announced(s[0]);
  }

  lemma Parse3b(s: seq<byte>)
    requires |s| >= 3 && 0xE0 <= s[0] < 0xF0
    ensures var r := (s[0] as int - 0xE0) * 65536 + s[1] as int * 256 + s[2];
            ParseDelta(s) == Some((if r > 524287 then (if r % 2 == 0 then r + 1 else r) - 0x100000 else r, 3))
  {
    hide Extend1b, Extend2b, Extend3b, Payload3b, Announces1b, Announces2b, Announces3b;
    Announced(s[0]);
  }

  lemma RoundTrip1b(D: int64, rest: seq<byte>)
    requires In1b(D)
    ensures ParseDelta(DeltaBytes(D) + rest) == Some((D, |DeltaBytes(D)|))
  {
    hide Delta1b, ParseDelta;
    var s := DeltaBytes(D) + rest;
    assert s[0] == Delta1b(D);
    LowSigns(D);
    Parse1b(s);
  }

  lemma RoundTrip2b(D: int64, rest: seq<byte>)
    requires In2b(D) && !In1b(D)
    ensures ParseDelta(DeltaBytes(D) + rest) == Some((D, |DeltaBytes(D)|))
  {
    hide Delta2b, ParseDelta;
    var d, s := Delta2b(D), DeltaBytes(D) + rest;
    assert HighBytes(d / 256, 1) == [d / 256 % 256];
    assert s[0] == d / 256 && s[1] == d % 256;
    hide HighBytes;
    LowSigns(D);
    TwoBytes(d, s[0], s[1]);
    Parse2b(s);
  }

  lemma TwoBytes(d: nat, h: byte, l: byte)
    requires 0xC000 <= d < 0xE000 && h == d / 256 && l == d % 256
    ensures 0xC0 <= h < 0xE0 && (h as int - 0xC0) * 256 + l == d - 0xC000
  {
  }

  lemma RoundTrip3b(D: int64, rest: seq<byte>)
    requires In3b(D) && !In2b(D)
    ensures ParseDelta(DeltaBytes(D) + rest) == Some((D + Bump(D), |DeltaBytes(D)|))
  {
    hide Delta3b, ParseDelta;
    var d, s := Delta3b(D), DeltaBytes(D) + rest;
    assert HighBytes(d / 256 / 256, 1) == [d / 256 / 256 % 256];
    assert HighBytes(d / 256, 2) == [d / 256 / 256, d / 256 % 256];
    assert s[0] == d / 256 / 256 && s[1] == d / 256 % 256 && s[2] == d % 256;
    hide HighBytes;
    LowSigns(D);
    ThreeBytes(d, s[0], s[1], s[2]);
    Parse3b(s);
  }

  lemma ThreeBytes(d: nat, h: byte, m: byte, l: byte)
    requires 0xE00000 <= d < 0xF00000
    requires h == d / 256 / 256 && m == d / 256 % 256 && l == d % 256
    ensures 0xE0 <= h < 0xF0 && (h as int - 0xE0) * 65536 + m as int * 256 + l == d - 0xE00000
  {
  }

  lemma RoundTrip9b(D: int64, rest: seq<byte>)
    requires !In3b(D)
    ensures ParseDelta(DeltaBytes(D) + rest) == Some((D, |DeltaBytes(D)|))
  {
    hide HighBytes, HighValue, Announces1b, Announces2b, Announces3b;
    Announced(0);
    var s := DeltaBytes(D) + rest;
    assert s[0] == 0 && s[1..9] == HighBytes(Wrap(D), 8);
    assert HighValue(s[1..9]) == Wrap(D) by {
      Pow256Eight();
      HighBytesValue(Wrap(D), 8);
    }
  }

  // --------------------------------------------------------------- values

  /** Trailing and leading zero bits of a non-zero 64-bit word. */
  function Ctz(x: nat): nat
    requires x > 0
  {
    if x % 2 == 1 then 0 else 1 + Ctz(x / 2)
  }

  function BitLength(x: nat): nat {
    if x == 0 then 0 else 1 + BitLength(x / 2)
  }

  function Clz(x: uint64): int {
    64 - BitLength(x)
  }

  /** The number of value bytes the writer announces for a non-zero XOR. */
  function ByteCount(x: uint64): int
    requires x > 0
  {
    (64 - Clz(x) - Ctz(x)) / 8 + 1
  }

  lemma {:induction false} CtzDivides(x: nat)
    requires x > 0
    ensures Shl(Shr(x, Ctz(x)), Ctz(x)) == x
    ensures Ctz(x) < BitLength(x)
    ensures Shr(x, Ctz(x)) < Pow2(BitLength(x) - Ctz(x))
  {
    if x % 2 == 0 {
      CtzDivides(x / 2);
    } else {
      BitLengthBound(x);
    }
  }

  lemma {:induction false} BitLengthBound(x: nat)
    ensures x < Pow2(BitLength(x))
    ensures x > 0 ==> Pow2(BitLength(x) - 1) <= x
  {
    if x > 0 { BitLengthBound(x / 2); }
  }

  lemma {:induction false} Pow2Monotone(a: nat, b: nat)
    requires a <= b
    ensures Pow2(a) <= Pow2(b)
  {
    if a < b { Pow2Monotone(a, b - 1); }
  }

  lemma {:induction false} Pow2Bytes(n: nat)
    ensures Pow2(8 * n) == Pow256(n)
  {
    if n > 0 {
      Pow2Bytes(n - 1);
      Pow2Byte(8 * n - 8);
    }
  }

  lemma BitLength64(x: uint64)
    ensures 0 <= BitLength(x) <= 64
    ensures BitLength(x) == 64 <==> x >= TWO_63
  {
    Pow2SixtyFour();
    BitLengthBound(x);
    if BitLength(x) > 64 { Pow2Monotone(64, BitLength(x) - 1); }
    if BitLength(x) < 64 { Pow2Monotone(BitLength(x), 63); }
  }

  /** The writer's demand that the byte count be at most eight, said of the
      XOR itself: it fails exactly when bits 0 and 63 are both set. */
  predicate ValueFits(x: uint64) {
    !(x % 2 == 1 && x >= TWO_63)
  }

  lemma ByteCountFits(x: uint64)
    requires x > 0
    ensures 1 <= ByteCount(x) <= 9
    ensures ByteCount(x) <= 8 <==> ValueFits(x)
  {
    CtzDivides(x);
    BitLength64(x);
  }

  /** A word with bits 0 and 63 set asks for nine bytes, one more than fit. */
  lemma NineBytes()
    ensures ByteCount(0x8000_0000_0000_0001) == 9
  {
    ByteCountFits(0x8000_0000_0000_0001);
  }

  /** The bytes of an XOR with the previous value, in write order. */
  function XorBytes(x: uint64): (s: seq<byte>)
    requires ValueFits(x)
    ensures |s| >= 1
  {
    if x == 0 then [0]
    else
      ByteCountFits(x); CtzDivides(x); BitLength64(x);
      [ByteCount(x), Ctz(x)] + LowBytes(Shr(x, Ctz(x)), ByteCount(x))
  }

  function ParseXor(s: seq<byte>): (r: Option<(uint64, nat)>)
    ensures r.Some? ==> r.value.1 <= |s|
  {
    if s == [] then None
    else if s[0] == 0 then Some((0, 1))
    else if s[0] <= 8 && |s| >= s[0] + 2 && s[1] < 64 then
      Some((Wrap(Shl(LowValue(s[2..s[0] + 2]), s[1])), s[0] + 2))
    else None
  }

  /** The announced number of bytes is enough for the shifted word. */
  lemma XorBytesSuffice(x: uint64)
    requires x > 0 && ValueFits(x)
    ensures 1 <= ByteCount(x) <= 8 && Ctz(x) < 64
    ensures LowValue(LowBytes(Shr(x, Ctz(x)), ByteCount(x))) == Shr(x, Ctz(x))
  {
    ByteCountFits(x);
    CtzDivides(x);
    BitLength64(x);
    Pow2Monotone(BitLength(x) - Ctz(x), 8 * ByteCount(x));
    Pow2Bytes(ByteCount(x));
    LowBytesValue(Shr(x, Ctz(x)), ByteCount(x));
  }

  lemma XorRoundTrip(x: uint64, rest: seq<byte>)
    requires ValueFits(x)
    ensures ParseXor(XorBytes(x) + rest) == Some((x, |XorBytes(x)|))
  {
    hide ByteCount, Ctz, Shr, Shl, LowBytes, LowValue, ValueFits;
    var s := XorBytes(x) + rest;
    if x > 0 {
      XorBytesSuffice(x);
      CtzDivides(x);
      var n := ByteCount(x);
      assert s[0] == n && s[1] == Ctz(x);
      var payload := s[2..n + 2];
      assert payload == LowBytes(Shr(x, Ctz(x)), n);
      assert ParseXor(s) == Some((Wrap(Shl(LowValue(payload), s[1])), n + 2));
      assert Wrap(x) == x;
    } else {
      assert s[0] == 0;
    }
  }
}
