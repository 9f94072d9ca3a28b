/** The values every component passes around: measurements and the machine
    integers they are made of.  Integer widths are explicit subset types, and
    the wrap-around of 64-bit arithmetic is the function `Wrap`. */
module Measurements {

  const TWO_31: int := 0x8000_0000
  const TWO_32: int := 0x1_0000_0000
  const TWO_63: int := 0x8000_0000_0000_0000
  const TWO_64: int := 0x1_0000_0000_0000_0000

  type byte = x: int | 0 <= x < 256
  type uint32 = x: int | 0 <= x < TWO_32
  type uint64 = x: int | 0 <= x < TWO_64
  type int64 = x: int | -TWO_63 <= x < TWO_63

  type Id = uint32
  type Time = uint64
  type Value = uint64 // the bit pattern of a double
  type Flag = uint32

  const MIN_TIME: Time := 0
  const MAX_TIME: Time := TWO_64 - 1

  datatype Meas = Meas(id: Id, time: Time, value: Value, flag: Flag)

  /** A default-constructed measurement. */
  const NO_MEAS := Meas(0, 0, 0, 0)

  datatype Option<+T> = None | Some(value: T)

  function MinOf(a: Time, b: Time): Time { if b < a then b else a }
  function MaxOf(a: Time, b: Time): Time { if a < b then b else a }

  /** The unsigned 64-bit value of an exact integer. */
  function Wrap(x: int): uint64 {
    x % TWO_64
  }

  /** The unsigned 32-bit value of an exact integer. */
  function Narrow(x: int): uint32 {
    x % TWO_32
  }

  lemma WrapAdd(x: nat, d: nat)
    ensures Wrap(0) == 0 && Wrap(Wrap(x) + d) == Wrap(x + d)
  {
  }

  lemma NarrowAdd(x: nat, d: nat)
    ensures Narrow(0) == 0 && Narrow(Narrow(x) + d) == Narrow(x + d)
  {
  }

  /** The signed reading of an unsigned 64-bit value. */
  function Signed(u: uint64): int64 {
    if u < TWO_63 then u else u - TWO_64
  }

  lemma WrapShift(x: int, k: int)
    ensures Wrap(x + k * TWO_64) == Wrap(x)
  {
    var q := x / TWO_64;
    assert x + k * TWO_64 == (q + k) * TWO_64 + Wrap(x);
  }

  lemma WrapUnique(x: int, y: int, k: int)
    requires x == y + k * TWO_64
    ensures Wrap(x) == Wrap(y)
  {
    WrapShift(y, k);
  }

  /** Quotient and remainder are told by the size of the remainder. */
  lemma Remainder(x: int, l: nat, q: int, r: nat)
    requires l > 0 && x == l * q + r && r < l
    ensures x % l == r && x / l == q
  {
    var q', r' := x / l, x % l;
    assert x == l * q' + r';
    var d := q - q';
    assert l * d == l * q - l * q' == r' - r;
    assert d == 0;
  }

  /** A remainder by a multiple of n keeps the remainder by n. */
  lemma RemainderOf(x: int, m: nat, n: nat, k: nat)
    requires n > 0 && m == n * k && m > 0
    ensures x % m % n == x % n
  {
    var q, r := x / m, x % m;
    var s, t := r / n, r % n;
    assert x == m * q + r && r == n * s + t;
    Regroup(n, k, q, s);
    Remainder(x, n, k * q + s, t);
  }

  lemma Regroup(n: int, k: int, q: int, s: int)
    ensures n * k * q + n * s == n * (k * q + s)
  {
  }
}
