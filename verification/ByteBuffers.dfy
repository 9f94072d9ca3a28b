/** The buffer a chunk is packed into.  It is filled from its top address
    downwards: the position starts one below the last byte and every write or
    read first moves it down. */
module ByteBuffers {
  import opened Measurements
  import opened RecordCodec

  /** The bytes of s from address hi - 1 down to address lo: the stream that
      somebody moving down from hi to lo sees. */
  function Down(s: seq<byte>, lo: nat, hi: nat): (r: seq<byte>)
    requires lo <= hi <= |s|
    ensures |r| == hi - lo
    ensures forall i | 0 <= i < hi - lo :: r[i] == s[hi - 1 - i]
  {
    seq(hi - lo, i requires 0 <= i < hi - lo => s[hi - 1 - i])
  }

  /** Moving from p0 down to p1 put `bytes` on the stream and left everything
      at or above p0 alone. */
  ghost predicate Emitted(before: seq<byte>, after: seq<byte>, p0: nat, p1: nat, bytes: seq<byte>) {
    && p1 <= p0 <= |before| == |after|
    && Down(after, p1, p0) == bytes
    && after[p0..] == before[p0..]
  }

  lemma EmittedNothing(s: seq<byte>, p: nat)
    requires p <= |s|
    ensures Emitted(s, s, p, p, [])
  {
  }

  lemma EmittedThen(a: seq<byte>, b: seq<byte>, c: seq<byte>, p0: nat, p1: nat, p2: nat,
                    x: seq<byte>, y: seq<byte>)
    requires Emitted(a, b, p0, p1, x) && Emitted(b, c, p1, p2, y)
    ensures Emitted(a, c, p0, p2, x + y)
  {
    assert forall i | p1 <= i < |b| :: c[i] == c[p1..][i - p1] == b[p1..][i - p1] == b[i];
    assert Down(c, p2, p0) == x + y by {
      assert forall i | 0 <= i < |x| :: Down(b, p1, p0)[i] == x[i];
      assert forall i | 0 <= i < |y| :: Down(c, p2, p1)[i] == y[i];
    }
  }

  /** A stream splits at every position on the way. */
  lemma DownSplit(s: seq<byte>, lo: nat, mid: nat, hi: nat)
    requires lo <= mid <= hi <= |s|
    ensures Down(s, lo, hi) == Down(s, mid, hi) + Down(s, lo, mid)
    ensures Down(s, lo, hi)[hi - mid..] == Down(s, lo, mid)
  {
  }

  /** The stream above a position only depends on the bytes above it. */
  lemma DownFrame(a: seq<byte>, b: seq<byte>, lo: nat, hi: nat)
    requires lo <= hi <= |a| == |b| && a[lo..] == b[lo..]
    ensures Down(a, lo, hi) == Down(b, lo, hi)
  {
    assert forall i | lo <= i < |a| :: a[i] == a[lo..][i - lo] == b[lo..][i - lo] == b[i];
  }

  lemma {:induction false} ByteOrder(v: nat, n: nat, i: nat)
    requires i < n
    ensures LowBytes(v, n)[i] == HighBytes(v, n)[n - 1 - i]
    decreases n
  {
    if i > 0 {
      ByteOrder(v / 256, n - 1, i - 1);
    }
  }

  class ByteBuffer {
    const data: array<byte>
    var pos: nat

    ghost predicate Valid()
      reads this
    {
      pos < data.Length < TWO_32
    }

    constructor (range: array<byte>)
      requires 1 <= range.Length < TWO_32
      ensures Valid() && data == range && pos == range.Length - 1
    {
      data := range;
      pos := range.Length - 1;
    }

    method ResetPos()
      requires Valid()
      modifies this`pos
      ensures Valid() && pos == data.Length - 1
    {
      pos := data.Length - 1;
    }

    function FreeSize(): nat
      reads this
    {
      pos
    }

    /** Stores the n-byte value v, low byte at the lowest address.  The stream
        sees its high byte first. */
    method Write(v: nat, n: nat)
      requires Valid() && n <= pos
      modifies this`pos, data
      ensures Valid() && pos == old(pos) - n
      ensures Emitted(old(data[..]), data[..], old(pos), pos, HighBytes(v, n))
    {
      pos := pos - n;
      var bytes := LowBytes(v, n);
      forall i | 0 <= i < n {
        data[pos + i] := bytes[i];
      }
      forall i | 0 <= i < n
        ensures data[old(pos) - 1 - i] == HighBytes(v, n)[i]
      {
        ByteOrder(v, n, n - 1 - i);
      }
      assert Down(data[..], pos, old(pos)) == HighBytes(v, n);
    }

    /** Loads an n-byte value stored low byte first. */
    method Read(n: nat) returns (v: nat)
      requires Valid() && n <= pos
      modifies this`pos
      ensures Valid() && pos == old(pos) - n
      ensures v == HighValue(Down(data[..], pos, old(pos)))
    {
      pos := pos - n;
      v := LowValue(data[pos..pos + n]);
      MirrorValue(data[..], pos, pos + n);
      assert data[..][pos..pos + n] == data[pos..pos + n];
    }
  }

  lemma {:induction false} MirrorValue(s: seq<byte>, lo: nat, hi: nat)
    requires lo <= hi <= |s|
    ensures LowValue(s[lo..hi]) == HighValue(Down(s, lo, hi))
    decreases hi - lo
  {
    if lo < hi {
      MirrorValue(s, lo + 1, hi);
      assert s[lo..hi][1..] == s[lo + 1..hi];
      assert Down(s, lo, hi)[..hi - lo - 1] == Down(s, lo + 1, hi);
    }
  }
}
