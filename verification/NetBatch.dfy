/** Batches of measurements in one network message: runs of equal ids, each
    run a small header and variable-length records. */
module NetBatch {
  import opened Measurements
  import opened Leb128
  import opened RecordCodec
  import opened Streams

  const MAX_MESSAGE_SIZE := 65535
  const MARKER_SIZE := 2
  const HEADER_SIZE := 9      // kind, query number, count
  const PACK_HEADER_SIZE := 6 // id, count
  const FREE_SPACE := MAX_MESSAGE_SIZE - MARKER_SIZE - 1 - HEADER_SIZE
  const PACKED_BUFFER_MAX_SIZE := 20

  // ------------------------------------------------------------------- format

  function PackBytes(m: Meas): seq<byte> {
    Leb(m.flag) + Leb(m.time) + Leb(m.value)
  }

  /** What the record buffer holds: a value with the sign bit clear, and
      twenty groups of seven bits in all. */
  predicate Packable(m: Meas) {
    m.value < TWO_63 && Groups7(m.flag) + Groups7(m.time) + Groups7(m.value) <= PACKED_BUFFER_MAX_SIZE
  }

  /** A record takes one byte for every seven-bit group of its fields. */
  lemma PackedSize(m: Meas)
    ensures |PackBytes(m)| == Groups7(m.flag) + Groups7(m.time) + Groups7(m.value)
  {
    hide Leb, Groups7;
    LebSize(m.flag);
    LebSize(m.time);
    LebSize(m.value);
  }

  /** So with a one-byte flag, or a time below 2^42 (in milliseconds since 1970,
      until the year 2109), the sign bit of the value decides. */
  lemma UsuallyPackable(m: Meas)
    requires m.flag < 128 || m.time < 0x400_0000_0000
    ensures Packable(m) <==> m.value < TWO_63
  {
    if m.value < TWO_63 {
      hide Leb, Groups7;
      Pow128Values();
      LebSize(m.flag);
      LebSize(m.time);
      LebSize(m.value);
      Leb32Length(m.flag);
      Leb64Length(m.time);
      LebLength(m.value, 9);
      LebLength(m.flag, 1);
      LebLength(m.time, 6);
    }
  }

  datatype Group = Group(id: Id, items: seq<Meas>)

  function ItemBytes(ms: seq<Meas>): seq<byte> {
    if ms == [] then [] else ItemBytes(ms[..|ms| - 1]) + PackBytes(ms[|ms| - 1])
  }

  function GroupBytes(g: Group): seq<byte> {
    LowBytes(g.id, 4) + LowBytes(|g.items|, 2) + ItemBytes(g.items)
  }

  function BytesOf(gs: seq<Group>): seq<byte> {
    if gs == [] then [] else BytesOf(gs[..|gs| - 1]) + GroupBytes(gs[|gs| - 1])
  }

  function Flat(gs: seq<Group>): seq<Meas> {
    if gs == [] then [] else Flat(gs[..|gs| - 1]) + gs[|gs| - 1].items
  }

  /** A group is not empty, holds one id, and its count fits 16 bits. */
  ghost predicate GroupOk(g: Group) {
    1 <= |g.items| < 65536 && forall i | 0 <= i < |g.items| :: g.items[i].id == g.id && Packable(g.items[i])
  }

  ghost predicate GroupsOk(gs: seq<Group>) {
    && (forall i | 0 <= i < |gs| :: GroupOk(gs[i]))
    && (forall i | 0 < i < |gs| :: gs[i].id != gs[i - 1].id)
  }

  // ------------------------------------------------------------------ reading

  function ParseMeas(s: seq<byte>, id: Id): (r: Option<(Meas, nat)>)
    ensures r.Some? ==> 3 <= r.value.1 <= |s|
  {
    var f := ParseLeb(s);
    if f.None? then None
    else
      var t := ParseLeb(s[f.value.1..]);
      if t.None? then None
      else
        var n := f.value.1 + t.value.1;
        var v := ParseLeb(s[n..]);
        if v.None? then None
        else Some((Meas(id, Wrap(t.value.0), Wrap(v.value.0), Narrow(f.value.0)), n + v.value.1))
  }

  /** The next k records of a group. */
  function ParseItems(s: seq<byte>, id: Id, k: nat): (r: Option<(seq<Meas>, nat)>)
    ensures r.Some? ==> |r.value.0| == k && r.value.1 <= |s|
    decreases k
  {
    if k == 0 then Some(([], 0))
    else match ParseMeas(s, id)
      case None => None
      case Some((m, n)) =>
        match ParseItems(s[n..], id, k - 1)
        case None => None
        case Some((ms, l)) => Some(([m] + ms, n + l))
  }

  /** Groups until there are n measurements; the counts must add up. */
  function ParseGroups(s: seq<byte>, n: nat): (r: Option<seq<Meas>>)
    ensures r.Some? ==> |r.value| == n
    decreases |s|
  {
    if n == 0 then Some([])
    else if |s| < PACK_HEADER_SIZE then None
    else
      var id, k := LowValue(s[..4]), LowValue(s[4..6]);
      if k > n || id >= TWO_32 then None
      else match ParseItems(s[6..], id, k)
        case None => None
        case Some((ms, l)) =>
          match ParseGroups(s[6 + l..], n - k)
          case None => None
          case Some(rest) => Some(ms + rest)
  }

  lemma ParsePacked(m: Meas, rest: seq<byte>)
    requires Packable(m)
    ensures ParseMeas(PackBytes(m) + rest, m.id) == Some((m, |PackBytes(m)|))
  {
    hide Leb, ParseLeb;
    var a, b, c := Leb(m.flag), Leb(m.time), Leb(m.value);
    Leb64Length(m.time);
    Leb64Length(m.value);
    Leb32Length(m.flag);
    LebRoundTrip(m.flag, b + c + rest);
    LebRoundTrip(m.time, c + rest);
    LebRoundTrip(m.value, rest);
    var s := PackBytes(m) + rest;
    assert Wrap(m.time) == m.time && Wrap(m.value) == m.value && Narrow(m.flag) == m.flag;
    assert s == a + (b + c + rest);
    assert s[|a|..] == b + (c + rest);
    assert s[|a| + |b|..] == c + rest;
  }

  lemma ItemsSnoc(ms: seq<Meas>, m: Meas)
    ensures ItemBytes(ms + [m]) == ItemBytes(ms) + PackBytes(m)
  {
    assert (ms + [m])[..|ms|] == ms;
  }

  lemma {:induction false} ItemsFront(ms: seq<Meas>)
    requires ms != []
    ensures ItemBytes(ms) == PackBytes(ms[0]) + ItemBytes(ms[1..])
  {
    var n := |ms| - 1;
    assert ItemBytes([]) == [];
    hide PackBytes, ItemBytes;
    ItemsSnoc(ms[..n], ms[n]);
    assert ms == ms[..n] + [ms[n]];
    if n > 0 {
      ItemsFront(ms[..n]);
      ItemsSnoc(ms[1..n], ms[n]);
      assert ms[..n][1..] == ms[1..n] && ms[1..] == ms[1..n] + [ms[n]];
    }
  }

  lemma ParseItem(m: Meas, tail: seq<byte>, ms: seq<Meas>, l: nat)
    requires Packable(m) && ParseItems(tail, m.id, |ms|) == Some((ms, l))
    ensures ParseItems(PackBytes(m) + tail, m.id, |ms| + 1) == Some(([m] + ms, |PackBytes(m)| + l))
  {
    hide PackBytes, ParseMeas, Packable;
    ParsePacked(m, tail);
    assert (PackBytes(m) + tail)[|PackBytes(m)|..] == tail;
  }

  lemma ParseNoItem(s: seq<byte>, id: Id)
    ensures ItemBytes([]) == [] && ParseItems(s, id, 0) == Some(([], 0))
  {
  }

  lemma {:induction false} ParseItemBytes(ms: seq<Meas>, id: Id, rest: seq<byte>)
    requires forall i | 0 <= i < |ms| :: ms[i].id == id && Packable(ms[i])
    ensures ParseItems(ItemBytes(ms) + rest, id, |ms|) == Some((ms, |ItemBytes(ms)|))
    decreases |ms|
  {
    hide PackBytes, ParseItems, Packable, ItemBytes;
    if ms == [] {
      ParseNoItem(ItemBytes(ms) + rest, id);
    } else {
      ItemsFront(ms);
      ParseItemBytes(ms[1..], id, rest);
      ParseItem(ms[0], ItemBytes(ms[1..]) + rest, ms[1..], |ItemBytes(ms[1..])|);
      assert ItemBytes(ms) + rest == PackBytes(ms[0]) + (ItemBytes(ms[1..]) + rest);
      assert [ms[0]] + ms[1..] == ms;
    }
  }

  lemma BytesNone()
    ensures BytesOf([]) == [] && Flat([]) == []
  {
  }

  lemma BytesSnoc(gs: seq<Group>, g: Group)
    ensures BytesOf(gs + [g]) == BytesOf(gs) + GroupBytes(g) && Flat(gs + [g]) == Flat(gs) + g.items
  {
    assert (gs + [g])[..|gs|] == gs;
  }

  lemma {:induction false} BytesFront(gs: seq<Group>)
    requires gs != []
    ensures BytesOf(gs) == GroupBytes(gs[0]) + BytesOf(gs[1..])
    ensures Flat(gs) == gs[0].items + Flat(gs[1..])
  {
    hide GroupBytes, BytesOf, Flat;
    var n := |gs| - 1;
    BytesNone();
    BytesSnoc(gs[..n], gs[n]);
    assert gs == gs[..n] + [gs[n]];
    if n > 0 {
      BytesFront(gs[..n]);
      BytesSnoc(gs[1..n], gs[n]);
      assert gs[..n][1..] == gs[1..n] && gs[1..] == gs[1..n] + [gs[n]];
    }
  }

  lemma HeaderValue(g: Group)
    requires GroupOk(g)
    ensures LowValue(LowBytes(g.id, 4)) == g.id && LowValue(LowBytes(|g.items|, 2)) == |g.items|
  {
    CountValue32(g.id);
    CountValue(|g.items|);
  }

  lemma GroupSlices(h: seq<byte>, k: seq<byte>, items: seq<byte>, tail: seq<byte>)
    requires |h| == 4 && |k| == 2
    ensures var s := h + k + items + tail;
            s[..4] == h && s[4..6] == k && s[6..] == items + tail && s[6 + |items|..] == tail
  {
  }

  lemma ParseGroup(g: Group, tail: seq<byte>, r: seq<Meas>)
    requires GroupOk(g) && ParseGroups(tail, |r|) == Some(r)
    ensures ParseGroups(GroupBytes(g) + tail, |g.items + r|) == Some(g.items + r)
  {
    hide LowBytes, LowValue, ItemBytes, ParseItems, Packable;
    HeaderValue(g);
    ParseItemBytes(g.items, g.id, tail);
    var h, k, items := LowBytes(g.id, 4), LowBytes(|g.items|, 2), ItemBytes(g.items);
    GroupSlices(h, k, items, tail);
  }

  lemma ParseNone(rest: seq<byte>)
    ensures Flat([]) == [] && BytesOf([]) == [] && ParseGroups([] + rest, 0) == Some([])
  {
  }

  /** Reading gives back exactly the measurements of the groups, in order. */
  lemma {:induction false} ParseBytesOf(gs: seq<Group>, rest: seq<byte>)
    requires forall i | 0 <= i < |gs| :: GroupOk(gs[i])
    ensures ParseGroups(BytesOf(gs) + rest, |Flat(gs)|) == Some(Flat(gs))
    decreases |gs|
  {
    hide GroupBytes, GroupOk, ParseGroups, BytesOf, Flat;
    if gs == [] {
      ParseNone(rest);
    } else {
      BytesFront(gs);
      ParseBytesOf(gs[1..], rest);
      ParseGroup(gs[0], BytesOf(gs[1..]) + rest, Flat(gs[1..]));
      assert BytesOf(gs) + rest == GroupBytes(gs[0]) + (BytesOf(gs[1..]) + rest);
    }
  }

  // ------------------------------------------------------------------ writing

  /** One record, packed into a buffer of fixed size. */
  class PackMeas {
    const packed: array<byte>
    var size: nat

    ghost predicate Valid()
      reads this
    {
      packed.Length == PACKED_BUFFER_MAX_SIZE && size <= packed.Length
    }

    constructor (m: Meas)
      requires Packable(m)
      ensures Valid() && fresh(packed) && packed[..size] == PackBytes(m)
    {
      hide Leb, Groups7;
      PackedSize(m);
      var a := new byte[PACKED_BUFFER_MAX_SIZE](_ => 0);
      packed, size := a, 0;
      new;
      Pack(m.flag);
      Pack(m.time);
      Pack(m.value);
    }

    method Push(b: byte)
      requires Valid() && size < packed.Length
      modifies this, packed
      ensures Valid() && size == old(size) + 1 && packed[..size] == old(packed[..size]) + [b]
    {
      packed[size] := b;
      size := size + 1;
    }

    method Pack(v: nat)
      requires Valid() && size + |Leb(v)| <= PACKED_BUFFER_MAX_SIZE
      modifies this, packed
      ensures Valid() && packed[..size] == old(packed[..size]) + Leb(v)
    {
      hide Leb;
      var x, more := v, true;
      ghost var was, rest := packed[..size], Leb(v);
      while more
        invariant Valid() && size + |rest| <= PACKED_BUFFER_MAX_SIZE
        invariant packed[..size] + rest == was + Leb(v)
        invariant rest == if more then Leb(x) else []
        decreases more, x
      {
        LebByte(packed[..size], x);
        Push(LebHead(x));
        rest := LebTail(x);
        x := x / 128;
        more := x != 0;
      }
    }
  }

  /** The packing loop shifts a signed value: with the sign bit set it would
      never come to zero. */
  function Shifted(x: int, k: nat): int {
    if k == 0 then x else Shifted(x, k - 1) / 128
  }

  lemma {:induction false} NegativeNeverEnds(x: int, k: nat)
    requires x < 0
    ensures Shifted(x, k) < 0
  {
    if k > 0 {
      NegativeNeverEnds(x, k - 1);
    }
  }

  /** And a record that is not packable for its size overruns its buffer, as
      one of the widest fields does. */
  lemma OversizedRecord(m: Meas)
    requires m.value < TWO_63
    ensures |PackBytes(m)| > PACKED_BUFFER_MAX_SIZE <==> !Packable(m)
    ensures !Packable(Meas(0, MAX_TIME, TWO_63 - 1, TWO_32 - 1))
  {
    hide Leb, Groups7;
    PackedSize(m);
    PackedSize(Meas(0, MAX_TIME, TWO_63 - 1, TWO_32 - 1));
    Pow128Values();
    LebLength(TWO_32 - 1, 4);
    LebLength(MAX_TIME, 9);
    LebLength(TWO_63 - 1, 8);
  }

  lemma Pow128Values()
    ensures Pow128(4) == 0x1000_0000 && Pow128(8) == 0x100_0000_0000_0000 && Pow128(9) == TWO_63
  {
    assert Pow128(4) == 0x1000_0000;
    assert Pow128(8) == 0x1000_0000 * 0x1000_0000;
  }

  function Overwritten(c: seq<byte>, at: nat, s: seq<byte>): seq<byte>
    requires at + |s| <= |c|
  {
    c[..at] + s + c[at + |s|..]
  }

  method WriteAt(buf: array<byte>, at: nat, s: seq<byte>)
    requires at + |s| <= buf.Length
    modifies buf
    ensures buf[..] == Overwritten(old(buf[..]), at, s)
  {
    for i := 0 to |s|
      invariant forall j | 0 <= j < buf.Length :: buf[j] == if at <= j < at + i then s[j - at] else old(buf[j])
    {
      buf[at + i] := s[i];
    }
  }

  /** The message so far: finished groups, then the group being filled. */
  ghost predicate Filling(c: seq<byte>, gs: seq<Group>, g: Group, packAt: nat, ptr: nat) {
    && HEADER_SIZE <= packAt <= packAt + PACK_HEADER_SIZE <= ptr <= |c|
    && c[HEADER_SIZE..packAt] == BytesOf(gs) && c[packAt..ptr] == GroupBytes(g)
  }

  lemma StartGroup(c: seq<byte>, ptr: nat, gs: seq<Group>, id: Id)
    requires HEADER_SIZE <= ptr && ptr + PACK_HEADER_SIZE <= |c| && c[HEADER_SIZE..ptr] == BytesOf(gs)
    ensures var c' := Overwritten(c, ptr, LowBytes(id, 4) + LowBytes(0, 2));
            Filling(c', gs, Group(id, []), ptr, ptr + PACK_HEADER_SIZE)
  {
    hide LowBytes, BytesOf;
    var s := LowBytes(id, 4) + LowBytes(0, 2);
    var d := Overwritten(c, ptr, s);
    var g := Group(id, []);
    assert ItemBytes(g.items) == [] && |g.items| == 0;
    assert GroupBytes(g) == s + [] == s;
    assert d[HEADER_SIZE..ptr] == c[HEADER_SIZE..ptr];
    assert d[ptr..ptr + PACK_HEADER_SIZE] == s;
  }

  lemma CloseGroup(c: seq<byte>, gs: seq<Group>, g: Group, packAt: nat, ptr: nat)
    requires Filling(c, gs, g, packAt, ptr)
    ensures c[HEADER_SIZE..ptr] == BytesOf(gs + [g])
  {
    hide GroupBytes, BytesOf;
    BytesSnoc(gs, g);
    assert c[HEADER_SIZE..ptr] == c[HEADER_SIZE..packAt] + c[packAt..ptr];
  }

  lemma AddItem(c: seq<byte>, gs: seq<Group>, g: Group, packAt: nat, ptr: nat, m: Meas)
    requires Filling(c, gs, g, packAt, ptr) && ptr + |PackBytes(m)| <= |c|
    ensures var d := Overwritten(Overwritten(c, ptr, PackBytes(m)), packAt + 4, LowBytes(|g.items| + 1, 2));
            Filling(d, gs, Group(g.id, g.items + [m]), packAt, ptr + |PackBytes(m)|)
  {
    hide LowBytes, PackBytes, BytesOf, ItemBytes;
    var b, n := PackBytes(m), LowBytes(|g.items| + 1, 2);
    var d := Overwritten(Overwritten(c, ptr, b), packAt + 4, n);
    var h, k, items := LowBytes(g.id, 4), LowBytes(|g.items|, 2), ItemBytes(g.items);
    ItemsSnoc(g.items, m);
    AddItemSlices(c, packAt, ptr, h, k, items, b, n);
    OverwrittenBefore(c, ptr, b, HEADER_SIZE, packAt);
    OverwrittenBefore(Overwritten(c, ptr, b), packAt + 4, n, HEADER_SIZE, packAt);
  }

  lemma OverwrittenBefore(c: seq<byte>, at: nat, s: seq<byte>, i: nat, j: nat)
    requires at + |s| <= |c| && i <= j <= at
    ensures Overwritten(c, at, s)[i..j] == c[i..j]
  {
  }

  lemma AddItemSlices(c: seq<byte>, packAt: nat, ptr: nat, h: seq<byte>, k: seq<byte>, items: seq<byte>,
                      b: seq<byte>, n: seq<byte>)
    requires |h| == 4 && |k| == |n| == 2 && packAt + 6 <= ptr && ptr + |b| <= |c| && c[packAt..ptr] == h + k + items
    ensures Overwritten(Overwritten(c, ptr, b), packAt + 4, n)[packAt..ptr + |b|] == h + n + (items + b)
  {
    var d := Overwritten(Overwritten(c, ptr, b), packAt + 4, n);
    assert d == c[..packAt + 4] + n + c[packAt + 6..ptr] + b + c[ptr + |b|..];
    assert c[packAt..packAt + 4] == c[packAt..ptr][..4] == h;
    assert c[packAt + 6..ptr] == c[packAt..ptr][6..] == items;
    assert d[packAt..ptr + |b|] == c[packAt..packAt + 4] + n + c[packAt + 6..ptr] + b;
  }

  lemma FillingCount(c: seq<byte>, gs: seq<Group>, g: Group, packAt: nat, ptr: nat)
    requires Filling(c, gs, g, packAt, ptr) && |g.items| < 65536
    ensures LowValue(c[packAt + 4..packAt + 6]) == |g.items|
  {
    hide LowBytes, LowValue, BytesOf, ItemBytes;
    var h, k, items := LowBytes(g.id, 4), LowBytes(|g.items|, 2), ItemBytes(g.items);
    CountValue(|g.items|);
    HeaderSlice(c[packAt..ptr], h, k, items);
    SubSlice(c, packAt, ptr, 4, 6);
  }

  lemma HeaderSlice(s: seq<byte>, h: seq<byte>, k: seq<byte>, items: seq<byte>)
    requires s == h + k + items && |h| == 4 && |k| == 2
    ensures s[4..6] == k
  {
  }

  lemma SubSlice(c: seq<byte>, a: nat, b: nat, i: nat, j: nat)
    requires i <= j && a + j <= b <= |c|
    ensures c[a..b][i..j] == c[a + i..a + j]
  {
    var s := c[a..b];
    assert |s[i..j]| == |c[a + i..a + j]|;
    assert forall k | 0 <= k < j - i :: s[i..j][k] == c[a + i..a + j][k];
  }

  lemma CountValue(n: nat)
    requires n < 65536
    ensures LowValue(LowBytes(n, 2)) == n
  {
    assert Pow256(2) == 65536;
    LowBytesValue(n, 2);
  }

  lemma OverwrittenAfter(c: seq<byte>, at: nat, s: seq<byte>)
    requires at + |s| <= |c|
    ensures |Overwritten(c, at, s)| == |c| && forall j | at + |s| <= j < |c| :: Overwritten(c, at, s)[j] == c[j]
  {
  }

  /** Copies a record behind the others and raises the group's count in place. */
  method PutRecord(buf: array<byte>, packAt: nat, ptr: nat, packed: seq<byte>, ghost gs: seq<Group>, ghost g: Group,
                   ghost m: Meas)
    requires packed == PackBytes(m) && Filling(buf[..], gs, g, packAt, ptr)
    requires |g.items| < 65535 && ptr + |packed| <= buf.Length
    modifies buf
    ensures Filling(buf[..], gs, Group(g.id, g.items + [m]), packAt, ptr + |packed|)
    ensures buf[..HEADER_SIZE] == old(buf[..HEADER_SIZE])
            && forall j | ptr + |packed| <= j < buf.Length :: buf[j] == old(buf[j])
  {
    hide LowBytes, LowValue, PackBytes, BytesOf, GroupBytes, Overwritten;
    ghost var c := buf[..];
    FillingCount(c, gs, g, packAt, ptr);
    var n := LowValue(buf[packAt + 4..packAt + 6]);
    AddItem(c, gs, g, packAt, ptr, m);
    WriteAt(buf, ptr, packed);
    ghost var d := buf[..];
    WriteAt(buf, packAt + 4, LowBytes(n + 1, 2));
    OverwrittenBefore(c, ptr, packed, 0, HEADER_SIZE);
    OverwrittenBefore(d, packAt + 4, LowBytes(n + 1, 2), 0, HEADER_SIZE);
    OverwrittenAfter(c, ptr, packed);
    OverwrittenAfter(d, packAt + 4, LowBytes(n + 1, 2));
  }

  lemma {:induction false} ItemsLong(ms: seq<Meas>)
    ensures |ItemBytes(ms)| >= 3 * |ms|
  {
    if ms != [] {
      ItemsLong(ms[..|ms| - 1]);
    }
  }

  lemma PackLong(m: Meas)
    ensures |PackBytes(m)| >= 3
  {
  }

  /** A record has three bytes at least, so no count outgrows 16 bits. */
  lemma FillingSmall(c: seq<byte>, gs: seq<Group>, g: Group, packAt: nat, ptr: nat)
    requires Filling(c, gs, g, packAt, ptr) && |c| <= MAX_MESSAGE_SIZE
    ensures |g.items| < 65535
  {
    hide LowBytes, BytesOf, ItemBytes;
    ItemsLong(g.items);
    assert |c[packAt..ptr]| == 6 + |ItemBytes(g.items)|;
  }

  method OpenGroup(buf: array<byte>, ptr: nat, id: Id, ghost gs: seq<Group>)
    requires HEADER_SIZE <= ptr && ptr + PACK_HEADER_SIZE <= buf.Length && buf[HEADER_SIZE..ptr] == BytesOf(gs)
    modifies buf
    ensures Filling(buf[..], gs, Group(id, []), ptr, ptr + PACK_HEADER_SIZE)
    ensures buf[..HEADER_SIZE] == old(buf[..HEADER_SIZE])
    ensures forall j | ptr + PACK_HEADER_SIZE <= j < buf.Length :: buf[j] == old(buf[j])
  {
    hide LowBytes, BytesOf, GroupBytes, Overwritten;
    ghost var c := buf[..];
    var h := LowBytes(id, 4) + LowBytes(0, 2);
    assert c[HEADER_SIZE..ptr] == buf[HEADER_SIZE..ptr];
    StartGroup(c, ptr, gs, id);
    WriteAt(buf, ptr, h);
    OverwrittenBefore(c, ptr, h, 0, HEADER_SIZE);
    OverwrittenAfter(c, ptr, h);
  }

  /** The measurements taken so far, as finished groups and an open one. */
  ghost predicate Batched(part: seq<Meas>, gs: seq<Group>, g: Group) {
    && Flat(gs) + g.items == part
    && (forall i | 0 <= i < |gs| :: GroupOk(gs[i]))
    && (forall i | 0 < i < |gs| :: gs[i].id != gs[i - 1].id) && (gs != [] ==> gs[|gs| - 1].id != g.id)
    && (forall i | 0 <= i < |g.items| :: g.items[i].id == g.id && Packable(g.items[i]))
    && (part == [] ==> gs == [])
    && (part != [] ==> g.items != [])
  }

  lemma BatchAdd(part: seq<Meas>, gs: seq<Group>, g: Group, m: Meas)
    requires Batched(part, gs, g) && m.id == g.id && Packable(m)
    ensures Batched(part + [m], gs, Group(g.id, g.items + [m]))
  {
    hide Packable, GroupOk, Flat;
    assert Flat(gs) + (g.items + [m]) == (Flat(gs) + g.items) + [m];
  }

  lemma BatchNew(part: seq<Meas>, gs: seq<Group>, g: Group, m: Meas)
    requires Batched(part, gs, g) && part != [] && m.id != g.id && Packable(m) && |g.items| < 65536
    ensures Batched(part + [m], gs + [g], Group(m.id, [m]))
  {
    hide Packable, Flat, BytesOf, GroupBytes;
    BytesSnoc(gs, g);
  }

  lemma BatchDone(part: seq<Meas>, gs: seq<Group>, g: Group)
    requires Batched(part, gs, g) && part != [] && |g.items| < 65536
    ensures GroupsOk(gs + [g]) && Flat(gs + [g]) == part
  {
    hide Packable, Flat, BytesOf, GroupBytes;
    BytesSnoc(gs, g);
  }

  /** Whether measurement m still fits behind a group of this id. */
  predicate Room(id: Id, m: Meas, left: int) {
    left > |PackBytes(m)| + if m.id != id then PACK_HEADER_SIZE else 0
  }

  /** One turn of the packing loop: opens a group if the id changes, then adds
      the record, unless it no longer fits. */
  method AddNext(buf: array<byte>, m: Meas, packAt: nat, ptr: nat, id: Id, ghost part: seq<Meas>,
                 ghost gs: seq<Group>, ghost g: Group)
    returns (ok: bool, packAt': nat, ptr': nat, ghost gs': seq<Group>, ghost g': Group)
    requires buf.Length == MAX_MESSAGE_SIZE && Packable(m) && HEADER_SIZE <= ptr < FREE_SPACE && g.id == id
    requires Filling(buf[..], gs, g, packAt, ptr) && Batched(part, gs, g) && (part == [] ==> m.id == id)
    modifies buf
    ensures ok <==> Room(id, m, FREE_SPACE - ptr)
    ensures ptr <= ptr' < FREE_SPACE && Filling(buf[..], gs', g', packAt', ptr')
            && Batched(if ok then part + [m] else part, gs', g')
    ensures if ok then g'.id == m.id && ptr < ptr' else g' == g && ptr' == ptr && packAt' == packAt && gs' == gs
    ensures buf[..HEADER_SIZE] == old(buf[..HEADER_SIZE]) && forall j | ptr' <= j < buf.Length :: buf[j] == old(buf[j])
  {
    hide Packable, GroupOk, Flat, BytesOf, GroupBytes, LowBytes, LowValue, PackBytes, Batched, Filling;
    ok, packAt', ptr', gs', g' := false, packAt, ptr, gs, g;
    var sm := new PackMeas(m);
    var packed := sm.packed[..sm.size];
    var left := FREE_SPACE - ptr;
    FillingSmall(buf[..], gs, g, packAt, ptr);
    if m.id != id {
      if left <= PACK_HEADER_SIZE + sm.size {
        return;
      }
      BatchNew(part, gs, g, m);
      CloseGroup(buf[..], gs, g, packAt, ptr);
      assert buf[HEADER_SIZE..ptr] == buf[..][HEADER_SIZE..ptr];
      packAt', gs', g' := ptr, gs + [g], Group(m.id, []);
      OpenGroup(buf, packAt', m.id, gs');
      ptr' := ptr + PACK_HEADER_SIZE;
    } else {
      BatchAdd(part, gs, g, m);
    }
    if left <= sm.size {
      return;
    }
    PutRecord(buf, packAt', ptr', packed, gs', g', m);
    PackLong(m);
    assert [] + [m] == [m];
    g', ptr', ok := Group(m.id, g'.items + [m]), ptr' + sm.size, true;
  }

  /** The packing loop: as many measurements from position pos on as fit. */
  method FillMessage(buf: array<byte>, ms: seq<Meas>, pos: nat) returns (cur: nat, ptr: nat, ghost gs: seq<Group>)
    requires buf.Length == MAX_MESSAGE_SIZE && pos < |ms| && forall i | pos <= i < |ms| :: Packable(ms[i])
    modifies buf
    ensures pos < cur <= |ms| && HEADER_SIZE <= ptr < FREE_SPACE && cur - pos < 65536
    ensures GroupsOk(gs) && Flat(gs) == ms[pos..cur] && buf[HEADER_SIZE..ptr] == BytesOf(gs)
    ensures buf[..HEADER_SIZE] == old(buf[..HEADER_SIZE]) && forall j | ptr <= j < buf.Length :: buf[j] == old(buf[j])
    ensures cur < |ms| ==> !Room(ms[cur - 1].id, ms[cur], FREE_SPACE - ptr)
  {
    hide Packable, GroupOk, Flat, BytesOf, GroupBytes, LowBytes, PackBytes, Batched, Filling, GroupsOk, Room;
    gs := [];
    BytesNone();
    var packAt: nat, id := HEADER_SIZE, ms[pos].id;
    OpenGroup(buf, packAt, id, gs);
    ghost var g := Group(id, []);
    ptr, cur := packAt + PACK_HEADER_SIZE, pos;
    BatchStart(id);
    assert ms[pos..cur] == [];
    while cur < |ms| && ptr != FREE_SPACE
      invariant pos <= cur <= |ms| && cur - pos <= ptr < FREE_SPACE && HEADER_SIZE <= ptr
      invariant Filling(buf[..], gs, g, packAt, ptr) && Batched(ms[pos..cur], gs, g) && g.id == id
      invariant buf[..HEADER_SIZE] == old(buf[..HEADER_SIZE])
                && forall j | ptr <= j < buf.Length :: buf[j] == old(buf[j])
      invariant id == ms[if cur == pos then pos else cur - 1].id
                && (cur == pos ==> ptr == HEADER_SIZE + PACK_HEADER_SIZE)
      decreases |ms| - cur
    {
      FirstFits(ms[cur]);
      var ok;
      ok, packAt, ptr, gs, g := AddNext(buf, ms[cur], packAt, ptr, id, ms[pos..cur], gs, g);
      if !ok {
        break;
      }
      assert ms[pos..cur] + [ms[cur]] == ms[pos..cur + 1];
      id, cur := ms[cur].id, cur + 1;
    }
    FillingSmall(buf[..], gs, g, packAt, ptr);
    BatchDone(ms[pos..cur], gs, g);
    CloseGroup(buf[..], gs, g, packAt, ptr);
    gs := gs + [g];
  }

  /** Packs one message and stores its count. */
  method MakeQuery(buf: array<byte>, ms: seq<Meas>, pos: nat)
    returns (result: nat, spaceLeft: nat, ghost gs: seq<Group>)
    requires buf.Length == MAX_MESSAGE_SIZE && pos < |ms| && forall i | pos <= i < |ms| :: Packable(ms[i])
    modifies buf
    ensures 1 <= result <= |ms| - pos && 1 <= spaceLeft && HEADER_SIZE <= FREE_SPACE - spaceLeft
    ensures GroupsOk(gs) && Flat(gs) == ms[pos..pos + result]
    ensures buf[HEADER_SIZE..FREE_SPACE - spaceLeft] == BytesOf(gs) && LowValue(buf[5..9]) == result
    ensures buf[..5] == old(buf[..5]) && forall j | FREE_SPACE - spaceLeft <= j < buf.Length :: buf[j] == old(buf[j])
    ensures pos + result < |ms| ==> !Room(ms[pos + result - 1].id, ms[pos + result], spaceLeft)
  {
    hide Packable, Flat, BytesOf, LowValue, PackBytes, GroupsOk, Room;
    var cur, ptr;
    cur, ptr, gs := FillMessage(buf, ms, pos);
    result, spaceLeft := cur - pos, FREE_SPACE - ptr;
    WriteCount(buf, result);
  }

  lemma FirstFits(m: Meas)
    requires Packable(m)
    ensures Room(m.id, m, FREE_SPACE - HEADER_SIZE - PACK_HEADER_SIZE)
  {
    PackedSize(m);
  }

  /** Stores the number of measurements in the message header. */
  method WriteCount(buf: array<byte>, n: nat)
    requires n < TWO_32 && HEADER_SIZE <= buf.Length
    modifies buf
    ensures buf[..5] == old(buf[..5]) && LowValue(buf[5..9]) == n
    ensures forall j | HEADER_SIZE <= j < buf.Length :: buf[j] == old(buf[j])
  {
    hide LowBytes, LowValue, Overwritten;
    var s := LowBytes(n, 4);
    assert LowValue(s) == n by {
      CountValue32(n);
    }
    ghost var c := buf[..];
    WriteAt(buf, 5, s);
    OverwrittenBefore(c, 5, s, 0, 5);
    OverwrittenAfter(c, 5, s);
    OverwrittenAt(c, 5, s);
  }

  lemma OverwrittenAt(c: seq<byte>, at: nat, s: seq<byte>)
    requires at + |s| <= |c|
    ensures Overwritten(c, at, s)[at..at + |s|] == s
  {
  }

  lemma CountValue32(n: nat)
    requires n < TWO_32
    ensures LowValue(LowBytes(n, 4)) == n
  {
    assert Pow256(4) == TWO_32;
    LowBytesValue(n, 4);
  }

  lemma BatchStart(id: Id)
    ensures Batched([], [], Group(id, []))
  {
  }

  // ------------------------------------------------------- the reading methods

  /** Reads one LEB128 number; groups past the width of the result are lost. */
  method Unpack(buf: array<byte>, at: nat) returns (result: uint64, ptr: nat)
    requires at <= buf.Length && ParseLeb(buf[at..]).Some?
    ensures var r := ParseLeb(buf[at..]).value; result == Wrap(r.0) && ptr == at + r.1 <= buf.Length
  {
    hide ParseLeb, Pow128, LebSplit, Wrap;
    ghost var s := buf[at..];
    ghost var acc: nat := 0;
    result, ptr := 0, at;
    var bytes: nat, more := 0, true;
    LebBegin(s);
    WrapAdd(0, 0);
    while more
      invariant ptr == at + bytes <= buf.Length && result == Wrap(acc)
      invariant more ==> LebSplit(s, acc, bytes, buf[ptr..])
      invariant !more ==> ParseLeb(s) == Some((acc, bytes))
      decreases more, buf.Length - ptr
    {
      LebStep(s, acc, bytes, buf[ptr..]);
      var readed := buf[ptr];
      assert buf[ptr..][1..] == buf[ptr + 1..];
      WrapAdd(acc, Pow128(bytes) * (readed % 128));
      acc := acc + Pow128(bytes) * (readed % 128);
      result := Wrap(result + Pow128(bytes) * (readed % 128));
      ptr, bytes, more := ptr + 1, bytes + 1, readed >= 128;
    }
  }

  lemma Truncated(x: nat)
    ensures Narrow(Wrap(x)) == Narrow(x)
  {
  }

  method UnpackMeas(buf: array<byte>, at: nat, id: Id) returns (m: Meas, ptr: nat)
    requires at <= buf.Length && ParseMeas(buf[at..], id).Some?
    ensures ParseMeas(buf[at..], id) == Some((m, ptr - at)) && at <= ptr <= buf.Length
  {
    hide ParseLeb, Wrap, Narrow;
    var flag, time, value;
    flag, ptr := Unpack(buf, at);
    Truncated(ParseLeb(buf[at..]).value.0);
    assert buf[at..][ptr - at..] == buf[ptr..];
    time, ptr := Unpack(buf, ptr);
    assert buf[at..][ptr - at..] == buf[ptr..];
    value, ptr := Unpack(buf, ptr);
    m := Meas(id, time, value, Narrow(flag));
  }

  /** What is left of a group after some of its records. */
  ghost predicate ItemsLeft(s: seq<byte>, id: Id, k: nat, done: seq<Meas>, rest: seq<byte>, used: nat) {
    && |done| <= k
    && match ParseItems(rest, id, k - |done|)
       case None => false
       case Some((ms, l)) => ParseItems(s, id, k) == Some((done + ms, used + l))
  }

  lemma ItemsStep(s: seq<byte>, id: Id, k: nat, done: seq<Meas>, rest: seq<byte>, used: nat)
    requires ItemsLeft(s, id, k, done, rest, used) && |done| < k
    ensures ParseMeas(rest, id).Some?
    ensures var r := ParseMeas(rest, id).value; ItemsLeft(s, id, k, done + [r.0], rest[r.1..], used + r.1)
  {
    hide ParseMeas;
    var r := ParseMeas(rest, id).value;
    var t := ParseItems(rest[r.1..], id, k - |done| - 1).value;
    assert done + ([r.0] + t.0) == (done + [r.0]) + t.0;
  }

  lemma ItemsEnd(s: seq<byte>, id: Id, k: nat, done: seq<Meas>, rest: seq<byte>, used: nat)
    requires ItemsLeft(s, id, k, done, rest, used) && |done| == k
    ensures ParseItems(s, id, k) == Some((done, used))
  {
    assert ParseItems(rest, id, 0) == Some(([], 0)) && done + [] == done;
  }

  lemma ItemsBegin(s: seq<byte>, id: Id, k: nat)
    requires ParseItems(s, id, k).Some?
    ensures ItemsLeft(s, id, k, [], s, 0)
  {
    hide ParseItems;
    assert [] + ParseItems(s, id, k).value.0 == ParseItems(s, id, k).value.0;
  }

  /** The records of one group. */
  method UnpackGroup(buf: array<byte>, at: nat, id: Id, count: nat) returns (ms: seq<Meas>, ptr: nat)
    requires at <= buf.Length && ParseItems(buf[at..], id, count).Some?
    ensures ParseItems(buf[at..], id, count) == Some((ms, ptr - at)) && at <= ptr <= buf.Length
  {
    hide ParseItems, ParseMeas, ItemsLeft;
    ms, ptr := [], at;
    ItemsBegin(buf[at..], id, count);
    for i := 0 to count
      invariant |ms| == i && at <= ptr <= buf.Length && ItemsLeft(buf[at..], id, count, ms, buf[ptr..], ptr - at)
    {
      ItemsStep(buf[at..], id, count, ms, buf[ptr..], ptr - at);
      ghost var p := ptr;
      var m;
      m, ptr := UnpackMeas(buf, ptr, id);
      assert buf[p..][ptr - p..] == buf[ptr..];
      ms := ms + [m];
    }
    ItemsEnd(buf[at..], id, count, ms, buf[ptr..], ptr - at);
  }

  ghost predicate GroupsLeft(s: seq<byte>, n: nat, done: seq<Meas>, rest: seq<byte>) {
    && |done| <= n
    && match ParseGroups(rest, n - |done|)
       case None => false
       case Some(ms) => ParseGroups(s, n) == Some(done + ms)
  }

  lemma GroupsStep(s: seq<byte>, n: nat, done: seq<Meas>, rest: seq<byte>)
    requires GroupsLeft(s, n, done, rest) && |done| < n
    ensures |rest| >= PACK_HEADER_SIZE && LowValue(rest[..4]) < TWO_32 && LowValue(rest[4..6]) <= n - |done|
    ensures ParseItems(rest[6..], LowValue(rest[..4]), LowValue(rest[4..6])).Some?
    ensures var r := ParseItems(rest[6..], LowValue(rest[..4]), LowValue(rest[4..6])).value;
            GroupsLeft(s, n, done + r.0, rest[6 + r.1..])
  {
    hide ParseItems, LowValue;
    var r := ParseItems(rest[6..], LowValue(rest[..4]), LowValue(rest[4..6])).value;
    var t := ParseGroups(rest[6 + r.1..], n - |done| - |r.0|).value;
    assert done + (r.0 + t) == (done + r.0) + t;
  }

  lemma GroupsBegin(s: seq<byte>, n: nat)
    requires ParseGroups(s, n).Some?
    ensures GroupsLeft(s, n, [], s)
  {
    hide ParseGroups;
    assert [] + ParseGroups(s, n).value == ParseGroups(s, n).value;
  }

  lemma GroupsEnd(s: seq<byte>, n: nat, done: seq<Meas>, rest: seq<byte>)
    requires GroupsLeft(s, n, done, rest) && |done| == n
    ensures ParseGroups(s, n) == Some(done)
  {
    assert ParseGroups(rest, 0) == Some([]) && done + [] == done;
  }

  /** Reads a message's measurements back. */
  method ReadMeasArray(buf: array<byte>) returns (ma: seq<Meas>)
    requires buf.Length >= HEADER_SIZE && ParseGroups(buf[HEADER_SIZE..], LowValue(buf[5..9])).Some?
    ensures ParseGroups(buf[HEADER_SIZE..], LowValue(buf[5..9])) == Some(ma)
  {
    hide ParseGroups, ParseItems, LowValue, GroupsLeft;
    var count := LowValue(buf[5..9]);
    var ptr: nat := HEADER_SIZE;
    ma := [];
    GroupsBegin(buf[HEADER_SIZE..], count);
    while |ma| < count
      invariant |ma| <= count && HEADER_SIZE <= ptr <= buf.Length
                && GroupsLeft(buf[HEADER_SIZE..], count, ma, buf[ptr..])
      decreases buf.Length - ptr
    {
      GroupsStep(buf[HEADER_SIZE..], count, ma, buf[ptr..]);
      ghost var p := ptr;
      HeaderSlices(buf, ptr);
      var id, n := LowValue(buf[ptr..ptr + 4]), LowValue(buf[ptr + 4..ptr + 6]);
      ptr := ptr + PACK_HEADER_SIZE;
      var ms;
      ms, ptr := UnpackGroup(buf, ptr, id, n);
      assert buf[p..][ptr - p..] == buf[ptr..];
      ma := ma + ms;
    }
    GroupsEnd(buf[HEADER_SIZE..], count, ma, buf[ptr..]);
  }

  lemma HeaderSlices(buf: array<byte>, p: nat)
    requires p + PACK_HEADER_SIZE <= buf.Length
    ensures buf[p..][..4] == buf[p..p + 4] && buf[p..][4..6] == buf[p + 4..p + 6] && buf[p..][6..] == buf[p + 6..]
  {
  }

  // -------------------------------------------------------------- round trips

  /** What a receiver makes of the bytes of a message. */
  function Decode(msg: seq<byte>): Option<seq<Meas>> {
    if |msg| < HEADER_SIZE then None else ParseGroups(msg[HEADER_SIZE..], LowValue(msg[5..9]))
  }

  /** Whatever follows the groups, a message reads back as their measurements. */
  lemma MessageReads(msg: seq<byte>, used: nat, gs: seq<Group>)
    requires HEADER_SIZE <= used <= |msg| && msg[HEADER_SIZE..used] == BytesOf(gs) && GroupsOk(gs)
    requires LowValue(msg[5..9]) == |Flat(gs)|
    ensures Decode(msg) == Some(Flat(gs))
  {
    hide LowValue, ParseGroups, BytesOf, Flat, GroupOk;
    ParseBytesOf(gs, msg[used..]);
    assert msg[HEADER_SIZE..] == BytesOf(gs) + msg[used..];
  }

  /** Sends an array as a series of messages. */
  method Append(ms: seq<Meas>) returns (sent: seq<seq<byte>>, ghost parts: seq<seq<Meas>>)
    requires forall i | 0 <= i < |ms| :: Packable(ms[i])
    ensures |sent| == |parts| <= |ms| && Concat(parts) == ms
    ensures forall i | 0 <= i < |sent| :: Decode(sent[i]) == Some(parts[i]) && |parts[i]| >= 1
    ensures forall i | 0 <= i < |sent| :: MARKER_SIZE + |sent[i]| < MAX_MESSAGE_SIZE
  {
    hide Packable, LowValue, BytesOf, Flat, GroupsOk, Decode, Concat, PackBytes;
    sent, parts := [], [];
    var writed := 0;
    ConcatNone();
    while writed != |ms|
      invariant writed <= |ms| && |sent| == |parts| <= writed && Concat(parts) == ms[..writed]
      invariant forall i | 0 <= i < |sent| :: Decode(sent[i]) == Some(parts[i]) && |parts[i]| >= 1
      invariant forall i | 0 <= i < |sent| :: MARKER_SIZE + |sent[i]| < MAX_MESSAGE_SIZE
      decreases |ms| - writed
    {
      var buf := new byte[MAX_MESSAGE_SIZE](_ => 0);
      ghost var gs;
      var count, spaceLeft;
      count, spaceLeft, gs := MakeQuery(buf, ms, writed);
      var size := MAX_MESSAGE_SIZE - MARKER_SIZE - spaceLeft;
      var msg := buf[..size];
      ghost var c, end := buf[..], FREE_SPACE - spaceLeft;
      assert msg == c[..size] && buf[5..9] == c[5..9] && buf[HEADER_SIZE..end] == c[HEADER_SIZE..end];
      PrefixSlices(c, size, end);
      MessageReads(msg, end, gs);
      ConcatSnoc(parts, Flat(gs));
      assert ms[..writed] + ms[writed..writed + count] == ms[..writed + count];
      sent, parts := sent + [msg], parts + [Flat(gs)];
      writed := writed + count;
    }
    assert ms[..writed] == ms;
  }

  lemma ConcatNone()
    ensures Concat([]) == []
  {
  }

  lemma PrefixSlices(c: seq<byte>, size: nat, end: nat)
    requires HEADER_SIZE <= end <= size <= |c|
    ensures c[..size][5..9] == c[5..9] && c[..size][HEADER_SIZE..end] == c[HEADER_SIZE..end]
  {
  }
}
