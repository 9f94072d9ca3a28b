/** A whole run of packed measurements: the stream a writer produces from the
    measurements it accepts, the list a reader gets back, and the exact
    relation between the two. */
module RunCodec {
  import opened Measurements
  import opened Bits
  import opened Leb128
  import opened RecordCodec

  /** What the time and value codecs remember between two measurements.  The
      "previous delta" is the last second difference, not the last delta. */
  datatype State = State(prevTime: Time, prevDelta: int64, prevValue: Value)

  function Initial(first: Meas): State {
    State(first.time, 0, first.value)
  }

  function StepDelta(st: State, t: Time): int64 {
    Signed(Wrap(t - st.prevTime - st.prevDelta))
  }

  function XorOf(a: Value, b: Value): uint64 {
    Pow2SixtyFour(); XorBound(a, b, 64);
    XorBits(a, b)
  }

  function After(st: State, m: Meas): State {
    State(m.time, StepDelta(st, m.time), m.value)
  }

  function Final(st: State, ms: seq<Meas>): State
    decreases |ms|
  {
    if ms == [] then st else Final(After(st, ms[0]), ms[1..])
  }

  /** The XOR of every value with its predecessor has a writable byte count. */
  predicate Encodable(st: State, ms: seq<Meas>)
    decreases |ms|
  {
    ms == [] || (ValueFits(XorOf(st.prevValue, ms[0].value)) && Encodable(After(st, ms[0]), ms[1..]))
  }

  // -------------------------------------------------------------- encoding

  function EncodeOne(st: State, m: Meas): (s: seq<byte>)
    requires ValueFits(XorOf(st.prevValue, m.value))
    ensures |s| >= 3
  {
    DeltaBytes(StepDelta(st, m.time)) + XorBytes(XorOf(st.prevValue, m.value)) + Leb(m.flag)
  }

  function EncodeRun(st: State, ms: seq<Meas>): seq<byte>
    requires Encodable(st, ms)
    decreases |ms|
  {
    if ms == [] then [] else EncodeOne(st, ms[0]) + EncodeRun(After(st, ms[0]), ms[1..])
  }

  /** Appending one measurement appends its record. */
  lemma {:induction false} EncodeAppend(st: State, ms: seq<Meas>, m: Meas)
    requires Encodable(st, ms)
    ensures Final(st, ms + [m]) == After(Final(st, ms), m)
    ensures Encodable(st, ms + [m]) <==> ValueFits(XorOf(Final(st, ms).prevValue, m.value))
    ensures Encodable(st, ms + [m]) ==>
              EncodeRun(st, ms + [m]) == EncodeRun(st, ms) + EncodeOne(Final(st, ms), m)
    decreases |ms|
  {
    hide EncodeOne, After, ValueFits, XorOf;
    if ms == [] {
      assert ms + [m] == [m];
    } else {
      assert (ms + [m])[1..] == ms[1..] + [m];
      EncodeAppend(After(st, ms[0]), ms[1..], m);
    }
  }

  /** Every packed measurement takes at least three bytes. */
  lemma {:induction false} EncodeLength(st: State, ms: seq<Meas>)
    requires Encodable(st, ms)
    ensures |EncodeRun(st, ms)| >= 3 * |ms|
    decreases |ms|
  {
    if ms != [] { EncodeLength(After(st, ms[0]), ms[1..]); }
  }

  // -------------------------------------------------------------- decoding

  datatype Record = Record(meas: Meas, state: State, size: nat)

  function ParseTime(st: State, s: seq<byte>): (r: Option<(Time, int64, nat)>)
    ensures r.Some? ==> r.value.2 <= |s|
  {
    match ParseDelta(s)
    case None => None
    case Some((D, n)) => Some((Wrap(st.prevTime + D + st.prevDelta), D, n))
  }

  function ParseValue(st: State, s: seq<byte>): (r: Option<(Value, nat)>)
    ensures r.Some? ==> r.value.1 <= |s|
  {
    match ParseXor(s)
    case None => None
    case Some((x, n)) => Some((XorOf(x, st.prevValue), n))
  }

  function ParseFlag(s: seq<byte>): (r: Option<(Flag, nat)>)
    ensures r.Some? ==> r.value.1 <= |s|
  {
    match ParseLeb(s)
    case None => None
    case Some((f, n)) => Some((Narrow(f), n))
  }

  /** One call of the reader: time, value and flag off the same stream. */
  function ParseRecord(st: State, id: Id, s: seq<byte>): (r: Option<Record>)
    ensures r.Some? ==> r.value.size <= |s|
  {
    match ParseTime(st, s)
    case None => None
    case Some((t, D, n)) =>
      match ParseValue(st, s[n..])
      case None => None
      case Some((v, k)) =>
        match ParseFlag(s[n..][k..])
        case None => None
        case Some((f, l)) => Some(Record(Meas(id, t, v, f), State(t, D, v), n + k + l))
  }

  /** n calls of the reader: the measurements and the bytes consumed. */
  function DecodeRun(st: State, id: Id, n: nat, s: seq<byte>): (r: Option<(seq<Meas>, nat)>)
    ensures r.Some? ==> |r.value.0| == n && r.value.1 <= |s|
    decreases n
  {
    if n == 0 then Some(([], 0))
    else
      var rec := ParseRecord(st, id, s);
      if rec.None? then None
      else
        var rest := DecodeRun(rec.value.state, id, n - 1, s[rec.value.size..]);
        if rest.None? then None
        else Some(([rec.value.meas] + rest.value.0, rec.value.size + rest.value.1))
  }

  // ----------------------------------------------- what the reader gets back

  /** The second differences of a run. */
  function Deltas(st: State, ms: seq<Meas>): (ds: seq<int64>)
    ensures |ds| == |ms|
    decreases |ms|
  {
    if ms == [] then [] else [StepDelta(st, ms[0].time)] + Deltas(After(st, ms[0]), ms[1..])
  }

  function Bumps(ds: seq<int64>): nat {
    if ds == [] then 0 else Bump(ds[|ds| - 1]) + Bumps(ds[..|ds| - 1])
  }

  /** The reader's state next to a writer's state, after `c` bumped steps that
      lie strictly before the last one. */
  function ReaderState(st: State, c: nat): State {
    State(Wrap(st.prevTime + 2 * c + Bump(st.prevDelta)), st.prevDelta + Bump(st.prevDelta), st.prevValue)
  }

  /** The measurements as the reader reports them. */
  function Drifted(st: State, c: nat, id: Id, ms: seq<Meas>): (r: seq<Meas>)
    ensures |r| == |ms|
    decreases |ms|
  {
    if ms == [] then []
    else
      var m, c' := ms[0], c + Bump(st.prevDelta);
      [Meas(id, Wrap(m.time + 2 * c' + Bump(StepDelta(st, m.time))), m.value, m.flag)]
      + Drifted(After(st, m), c', id, ms[1..])
  }

  /** The reader's time, mod 2^64, from its drifted state. */
  lemma TimeRoundTrip(st: State, c: nat, t: Time, rest: seq<byte>)
    ensures var D := StepDelta(st, t); var c' := c + Bump(st.prevDelta);
            ParseTime(ReaderState(st, c), DeltaBytes(D) + rest)
            == Some((Wrap(t + 2 * c' + Bump(D)), D + Bump(D), |DeltaBytes(D)|))
  {
    hide DeltaBytes, ParseDelta;
    var D, c' := StepDelta(st, t), c + Bump(st.prevDelta);
    DeltaRoundTrip(D, rest);
    var rs := ReaderState(st, c);
    var e := st.prevTime + 2 * c + Bump(st.prevDelta);
    var u := t - st.prevTime - st.prevDelta;
    var k1, k2 := e / TWO_64, u / TWO_64;
    var k3 := if Wrap(u) < TWO_63 then 0 else 1;
    assert rs.prevTime == e - k1 * TWO_64;
    assert D == u - k2 * TWO_64 - k3 * TWO_64;
    WrapUnique(rs.prevTime + (D + Bump(D)) + rs.prevDelta, t + 2 * c' + Bump(D), -k1 - k2 - k3);
  }

  lemma FlagRoundTrip(f: Flag, rest: seq<byte>)
    ensures ParseFlag(Leb(f) + rest) == Some((f, |Leb(f)|))
  {
    Leb32Length(f);
    LebRoundTrip(f, rest);
  }

  /** One record, whatever follows it: the reader takes exactly the bytes the
      writer wrote and ends in the state that matches the writer's. */
  lemma RecordRoundTrip(st: State, c: nat, id: Id, m: Meas, rest: seq<byte>)
    requires ValueFits(XorOf(st.prevValue, m.value))
    ensures var c' := c + Bump(st.prevDelta);
            ParseRecord(ReaderState(st, c), id, EncodeOne(st, m) + rest)
            == Some(Record(Drifted(st, c, id, [m])[0], ReaderState(After(st, m), c'), |EncodeOne(st, m)|))
  {
    hide DeltaBytes, XorBytes, Leb, ParseDelta, ParseLeb, ParseXor, Wrap, Signed, Bumped, ValueFits, XorBits;
    var D, x := StepDelta(st, m.time), XorOf(st.prevValue, m.value);
    var d, v, f := DeltaBytes(D), XorBytes(x), Leb(m.flag);
    TimeRoundTrip(st, c, m.time, v + (f + rest));
    XorRoundTrip(x, f + rest);
    XorCancels(st.prevValue, m.value);
    FlagRoundTrip(m.flag, rest);
    var s := d + (v + (f + rest));
    assert EncodeOne(st, m) + rest == s;
    assert s[|d|..] == v + (f + rest);
    assert s[|d|..][|v|..] == f + rest;
  }

  /** Round trip of a run: after any sequence of accepted measurements, and
      with anything below them in the buffer, the reader returns `Drifted` and
      stands exactly where the writer stood. */
  lemma {:induction false} RunRoundTrip(st: State, c: nat, id: Id, ms: seq<Meas>, rest: seq<byte>)
    requires Encodable(st, ms)
    ensures DecodeRun(ReaderState(st, c), id, |ms|, EncodeRun(st, ms) + rest)
            == Some((Drifted(st, c, id, ms), |EncodeRun(st, ms)|))
    decreases |ms|
  {
    hide EncodeOne, ParseRecord, ReaderState, After, Wrap, StepDelta, ValueFits, XorOf, Bumped;
    if ms != [] {
      var m, c' := ms[0], c + Bump(st.prevDelta);
      var one, more := EncodeOne(st, m), EncodeRun(After(st, m), ms[1..]);
      assert EncodeRun(st, ms) + rest == one + (more + rest);
      RecordRoundTrip(st, c, id, m, more + rest);
      assert (one + (more + rest))[|one|..] == more + rest;
      RunRoundTrip(After(st, m), c', id, ms[1..], rest);
    }
  }

  /** The exact delta semantics: the i-th time comes back as itself plus two
      for every earlier bumped step, plus one if step i is bumped. */
  lemma {:induction false} DriftAt(st: State, c: nat, id: Id, ms: seq<Meas>, i: nat)
    requires i < |ms|
    ensures var r := Drifted(st, c, id, ms)[i]; var ds := Deltas(st, ms);
            && r.time == Wrap(ms[i].time + 2 * (c + Bump(st.prevDelta) + Bumps(ds[..i])) + Bump(ds[i]))
            && r == Meas(id, r.time, ms[i].value, ms[i].flag)
    decreases |ms|
  {
    if i > 0 {
      var ds := Deltas(st, ms);
      DriftAt(After(st, ms[0]), c + Bump(st.prevDelta), id, ms[1..], i - 1);
      assert ds[1..][..i - 1] == ds[1..i];
      BumpsCons(ds[..i]);
      assert ds[..i][1..] == ds[1..i];
    }
  }

  lemma {:induction false} BumpsCons(ds: seq<int64>)
    requires ds != []
    ensures Bumps(ds) == Bump(ds[0]) + Bumps(ds[1..])
    decreases |ds|
  {
    if |ds| > 1 {
      BumpsCons(ds[..|ds| - 1]);
      assert ds[..|ds| - 1][1..] == ds[1..][..|ds| - 2];
    }
  }

  lemma WrapTime(t: Time)
    ensures Wrap(t) == t
  {
  }

  lemma WrapNext(t: Time)
    ensures Wrap(t + 1) != t
  {
  }

  /** Decoding is the identity exactly when no step is bumped and every
      measurement carries the chunk's id. */
  lemma {:induction false} DriftIdentity(st: State, id: Id, ms: seq<Meas>)
    requires !Bumped(st.prevDelta)
    ensures Drifted(st, 0, id, ms) == ms <==>
            (forall i | 0 <= i < |ms| :: !Bumped(Deltas(st, ms)[i]) && ms[i].id == id)
    decreases |ms|
  {
    if ms != [] {
      var m, ds, r := ms[0], Deltas(st, ms), Drifted(st, 0, id, ms);
      var tail := Drifted(After(st, m), 0, id, ms[1..]);
      assert forall i | 0 <= i < |ms| - 1 :: ds[i + 1] == Deltas(After(st, m), ms[1..])[i];
      assert r[1..] == tail;
      assert Bumped(ds[0]) ==> r[0].time != m.time by { WrapNext(m.time); }
      hide Wrap;
      if !Bumped(ds[0]) {
        DriftIdentity(After(st, m), id, ms[1..]);
        WrapTime(m.time);
        assert forall i | 0 < i < |ms| :: ms[i] == ms[1..][i - 1] && ds[i] == ds[1..][i - 1];
        assert r == [r[0]] + tail && ms == [m] + ms[1..];
        assert r == ms <==> r[0] == m && tail == ms[1..];
      }
    }
  }
}
