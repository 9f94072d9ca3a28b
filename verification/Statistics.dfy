/** The running statistic of a set of measurements. */
module Statistics {
  import opened Measurements
  import opened Bits

  /** What the statistic depends on besides the measurements: the number a bit
      pattern stands for, the hash of a flag, and the two extreme doubles. */
  datatype Numerics = Numerics(number: Value -> real, hash: Flag -> nat, largest: real, smallest: real)

  datatype Stat = Stat(minTime: Time, maxTime: Time, count: nat, bloom: nat,
                       minValue: real, maxValue: real, sum: real)

  function MinReal(a: real, b: real): real { if b < a then b else a }
  function MaxReal(a: real, b: real): real { if a < b then b else a }

  function Empty(env: Numerics): Stat {
    Stat(MAX_TIME, MIN_TIME, 0, 0, env.largest, env.smallest, 0.0)
  }

  /** Two statistics taken together. */
  function Combine(a: Stat, b: Stat): Stat {
    Stat(MinOf(b.minTime, a.minTime), MaxOf(b.maxTime, a.maxTime), a.count + b.count,
         OrBits(a.bloom, b.bloom), MinReal(b.minValue, a.minValue), MaxReal(b.maxValue, a.maxValue), a.sum + b.sum)
  }

  /** The statistic of one measurement. */
  function Single(env: Numerics, m: Meas): Stat {
    Stat(m.time, m.time, 1, env.hash(m.flag), env.number(m.value), env.number(m.value), env.number(m.value))
  }

  /** The fold of the measurements, last one on top. */
  function StatOf(env: Numerics, ms: seq<Meas>): Stat {
    if ms == [] then Empty(env) else Combine(StatOf(env, ms[..|ms| - 1]), Single(env, ms[|ms| - 1]))
  }

  lemma CombineCommutes(a: Stat, b: Stat, c: Stat)
    ensures Combine(Combine(a, b), c) == Combine(Combine(a, c), b)
  {
    OrAssociates(a.bloom, b.bloom, c.bloom);
    OrAssociates(a.bloom, c.bloom, b.bloom);
    OrCommutes(b.bloom, c.bloom);
    hide OrBits;
  }

  lemma CombineAssociates(a: Stat, b: Stat, c: Stat)
    ensures Combine(Combine(a, b), c) == Combine(a, Combine(b, c))
  {
    OrAssociates(a.bloom, b.bloom, c.bloom);
    hide OrBits;
  }

  /** Starting values that no measurement can beat the wrong way round. */
  lemma {:induction false} EmptyIsNeutral(env: Numerics, ms: seq<Meas>)
    ensures Combine(Empty(env), StatOf(env, ms)) == StatOf(env, ms)
  {
    if ms == [] {
      OrZero(0);
    } else {
      var n := |ms| - 1;
      EmptyIsNeutral(env, ms[..n]);
      CombineAssociates(Empty(env), StatOf(env, ms[..n]), Single(env, ms[n]));
    }
  }

  /** update(Statistic) on any split equals the fold of the whole. */
  lemma {:induction false} SplitStat(env: Numerics, a: seq<Meas>, b: seq<Meas>)
    ensures Combine(StatOf(env, a), StatOf(env, b)) == StatOf(env, a + b)
    decreases |b|
  {
    if b == [] {
      assert a + b == a;
      NeutralRight(env, a);
    } else {
      var n := |b| - 1;
      SplitStat(env, a, b[..n]);
      assert (a + b)[..|a + b| - 1] == a + b[..n];
      CombineAssociates(StatOf(env, a), StatOf(env, b[..n]), Single(env, b[n]));
    }
  }

  lemma {:induction false} NeutralRight(env: Numerics, ms: seq<Meas>)
    ensures Combine(StatOf(env, ms), Empty(env)) == StatOf(env, ms)
  {
    if ms == [] {
      OrZero(0);
    } else {
      var n := |ms| - 1;
      NeutralRight(env, ms[..n]);
      CombineCommutes(StatOf(env, ms[..n]), Single(env, ms[n]), Empty(env));
    }
  }

  /** Moving one measurement to the end does not change the fold. */
  lemma {:induction false} MoveToEnd(env: Numerics, ms: seq<Meas>, i: nat)
    requires i < |ms|
    ensures StatOf(env, ms) == Combine(StatOf(env, ms[..i] + ms[i + 1..]), Single(env, ms[i]))
    decreases |ms|
  {
    hide Combine, Single;
    var n := |ms| - 1;
    if i < n {
      MoveToEnd(env, ms[..n], i);
      var rest := ms[..i] + ms[i + 1..];
      assert ms[..n][..i] + ms[..n][i + 1..] == rest[..n - 1];
      CombineCommutes(StatOf(env, rest[..n - 1]), Single(env, ms[i]), Single(env, ms[n]));
    } else {
      assert ms[..i] + ms[i + 1..] == ms[..n];
    }
  }

  /** The fold only depends on which measurements there are, not on their order. */
  lemma {:induction false} StatOfPermutation(env: Numerics, a: seq<Meas>, b: seq<Meas>)
    requires multiset(a) == multiset(b)
    ensures StatOf(env, a) == StatOf(env, b)
    decreases |a|
  {
    if a == [] {
      assert |multiset(b)| == 0;
    } else {
      var n, m := |a| - 1, a[|a| - 1];
      assert a == a[..n] + [m];
      assert m in multiset(b);
      var i :| 0 <= i < |b| && b[i] == m;
      var rest := b[..i] + b[i + 1..];
      assert b == b[..i] + [m] + b[i + 1..];
      assert multiset(rest) == multiset(b) - multiset{m} == multiset(a[..n]);
      StatOfPermutation(env, a[..n], rest);
      MoveToEnd(env, b, i);
    }
  }

  lemma {:induction false} StatCount(env: Numerics, ms: seq<Meas>)
    ensures StatOf(env, ms).count == |ms|
  {
    if ms != [] { StatCount(env, ms[..|ms| - 1]); }
  }

  /** Counting the same measurements twice doubles the count and the sum and
      changes nothing else. */
  lemma DoubledStat(env: Numerics, ms: seq<Meas>)
    ensures var st := StatOf(env, ms); StatOf(env, ms + ms) == st.(count := 2 * |ms|, sum := 2.0 * st.sum)
    ensures StatOf(env, ms + ms) == StatOf(env, ms) <==> ms == []
  {
    var st := StatOf(env, ms);
    SplitStat(env, ms, ms);
    StatCount(env, ms);
    OrSelf(st.bloom);
    hide StatOf, OrBits;
    if ms == [] { assert ms + ms == ms; }
  }

  // ------------------------------------------------------------- the object

  class Statistic {
    const env: Numerics
    var minTime: Time
    var maxTime: Time
    var count: nat
    var bloom: nat
    var minValue: real
    var maxValue: real
    var sum: real

    function Current(): Stat
      reads this
    {
      Stat(minTime, maxTime, count, bloom, minValue, maxValue, sum)
    }

    constructor (env: Numerics)
      ensures this.env == env && Current() == Empty(env)
    {
      this.env := env;
      bloom, count, minTime, maxTime := 0, 0, MAX_TIME, MIN_TIME;
      minValue, maxValue, sum := env.largest, env.smallest, 0.0;
    }

    method Update(m: Meas)
      modifies this
      ensures Current() == Combine(old(Current()), Single(env, m))
    {
      count := count + 1;
      minTime := MinOf(m.time, minTime);
      maxTime := MaxOf(m.time, maxTime);
      bloom := OrBits(bloom, env.hash(m.flag));
      var v := env.number(m.value);
      minValue := MinReal(v, minValue);
      maxValue := MaxReal(v, maxValue);
      sum := sum + v;
    }

    /** Adding the statistic of some measurements counts each of them. */
    method UpdateWith(st: Stat)
      modifies this
      ensures Current() == Combine(old(Current()), st)
      ensures forall a, b | old(Current()) == StatOf(env, a) && st == StatOf(env, b) :: Current() == StatOf(env, a + b)
    {
      count := count + st.count;
      minTime := MinOf(st.minTime, minTime);
      maxTime := MaxOf(st.maxTime, maxTime);
      bloom := OrBits(bloom, st.bloom);
      minValue := MinReal(st.minValue, minValue);
      maxValue := MaxReal(st.maxValue, maxValue);
      sum := sum + st.sum;
      hide StatOf, OrBits;
      forall a, b | old(Current()) == StatOf(env, a) && st == StatOf(env, b)
        ensures Current() == StatOf(env, a + b)
      {
        SplitStat(env, a, b);
      }
    }
  }
}
