/** The cursor over an array of measurements in memory. A cursor's abstract
    value is `Pending`, the stream it will still yield. */
module ArrayCursors {
  import opened Measurements
  import opened Streams

  /** The earliest and the latest time of an array. */
  function MinTimeOf(s: seq<Meas>): Time {
    if s == [] then MAX_TIME else MinOf(MinTimeOf(s[..|s| - 1]), s[|s| - 1].time)
  }

  function MaxTimeOf(s: seq<Meas>): Time {
    if s == [] then MIN_TIME else MaxOf(MaxTimeOf(s[..|s| - 1]), s[|s| - 1].time)
  }

  class FullCursor {
    const ma: seq<Meas>
    var index: nat
    const minTime: Time
    const maxTime: Time

    ghost predicate Valid()
      reads this
    {
      index <= |ma|
    }

    ghost function Pending(): seq<Meas>
      requires Valid()
      reads this
    {
      Heads(ma[index..])
    }

    constructor (ma: seq<Meas>)
      requires ma != []
      ensures Valid() && this.ma == ma && index == 0 && Pending() == Heads(ma)
      ensures minTime == MinTimeOf(ma) && maxTime == MaxTimeOf(ma)
    {
      this.ma := ma;
      index := 0;
      var lo, hi := MAX_TIME, MIN_TIME;
      for i := 0 to |ma|
        invariant lo == MinTimeOf(ma[..i]) && hi == MaxTimeOf(ma[..i])
      {
        lo := MinOf(lo, ma[i].time);
        hi := MaxOf(hi, ma[i].time);
        assert ma[..i + 1][..i] == ma[..i];
      }
      assert ma[..|ma|] == ma && ma[0..] == ma;
      minTime, maxTime := lo, hi;
    }

    predicate IsEnd()
      reads this
    {
      index >= |ma|
    }

    method Top() returns (m: Meas)
      requires Valid() && !IsEnd()
      ensures Pending() != [] && m == Pending()[0]
    {
      m := ma[index];
    }

    method ReadNext() returns (m: Meas)
      requires Valid() && !IsEnd()
      modifies this`index
      ensures Valid() && old(index) < index
      ensures old(Pending()) == [m] + Pending()
    {
      m := ma[index];
      index := index + 1;
      assert ma[old(index)..][1..] == ma[index..];
      while !IsEnd()
        invariant Valid() && old(index) < index
        invariant SkipRun(ma[index..], m.time) == SkipRun(ma[old(index) + 1..], m.time)
        decreases |ma| - index
      {
        var next := ma[index];
        if next.time != m.time {
          break;
        }
        assert ma[index..][1..] == ma[index + 1..];
        index := index + 1;
      }
      assert SkipRun(ma[index..], m.time) == ma[index..];
    }

    lemma EndIsEmpty()
      requires Valid()
      ensures IsEnd() <==> Pending() == []
    {
    }
  }
}
