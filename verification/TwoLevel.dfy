/** Reading an interval from two levels of storage: the top level and the
    pages beneath it. */
module TwoLevel {
  import opened Measurements
  import opened Bits
  import opened Streams
  import opened Grouping
  import opened Blocks
  import opened Cursors
  import opened Collapse

  datatype Query = Query(ids: seq<Id>, flag: Flag, from: Time, to: Time)

  predicate InQuery(m: Meas, q: Query) {
    AndBits(q.flag, m.flag) == q.flag && (q.ids == [] || m.id in q.ids) && q.from <= m.time <= q.to
  }

  function Filtered(s: seq<Meas>, q: Query): seq<Meas> {
    if s == [] then [] else (if InQuery(s[0], q) then [s[0]] else []) + Filtered(s[1..], q)
  }

  lemma {:induction false} FilteredFrom(s: seq<Meas>, q: Query)
    ensures forall m | m in Filtered(s, q) :: m in s
  {
    hide InQuery;
    if s != [] {
      FilteredFrom(s[1..], q);
    }
  }

  lemma {:induction false} FilteredSorted(s: seq<Meas>, q: Query)
    requires Nondecreasing(s)
    ensures Nondecreasing(Filtered(s, q)) && (Increasing(s) ==> Increasing(Filtered(s, q)))
  {
    hide InQuery;
    if s != [] {
      var rest, f := s[1..], Filtered(s[1..], q);
      assert Nondecreasing(rest) && (Increasing(s) ==> Increasing(rest));
      FilteredSorted(rest, q);
      FilteredFrom(rest, q);
      assert forall i | 0 <= i < |f| :: f[i] in rest;
      hide Filtered;
      ConsSorted(s, f);
    }
  }

  lemma ConsSorted(s: seq<Meas>, f: seq<Meas>)
    requires s != [] && Nondecreasing(s) && Nondecreasing(f) && forall i | 0 <= i < |f| :: f[i] in s[1..]
    ensures Nondecreasing([s[0]] + f) && (Increasing(s) && Increasing(f) ==> Increasing([s[0]] + f))
  {
  }

  /** Filtering drops, at every time, exactly what is not asked for. */
  lemma {:induction false} FilteredAt(s: seq<Meas>, q: Query, t: Time)
    ensures At(Filtered(s, q), t) == Filtered(At(s, t), q)
  {
    hide InQuery;
    if s != [] {
      FilteredAt(s[1..], q, t);
      AtConcat(if InQuery(s[0], q) then [s[0]] else [], Filtered(s[1..], q), t);
      if s[0].time == t {
        assert At(s, t)[1..] == At(s[1..], t);
      }
    }
  }

  // ---------------------------------------------------------------- one cursor

  /** Drains a cursor into the result, keeping what the query asks for. */
  method Drain(c: Cursor, q: Query, result: seq<Meas>) returns (out: seq<Meas>)
    requires c.Valid()
    modifies c.Repr()
    ensures c.Valid() && c.Pending() == [] && out == result + Filtered(old(c.Pending()), q)
  {
    hide Cursor.Valid, Cursor.Pending, InQuery;
    out := result;
    var more := true;
    while more
      invariant c.Valid() && out + Filtered(c.Pending(), q) == result + Filtered(old(c.Pending()), q)
      invariant !more ==> c.Pending() == []
      decreases more, |c.Pending()|
    {
      ghost var rest := c.Pending();
      var v;
      more, v := Next(c);
      if more {
        assert rest[1..] == c.Pending();
        if InQuery(v, q) {
          out := out + [v];
        }
      }
    }
  }

  /** Takes the next measurement if there is one. */
  method Next(c: Cursor) returns (more: bool, v: Meas)
    requires c.Valid()
    modifies c.Repr()
    ensures c.Valid() && more == (old(c.Pending()) != [])
    ensures if more then old(c.Pending()) == [v] + c.Pending() else c.Pending() == []
  {
    hide Heads, MergeAll, Concat, Mergeable, AllHold, Family, Ranged;
    var ended := c.IsEnd();
    if ended {
      return false, NO_MEAS;
    }
    v := c.ReadNext();
    return true, v;
  }

  // -------------------------------------------------------------- both levels

  /** The cursors the top level and the pages hand out for each id, and what
      they will yield. */
  datatype Levels = Levels(tm: map<Id, Cursor>, pm: map<Id, Cursor>, ts: map<Id, seq<Meas>>, ps: map<Id, seq<Meas>>)

  predicate Known(lv: Levels, id: Id) {
    id in lv.tm || id in lv.pm
  }

  /** A stream that can be read through the cursor. */
  ghost predicate Fits(c: Cursor, s: seq<Meas>) {
    s != [] && Readable(s) && Within(s, c.Extent())
  }

  ghost predicate Streamed(lv: Levels) {
    && (forall id | id in lv.tm :: id in lv.ts && Fits(lv.tm[id], lv.ts[id]))
    && (forall id | id in lv.pm :: id in lv.ps && Fits(lv.pm[id], lv.ps[id]))
  }

  lemma PairMergeable(s: seq<Meas>, t: seq<Meas>)
    requires Readable(s) && Readable(t)
    ensures Mergeable([s, t])
  {
  }

  /** Two cursors collapsed: merged where they overlap, else the earlier one
      first. */
  ghost function Pair(a: Range, b: Range, s: seq<Meas>, t: seq<Meas>): seq<Meas>
    requires Readable(s) && Readable(t)
  {
    PairMergeable(s, t);
    if Intersects(a, b) then MergeAll([s, t]) else if a.hi < b.lo then s + t else t + s
  }

  /** What is read for an id: its only level, or the two collapsed. */
  ghost function Stored(lv: Levels, id: Id): seq<Meas>
    requires Streamed(lv)
  {
    if id in lv.tm && id in lv.pm then Pair(lv.tm[id].Extent(), lv.pm[id].Extent(), lv.ts[id], lv.ps[id])
    else if id in lv.tm then lv.ts[id]
    else if id in lv.pm then lv.ps[id]
    else []
  }

  /** The answer to the first n ids of a query: each id once, in query order. */
  ghost function Answer(lv: Levels, q: Query, n: nat): seq<Meas>
    requires Streamed(lv) && n <= |q.ids|
  {
    if n == 0 then []
    else Answer(lv, q, n - 1) + if q.ids[n - 1] in q.ids[..n - 1] then [] else Filtered(Stored(lv, q.ids[n - 1]), q)
  }

  /** The collapsed stream of two cursors, case by case. */
  lemma PairCollapse(out: seq<Meas>, a: Range, b: Range, s: seq<Meas>, t: seq<Meas>)
    requires Readable(s) && Readable(t) && s != [] && t != [] && Within(s, a) && Within(t, b)
    requires IsCollapseOf(out, [a, b], [s, t])
    ensures out == Pair(a, b, s, t)
  {
    PairMergeable(s, t);
    assert AllWithin([a, b], [s, t]);
    if Intersects(a, b) {
      assert Edge([a, b], 0, 1) && Edge([a, b], 1, 0);
      assert LoneIncreasing([a, b], [s, t]);
      hide *;
      CollapseIsMerge(out, [a, b], [s, t]);
    } else {
      assert a.lo <= s[0].time <= a.hi && b.lo <= t[0].time <= b.hi;
      assert Alone([a, b], 0) && Alone([a, b], 1);
      PairInTurn(out, a, b, s, t);
    }
  }

  lemma PairInTurn(out: seq<Meas>, a: Range, b: Range, s: seq<Meas>, t: seq<Meas>)
    requires Readable(s) && Readable(t) && Within(s, a) && Within(t, b) && (a.hi < b.lo || b.hi < a.lo)
    requires Alone([a, b], 0) && Alone([a, b], 1) && IsCollapseOf(out, [a, b], [s, t])
    ensures out == if a.hi < b.lo then s + t else t + s
  {
    var both := if a.hi < b.lo then s + t else t + s;
    assert Nondecreasing(both);
    forall u: Time
      ensures At(out, u) == At(both, u)
    {
      assert At(out, u) == CollapsedAt([a, b], [s, t], u);
      AtConcat(s, t, u);
      AtConcat(t, s, u);
      OneHas(s, t, a, b, u);
      FirstOfTwo(s, t, u);
      hide At, FirstIndex, Alone;
    }
    hide At;
    SameAt(out, both);
  }

  lemma OneHas(s: seq<Meas>, t: seq<Meas>, a: Range, b: Range, u: Time)
    requires Within(s, a) && Within(t, b) && (a.hi < b.lo || b.hi < a.lo)
    ensures At(s, u) == [] || At(t, u) == []
  {
    hide At;
  }

  lemma FirstOfTwo(s: seq<Meas>, t: seq<Meas>, u: Time)
    ensures FirstIndex([s, t], u) == if At(s, u) != [] then 0 else if At(t, u) != [] then 1 else 2
  {
    hide At;
    assert [s, t][1..] == [t] && [t][1..] == [];
  }

  /** At equal times the top level shadows the page. What is read is sorted, and
      holds each time once exactly if the levels overlap or neither repeats a
      time itself. */
  lemma TopShadows(lv: Levels, id: Id, t: Time)
    requires Streamed(lv) && Known(lv, id)
    ensures Nondecreasing(Stored(lv, id))
    ensures Lookup(Stored(lv, id), t) ==
              if id in lv.tm && Lookup(lv.ts[id], t).Some? then Lookup(lv.ts[id], t)
              else if id in lv.pm then Lookup(lv.ps[id], t)
              else None
    ensures Increasing(Stored(lv, id)) <==>
              || (id in lv.tm && id in lv.pm && Intersects(lv.tm[id].Extent(), lv.pm[id].Extent()))
              || ((id in lv.tm ==> Increasing(lv.ts[id])) && (id in lv.pm ==> Increasing(lv.ps[id])))
  {
    if id in lv.tm && id in lv.pm {
      PairShadows(lv.tm[id].Extent(), lv.pm[id].Extent(), lv.ts[id], lv.ps[id], t);
    }
  }

  lemma PairShadows(a: Range, b: Range, s: seq<Meas>, t: seq<Meas>, u: Time)
    requires Readable(s) && Readable(t) && s != [] && t != [] && Within(s, a) && Within(t, b)
    ensures var out := Pair(a, b, s, t);
            && Nondecreasing(out) && (Increasing(out) <==> Intersects(a, b) || (Increasing(s) && Increasing(t)))
            && Lookup(out, u) == if Lookup(s, u).Some? then Lookup(s, u) else Lookup(t, u)
  {
    PairMergeable(s, t);
    if Intersects(a, b) {
      MergeAllCorrect([s, t]);
      hide MergeAll;
      var out := MergeAll([s, t]);
      assert Lookup(out, u) == FirstOf([s, t], u);
      assert [s, t][1..] == [t] && FirstOf([t][1..], u) == None;
    } else {
      assert a.lo <= s[0].time <= a.hi && b.lo <= t[0].time <= b.hi;
      LookupConcat(s, t, u);
      LookupConcat(t, s, u);
      OneHas(s, t, a, b, u);
      hide Lookup, At;
      if a.hi < b.lo {
        JoinIncreasing(s, t);
      } else {
        JoinIncreasing(t, s);
      }
    }
  }

  lemma JoinIncreasing(s: seq<Meas>, t: seq<Meas>)
    requires Nondecreasing(s) && Nondecreasing(t) && forall i, j | 0 <= i < |s| && 0 <= j < |t| :: s[i].time < t[j].time
    ensures Nondecreasing(s + t) && (Increasing(s + t) <==> Increasing(s) && Increasing(t))
  {
    if Increasing(s + t) {
      assert forall i | 0 <= i < |s| :: (s + t)[i] == s[i];
      assert forall i | 0 <= i < |t| :: (s + t)[|s| + i] == t[i];
    }
  }

  /** What the answer holds for one id: in sorted order, at each time what the
      query asks for of what is read there. */
  lemma IdAnswer(lv: Levels, q: Query, id: Id, t: Time)
    requires Streamed(lv) && Known(lv, id)
    ensures var part := Filtered(Stored(lv, id), q);
            && Nondecreasing(part) && At(part, t) == Filtered(At(Stored(lv, id), t), q)
            && (Increasing(Stored(lv, id)) ==> Increasing(part))
  {
    hide Stored, Streamed, At, Filtered, Nondecreasing, Increasing;
    TopShadows(lv, id, t);
    FilteredSorted(Stored(lv, id), q);
    FilteredAt(Stored(lv, id), q, t);
  }

  // ------------------------------------------------------------- reading them

  /** The objects of an id's cursors. */
  ghost function Given(lv: Levels, id: Id): set<object> {
    (if id in lv.tm then lv.tm[id].Repr() else {}) + (if id in lv.pm then lv.pm[id].Repr() else {})
  }

  /** No two cursors share an object. */
  ghost predicate Parted(lv: Levels, given: set<object>, shared: set<object>) {
    && given !! shared
    && (forall id | Known(lv, id) :: Given(lv, id) <= given)
    && (forall a, b | Known(lv, a) && Known(lv, b) && a != b :: Given(lv, a) !! Given(lv, b))
    && (forall id | id in lv.tm && id in lv.pm :: lv.tm[id].Repr() !! lv.pm[id].Repr())
  }

  /** The cursor is sound, nobody has read from it, and it will yield s. */
  ghost predicate Sound(c: Cursor, s: seq<Meas>, given: set<object>, shared: set<object>, height: nat)
    reads given, shared
  {
    c.Repr() <= given && c.Shared() <= shared && c.Height() < height && Holds(c, s) && Whole(c) && Straight(c)
  }

  ghost predicate SoundId(lv: Levels, id: Id, given: set<object>, shared: set<object>, height: nat)
    requires Streamed(lv)
    reads given, shared
  {
    && (id in lv.tm ==> Sound(lv.tm[id], lv.ts[id], given, shared, height))
    && (id in lv.pm ==> Sound(lv.pm[id], lv.ps[id], given, shared, height))
  }

  ghost predicate Sources(lv: Levels, given: set<object>, shared: set<object>, height: nat)
    reads given, shared
  {
    && Streamed(lv) && Parted(lv, given, shared)
    && forall id | Known(lv, id) :: SoundId(lv, id, given, shared, height)
  }

  lemma PairReady(c: Cursor, d: Cursor, s: seq<Meas>, t: seq<Meas>, given: set<object>, shared: set<object>,
                  height: nat)
    requires Sound(c, s, given, shared, height) && Sound(d, t, given, shared, height) && Fits(c, s) && Fits(d, t)
    requires c.Repr() !! d.Repr() && given !! shared
    ensures Ready([c, d], [s, t], c.Repr() + d.Repr(), shared, height) && Whole(c) && Whole(d)
    ensures Mergeable([s, t]) && Fit([c, d], [s, t], c.Repr() + d.Repr())
  {
    hide Holds, Readable, Within, Whole, Straight;
  }

  lemma LinearHolds(l: LinearCursor)
    requires l.Valid()
    ensures Holds(Linear(l), l.pending)
    ensures Linear(l).Repr() == {l} + l.repr && Linear(l).Shared() == l.shared
  {
  }

  /** A level's cursor on its own, or two of them collapsed. */
  method CollapseId(tm: map<Id, Cursor>, pm: map<Id, Cursor>, id: Id, ghost lv: Levels,
                    ghost given: set<object>, ghost shared: set<object>, ghost height: nat)
    returns (c: Cursor)
    requires lv.tm == tm && lv.pm == pm
    requires Streamed(lv) && Parted(lv, given, shared) && Known(lv, id) && SoundId(lv, id, given, shared, height)
    modifies Given(lv, id)
    ensures Holds(c, Stored(lv, id)) && c.Shared() <= shared && fresh(c.Repr() - Given(lv, id))
  {
    hide Holds, Readable, Within, Whole, Straight, IsCollapseOf, MergeAll, Pair;
    if id in tm && id in pm {
      var inputs := [tm[id], pm[id]];
      ghost var ss := [lv.ts[id], lv.ps[id]];
      PairReady(inputs[0], inputs[1], ss[0], ss[1], given, shared, height);
      PairIsOrdered(ExtentsOf(inputs));
      OrderedOnce(ExtentsOf(inputs));
      assert ExtentsOf(inputs) == [inputs[0].Extent(), inputs[1].Extent()];
      hide *;
      var lin := CollapseCursors(inputs, ss, Given(lv, id), shared, height);
      c := Linear(lin);
      LinearHolds(lin);
      PairCollapse(lin.pending, inputs[0].Extent(), inputs[1].Extent(), ss[0], ss[1]);
    } else if id in tm {
      c := tm[id];
    } else {
      c := pm[id];
    }
  }

  /** Cursors that share no object, each sound and with its stream ahead. */
  ghost predicate AllReady(r: map<Id, Cursor>, wants: map<Id, seq<Meas>>, all: set<object>, shared: set<object>)
    reads all, shared
  {
    && all !! shared
    && (forall id | id in r ::
          id in wants && r[id].Repr() <= all && r[id].Shared() <= shared && Holds(r[id], wants[id]))
    && (forall a, b | a in r && b in r && a != b :: r[a].Repr() !! r[b].Repr())
  }

  /** Part way: the ids in r have their cursors, those in keys are to come. */
  ghost predicate Covers(lv: Levels, r: map<Id, Cursor>, wants: map<Id, seq<Meas>>, keys: set<Id>, all: set<object>) {
    && Streamed(lv)
    && (forall id :: Known(lv, id) <==> id in r || id in keys)
    && (forall id | id in keys :: id !in r && Given(lv, id) !! all)
    && (forall id | id in r :: id in wants && wants[id] == Stored(lv, id))
  }

  lemma NoneReady(lv: Levels, given: set<object>, shared: set<object>, height: nat)
    requires Sources(lv, given, shared, height)
    ensures Streamed(lv) && Parted(lv, given, shared)
    ensures forall id | id in lv.tm.Keys + lv.pm.Keys :: Known(lv, id) && SoundId(lv, id, given, shared, height)
    ensures AllReady(map[], map[], {}, shared) && Covers(lv, map[], map[], lv.tm.Keys + lv.pm.Keys, {})
  {
    hide Streamed, Given, SoundId;
  }

  lemma CoverStep(lv: Levels, given: set<object>, shared: set<object>, r: map<Id, Cursor>, wants: map<Id, seq<Meas>>,
                  keys: set<Id>, all: set<object>, id: Id, c: Cursor)
    requires Parted(lv, given, shared) && Covers(lv, r, wants, keys, all) && id in keys
    requires (c.Repr() - Given(lv, id)) !! given
    ensures Covers(lv, r[id := c], wants[id := Stored(lv, id)], keys - {id}, all + c.Repr())
  {
    hide Streamed, Stored, Given;
    forall x | x in keys - {id}
      ensures Given(lv, x) !! all + c.Repr()
    {
      assert Known(lv, x) && Known(lv, id);
      assert Given(lv, x) <= given && Given(lv, x) !! Given(lv, id);
    }
  }

  lemma AddReady(r: map<Id, Cursor>, wants: map<Id, seq<Meas>>, all: set<object>, shared: set<object>,
                 id: Id, c: Cursor, s: seq<Meas>)
    requires AllReady(r, wants, all, shared) && id !in r && Holds(c, s)
    requires c.Repr() !! all && c.Repr() !! shared && c.Shared() <= shared
    ensures AllReady(r[id := c], wants[id := s], all + c.Repr(), shared)
  {
    hide Holds;
  }

  lemma GivenWithin(lv: Levels, id: Id, given: set<object>, shared: set<object>)
    requires Parted(lv, given, shared) && Known(lv, id)
    ensures Given(lv, id) <= given
  {
    hide Given;
  }

  lemma CoverHas(lv: Levels, given: set<object>, shared: set<object>, r: map<Id, Cursor>, wants: map<Id, seq<Meas>>,
                 keys: set<Id>, all: set<object>, id: Id)
    requires Parted(lv, given, shared) && Covers(lv, r, wants, keys, all) && id in keys
    ensures Known(lv, id) && id !in r && Given(lv, id) !! all && Given(lv, id) <= given && given !! shared
    ensures forall x | x in keys && x != id :: Known(lv, x) && Given(lv, x) !! Given(lv, id)
  {
    hide Streamed, Given, Stored;
  }

  /** The cursors of all ids that some level knows. */
  method InternalReaders(tm: map<Id, Cursor>, pm: map<Id, Cursor>, ghost lv: Levels,
                         ghost given: set<object>, ghost shared: set<object>, ghost height: nat)
    returns (r: map<Id, Cursor>, ghost wants: map<Id, seq<Meas>>, ghost all: set<object>)
    requires lv.tm == tm && lv.pm == pm && Sources(lv, given, shared, height)
    modifies given
    ensures AllReady(r, wants, all, shared) && fresh(all - given) && Covers(lv, r, wants, {}, all)
  {
    hide *;
    r, wants, all := map[], map[], {};
    var keys := tm.Keys + pm.Keys;
    NoneReady(lv, given, shared, height);
    ghost var made: set<object> := {};
    while keys != {}
      invariant AllReady(r, wants, all, shared) && fresh(made) && all <= given + made && Covers(lv, r, wants, keys, all)
      invariant forall id | id in keys :: Known(lv, id) && SoundId(lv, id, given, shared, height)
      decreases |keys|
    {
      var id :| id in keys;
      GivenWithin(lv, id, given, shared);
      label Before:
      var c := CollapseNext(tm, pm, id, r, keys, lv, wants, all, given, shared, height);
      ghost var created := c.Repr() - Given(lv, id);
      assert fresh@Before(created);
      assert fresh(created);
      r, wants, all, made := r[id := c], wants[id := Stored(lv, id)], all + c.Repr(), made + created;
      keys := keys - {id};
    }
  }

  /** The cursor of the next id, which leaves all the others as they were. */
  method CollapseNext(tm: map<Id, Cursor>, pm: map<Id, Cursor>, id: Id, ghost r: map<Id, Cursor>, ghost keys: set<Id>,
                      ghost lv: Levels, ghost wants: map<Id, seq<Meas>>, ghost all: set<object>,
                      ghost given: set<object>, ghost shared: set<object>, ghost height: nat)
    returns (c: Cursor)
    requires lv.tm == tm && lv.pm == pm && Parted(lv, given, shared) && id in keys
    requires AllReady(r, wants, all, shared) && Covers(lv, r, wants, keys, all)
    requires Streamed(lv) && forall x | x in keys :: Known(lv, x) && SoundId(lv, x, given, shared, height)
    modifies Given(lv, id)
    ensures AllReady(r[id := c], wants[id := Stored(lv, id)], all + c.Repr(), shared)
    ensures Covers(lv, r[id := c], wants[id := Stored(lv, id)], keys - {id}, all + c.Repr())
    ensures fresh(c.Repr() - Given(lv, id)) && Given(lv, id) <= given
    ensures forall x | x in keys - {id} :: SoundId(lv, x, given, shared, height)
  {
    hide *;
    CoverHas(lv, given, shared, r, wants, keys, all, id);
    c := CollapseApart(tm, pm, id, keys, lv, given, shared, height);
    CoverStep(lv, given, shared, r, wants, keys, all, id, c);
    AddReady(r, wants, all, shared, id, c, Stored(lv, id));
  }

  /** Collapsing one id leaves the cursors of the others as they were. */
  method CollapseApart(tm: map<Id, Cursor>, pm: map<Id, Cursor>, id: Id, ghost keys: set<Id>, ghost lv: Levels,
                      ghost given: set<object>, ghost shared: set<object>, ghost height: nat)
    returns (c: Cursor)
    requires lv.tm == tm && lv.pm == pm && Streamed(lv) && Parted(lv, given, shared) && Known(lv, id)
    requires id in keys && forall x | x in keys :: Known(lv, x) && SoundId(lv, x, given, shared, height)
    modifies Given(lv, id)
    ensures Holds(c, Stored(lv, id)) && c.Shared() <= shared && fresh(c.Repr() - Given(lv, id))
    ensures forall x | x in keys && x != id :: SoundId(lv, x, given, shared, height)
  {
    hide Holds, Whole, Straight, Stored, Fits;
    c := CollapseId(tm, pm, id, lv, given, shared, height);
    forall x | x in keys && x != id
      ensures SoundId(lv, x, given, shared, height)
    {
      assert Given(lv, x) !! Given(lv, id);
      if x in tm {
        assert old(Sound(tm[x], lv.ts[x], given, shared, height));
        assert old(Holds(tm[x], lv.ts[x]) && Whole(tm[x]));
      }
      if x in pm {
        assert old(Sound(pm[x], lv.ps[x], given, shared, height));
        assert old(Holds(pm[x], lv.ps[x]) && Whole(pm[x]));
      }
    }
  }

  /** Streams still ahead once the first n ids of the query are served. */
  ghost predicate Served(lv: Levels, q: Query, n: nat, r: map<Id, Cursor>, wants: map<Id, seq<Meas>>) {
    && Streamed(lv) && n <= |q.ids|
    && (forall id :: Known(lv, id) <==> id in r)
    && (forall id | id in r :: id in wants && wants[id] == if id in q.ids[..n] then [] else Stored(lv, id))
  }

  lemma ServeStep(lv: Levels, q: Query, n: nat, r: map<Id, Cursor>, wants: map<Id, seq<Meas>>)
    requires Served(lv, q, n, r, wants) && n < |q.ids|
    ensures var id := q.ids[n];
            if id in r then
              && Served(lv, q, n + 1, r, wants[id := []])
              && Answer(lv, q, n + 1) == Answer(lv, q, n) + Filtered(wants[id], q)
            else
              Served(lv, q, n + 1, r, wants) && Answer(lv, q, n + 1) == Answer(lv, q, n)
  {
    hide Streamed, Stored, Answer, Filtered;
    var id := q.ids[n];
    AnswerStep(lv, q, n);
    assert q.ids[..n + 1] == q.ids[..n] + [id];
    if id !in r {
      NotStored(lv, id);
    }
  }

  lemma AnswerStep(lv: Levels, q: Query, n: nat)
    requires Streamed(lv) && n < |q.ids|
    ensures Answer(lv, q, n + 1)
         == Answer(lv, q, n) + if q.ids[n] in q.ids[..n] then [] else Filtered(Stored(lv, q.ids[n]), q)
    ensures Filtered([], q) == []
  {
    hide Streamed, Stored, InQuery;
  }

  lemma NotStored(lv: Levels, id: Id)
    requires Streamed(lv) && !Known(lv, id)
    ensures Stored(lv, id) == []
  {
  }

  lemma NoneServed(lv: Levels, q: Query, r: map<Id, Cursor>, wants: map<Id, seq<Meas>>, all: set<object>)
    requires Covers(lv, r, wants, {}, all)
    ensures Served(lv, q, 0, r, wants) && Answer(lv, q, 0) == []
  {
    hide Streamed, Stored, Known;
  }

  /** Draining one id's cursor leaves the others as they were. */
  method DrainOf(r: map<Id, Cursor>, id: Id, q: Query, result: seq<Meas>,
                 ghost wants: map<Id, seq<Meas>>, ghost all: set<object>, ghost shared: set<object>)
    returns (out: seq<Meas>)
    requires id in r && AllReady(r, wants, all, shared)
    modifies all
    ensures AllReady(r, wants[id := []], all, shared) && out == result + Filtered(wants[id], q)
  {
    hide Filtered, Cursor.Valid, Cursor.Pending;
    out := Drain(r[id], q, result);
    hide Holds;
    forall x | x in r && x != id
      ensures Holds(r[x], wants[x])
    {
      assert old(Holds(r[x], wants[x]));
    }
  }

  /** The whole read: per distinct id in query order, the query's part of what
      is read for the id. */
  method ReadInterval(q: Query, tm: map<Id, Cursor>, pm: map<Id, Cursor>, ghost lv: Levels,
                      ghost given: set<object>, ghost shared: set<object>, ghost height: nat)
    returns (result: seq<Meas>)
    requires lv.tm == tm && lv.pm == pm && Sources(lv, given, shared, height)
    modifies given
    ensures result == Answer(lv, q, |q.ids|)
  {
    hide Streamed, Stored, AllReady, Given, Covers, Served, Filtered, Answer, Parted, SoundId;
    var r;
    ghost var wants, all;
    r, wants, all := InternalReaders(tm, pm, lv, given, shared, height);
    result := [];
    NoneServed(lv, q, r, wants, all);
    for i := 0 to |q.ids|
      invariant AllReady(r, wants, all, shared) && fresh(all - given)
      invariant Served(lv, q, i, r, wants) && result == Answer(lv, q, i)
    {
      var id := q.ids[i];
      ServeStep(lv, q, i, r, wants);
      if id in r {
        result := DrainOf(r, id, q, result, wants, all, shared);
        wants := wants[id := []];
      }
    }
  }
}
