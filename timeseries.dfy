/** The activity stores of the brain model: per fish, a map from timestamp to
    value. Neurons and brains overwrite a value (Put); regions add it to a
    running sum and count how many values were added for the fish (Accumulate). */
module TimeSeries {
  import opened Text

  type Series = map<int, real>

  /** fish name -> timestamp -> value */
  type Store = map<string, Series>

  function Lookup(st: Store, f: string, t: int): Option<real> {
    if f in st && t in st[f] then Some(st[f][t]) else None
  }

  /** GetValueOrDefault(t, 0) on the fish's series, 0 when the fish is absent. */
  function ValueOr0(st: Store, f: string, t: int): real {
    if f in st && t in st[f] then st[f][t] else 0.0
  }

  /** The fish's series, or an empty one. */
  function SeriesOf(st: Store, f: string): Series {
    if f in st then st[f] else map[]
  }

  predicate AllSeriesNonEmpty(st: Store) {
    forall f :: f in st ==> st[f] != map[]
  }

  /** A neuron's and a brain's AddActivity: create the fish's series if it is
      missing, then store v at t, replacing any earlier value. */
  function Put(st: Store, f: string, t: int, v: real): (r: Store)
    ensures r.Keys == st.Keys + {f}
    ensures Lookup(r, f, t) == Some(v)
    ensures forall g, u :: (g != f || u != t) ==> Lookup(r, g, u) == Lookup(st, g, u)
    ensures AllSeriesNonEmpty(st) ==> AllSeriesNonEmpty(r)
  {
    var s := SeriesOf(st, f);
    st[f := s[t := v]]
  }

  // ---------------------------------------------------------------- regions

  /** A region's two stores: summed values and, per fish, how many values were added. */
  datatype Tally = Tally(sum: Store, count: map<string, real>)

  /** The two stores know the same fish. */
  predicate Consistent(tl: Tally) {
    tl.sum.Keys == tl.count.Keys
  }

  function CountOf(tl: Tally, f: string): real {
    if f in tl.count then tl.count[f] else 0.0
  }

  /** A region's AddActivity: create the fish's sum series (and a zero count) if
      the fish is missing, add v to the sum at t (from 0 if t is new), and count
      one more value for the fish. */
  function Accumulate(tl: Tally, f: string, t: int, v: real): (r: Tally)
    requires Consistent(tl)
    ensures Consistent(r)
    ensures r.sum.Keys == tl.sum.Keys + {f}
    ensures r.sum[f].Keys == SeriesOf(tl.sum, f).Keys + {t}
    ensures ValueOr0(r.sum, f, t) == ValueOr0(tl.sum, f, t) + v
    ensures forall g, u :: (g != f || u != t) ==> Lookup(r.sum, g, u) == Lookup(tl.sum, g, u)
    ensures forall g :: g != f && g in tl.sum ==> r.sum[g] == tl.sum[g]
    ensures CountOf(r, f) == CountOf(tl, f) + 1.0
    ensures forall g :: g != f ==> CountOf(r, g) == CountOf(tl, g)
    ensures AllSeriesNonEmpty(tl.sum) ==> AllSeriesNonEmpty(r.sum)
  {
    var s := SeriesOf(tl.sum, f);
    var n := CountOf(tl, f);
    Tally(tl.sum[f := s[t := (if t in s then s[t] else 0.0) + v]], tl.count[f := n + 1.0])
  }

  // ---------------------------------------------------------------- sequences of additions

  datatype Event = Event(fish: string, time: int, value: real)

  /** Accumulate each event in turn. */
  function AddAll(tl: Tally, evs: seq<Event>): (r: Tally)
    requires Consistent(tl)
    ensures Consistent(r)
    decreases |evs|
  {
    if evs == [] then tl
    else AddAll(Accumulate(tl, evs[0].fish, evs[0].time, evs[0].value), evs[1..])
  }

  /** The total of the values events carry for (f, t). */
  function EventSum(evs: seq<Event>, f: string, t: int): real
    decreases |evs|
  {
    if evs == [] then 0.0
    else (if evs[0].fish == f && evs[0].time == t then evs[0].value else 0.0) + EventSum(evs[1..], f, t)
  }

  /** How many events are for fish f. */
  function EventCount(evs: seq<Event>, f: string): nat
    decreases |evs|
  {
    if evs == [] then 0
    else (if evs[0].fish == f then 1 else 0) + EventCount(evs[1..], f)
  }

  function FishOf(evs: seq<Event>): set<string> {
    set e | e in evs :: e.fish
  }

  function TimesOf(evs: seq<Event>, f: string): set<int> {
    set e | e in evs && e.fish == f :: e.time
  }

  /** After a sequence of additions the region knows the fish it knew and the
      fish of the additions. */
  lemma {:induction false} AddAllFish(tl: Tally, evs: seq<Event>)
    requires Consistent(tl)
    ensures AddAll(tl, evs).sum.Keys == tl.sum.Keys + FishOf(evs)
    decreases |evs|
  {
    if evs != [] {
      var e := evs[0];
      AddAllFish(Accumulate(tl, e.fish, e.time, e.value), evs[1..]);
      FishOfCons(evs);
    }
  }

  lemma FishOfCons(evs: seq<Event>)
    requires evs != []
    ensures FishOf(evs) == {evs[0].fish} + FishOf(evs[1..])
  {
    assert evs == [evs[0]] + evs[1..];
  }

  lemma TimesOfCons(evs: seq<Event>, f: string)
    requires evs != []
    ensures TimesOf(evs, f) == (if f == evs[0].fish then {evs[0].time} else {}) + TimesOf(evs[1..], f)
  {
    assert evs == [evs[0]] + evs[1..];
  }

  /** One addition adds its value to its own place only. */
  lemma AccumulateValue(tl: Tally, g: string, u: int, v: real, f: string, t: int)
    requires Consistent(tl)
    ensures ValueOr0(Accumulate(tl, g, u, v).sum, f, t) == ValueOr0(tl.sum, f, t) + (if f == g && t == u then v else 0.0)
  {
  }

  /** One addition adds its timestamp to its own fish's series and to no other. */
  lemma AccumulateSeriesKeys(tl: Tally, g: string, t: int, v: real, f: string)
    requires Consistent(tl)
    ensures SeriesOf(Accumulate(tl, g, t, v).sum, f).Keys == SeriesOf(tl.sum, f).Keys + (if f == g then {t} else {})
  {
  }

  /** ... and for each fish the timestamps it had and those of its additions. */
  lemma {:induction false} AddAllTimes(tl: Tally, evs: seq<Event>, f: string)
    requires Consistent(tl)
    ensures SeriesOf(AddAll(tl, evs).sum, f).Keys == SeriesOf(tl.sum, f).Keys + TimesOf(evs, f)
    decreases |evs|
  {
    if evs != [] {
      var e := evs[0];
      var tl' := Accumulate(tl, e.fish, e.time, e.value);
      AddAllTimes(tl', evs[1..], f);
      TimesOfCons(evs, f);
      AccumulateSeriesKeys(tl, e.fish, e.time, e.value, f);
    }
  }

  /** After a sequence of additions each sum is the old sum plus the values
      added at that place. */
  lemma {:induction false} AddAllSum(tl: Tally, evs: seq<Event>, f: string, t: int)
    requires Consistent(tl)
    ensures ValueOr0(AddAll(tl, evs).sum, f, t) == ValueOr0(tl.sum, f, t) + EventSum(evs, f, t)
    decreases |evs|
  {
    if evs != [] {
      var e := evs[0];
      AddAllSum(Accumulate(tl, e.fish, e.time, e.value), evs[1..], f, t);
      AccumulateValue(tl, e.fish, e.time, e.value, f, t);
    }
  }

  /** After a sequence of additions each count is the old count plus the number
      of additions for the fish. */
  lemma {:induction false} AddAllCount(tl: Tally, evs: seq<Event>, f: string)
    requires Consistent(tl)
    ensures CountOf(AddAll(tl, evs), f) == CountOf(tl, f) + EventCount(evs, f) as real
    decreases |evs|
  {
    if evs != [] {
      var e := evs[0];
      AddAllCount(Accumulate(tl, e.fish, e.time, e.value), evs[1..], f);
    }
  }

  lemma {:induction false} EventSumAppend(a: seq<Event>, b: seq<Event>, f: string, t: int)
    ensures EventSum(a + b, f, t) == EventSum(a, f, t) + EventSum(b, f, t)
    decreases |a|
  {
    if a != [] {
      EventSumAppend(a[1..], b, f, t);
      assert (a + b)[0] == a[0];
      assert (a + b)[1..] == a[1..] + b;
    } else {
      assert a + b == b;
    }
  }

  lemma {:induction false} EventCountAppend(a: seq<Event>, b: seq<Event>, f: string)
    ensures EventCount(a + b, f) == EventCount(a, f) + EventCount(b, f)
    decreases |a|
  {
    if a != [] {
      EventCountAppend(a[1..], b, f);
      assert (a + b)[0] == a[0];
      assert (a + b)[1..] == a[1..] + b;
    } else {
      assert a + b == b;
    }
  }

  /** Taking one event out of a sequence takes out its share of the totals. */
  lemma EventTotalsRemove(b: seq<Event>, i: nat, f: string, t: int)
    requires i < |b|
    ensures EventSum(b, f, t) == EventSum([b[i]], f, t) + EventSum(b[..i] + b[i + 1..], f, t)
    ensures EventCount(b, f) == EventCount([b[i]], f) + EventCount(b[..i] + b[i + 1..], f)
  {
    assert b == b[..i] + ([b[i]] + b[i + 1..]);
    EventSumAppend(b[..i], [b[i]] + b[i + 1..], f, t);
    EventSumAppend([b[i]], b[i + 1..], f, t);
    EventSumAppend(b[..i], b[i + 1..], f, t);
    EventCountAppend(b[..i], [b[i]] + b[i + 1..], f);
    EventCountAppend([b[i]], b[i + 1..], f);
    EventCountAppend(b[..i], b[i + 1..], f);
  }

  lemma MultisetRemove<T>(a: seq<T>, b: seq<T>, i: nat)
    requires a != [] && i < |b| && b[i] == a[0]
    requires multiset(a) == multiset(b)
    ensures multiset(a[1..]) == multiset(b[..i] + b[i + 1..])
  {
    assert a == [a[0]] + a[1..];
    assert multiset(a[1..]) == multiset(a) - multiset{a[0]};
    assert b == b[..i] + [b[i]] + b[i + 1..];
    assert multiset(b[..i] + b[i + 1..]) == multiset(b) - multiset{b[i]};
  }

  /** Reordering the events does not change their totals. */
  lemma {:induction false} EventTotalsPermutation(a: seq<Event>, b: seq<Event>, f: string, t: int)
    requires multiset(a) == multiset(b)
    ensures EventSum(a, f, t) == EventSum(b, f, t)
    ensures EventCount(a, f) == EventCount(b, f)
    decreases |a|
  {
    if a == [] {
      assert |b| == |multiset(b)| == 0;
    } else {
      var e := a[0];
      assert e in multiset(b);
      var i :| 0 <= i < |b| && b[i] == e;
      var b' := b[..i] + b[i + 1..];
      MultisetRemove(a, b, i);
      EventTotalsPermutation(a[1..], b', f, t);
      EventTotalsRemove(b, i, f, t);
      EventTotalsRemove(a, 0, f, t);
      assert a[..0] + a[1..] == a[1..];
    }
  }

  /** Two tallies that agree on every key, sum and count are equal. */
  lemma TallyExtensional(r1: Tally, r2: Tally)
    requires Consistent(r1) && Consistent(r2)
    requires r1.sum.Keys == r2.sum.Keys
    requires forall f :: SeriesOf(r1.sum, f).Keys == SeriesOf(r2.sum, f).Keys
    requires forall f, t :: ValueOr0(r1.sum, f, t) == ValueOr0(r2.sum, f, t)
    requires forall f :: CountOf(r1, f) == CountOf(r2, f)
    ensures r1 == r2
  {
    forall f | f in r1.sum ensures r1.sum[f] == r2.sum[f] {
      assert SeriesOf(r1.sum, f).Keys == SeriesOf(r2.sum, f).Keys;
      forall t | t in r1.sum[f] ensures r1.sum[f][t] == r2.sum[f][t] {
        assert ValueOr0(r1.sum, f, t) == ValueOr0(r2.sum, f, t);
      }
    }
    forall f | f in r1.count ensures r1.count[f] == r2.count[f] {
      assert CountOf(r1, f) == CountOf(r2, f);
    }
  }

  /** Reordered events name the same fish and timestamps. */
  lemma PermutationSameKeys(a: seq<Event>, b: seq<Event>)
    requires multiset(a) == multiset(b)
    ensures FishOf(a) == FishOf(b)
    ensures forall f :: TimesOf(a, f) == TimesOf(b, f)
  {
    forall e ensures e in a <==> e in b {
      assert e in a <==> e in multiset(a);
      assert e in b <==> e in multiset(b);
    }
  }

  /** Reordered additions reach the same fish and timestamps. */
  lemma AddAllSameKeys(tl: Tally, a: seq<Event>, b: seq<Event>)
    requires Consistent(tl)
    requires multiset(a) == multiset(b)
    ensures AddAll(tl, a).sum.Keys == AddAll(tl, b).sum.Keys
    ensures forall f :: SeriesOf(AddAll(tl, a).sum, f).Keys == SeriesOf(AddAll(tl, b).sum, f).Keys
  {
    PermutationSameKeys(a, b);
    AddAllFish(tl, a);
    AddAllFish(tl, b);
    forall f ensures SeriesOf(AddAll(tl, a).sum, f).Keys == SeriesOf(AddAll(tl, b).sum, f).Keys {
      AddAllTimes(tl, a, f);
      AddAllTimes(tl, b, f);
    }
  }

  /** Reordered additions reach the same sums and counts. */
  lemma AddAllSameTotals(tl: Tally, a: seq<Event>, b: seq<Event>)
    requires Consistent(tl)
    requires multiset(a) == multiset(b)
    ensures forall f, t :: ValueOr0(AddAll(tl, a).sum, f, t) == ValueOr0(AddAll(tl, b).sum, f, t)
    ensures forall f :: CountOf(AddAll(tl, a), f) == CountOf(AddAll(tl, b), f)
  {
    forall f, t ensures ValueOr0(AddAll(tl, a).sum, f, t) == ValueOr0(AddAll(tl, b).sum, f, t) {
      AddAllSum(tl, a, f, t);
      AddAllSum(tl, b, f, t);
      EventTotalsPermutation(a, b, f, t);
    }
    forall f ensures CountOf(AddAll(tl, a), f) == CountOf(AddAll(tl, b), f) {
      AddAllCount(tl, a, f);
      AddAllCount(tl, b, f);
      EventTotalsPermutation(a, b, f, 0);
    }
  }

  /** A region's sums and counts do not depend on the order in which the
      activity of its neurons arrives. */
  lemma AddAllOrderIndependent(tl: Tally, a: seq<Event>, b: seq<Event>)
    requires Consistent(tl)
    requires multiset(a) == multiset(b)
    ensures AddAll(tl, a) == AddAll(tl, b)
  {
    AddAllSameKeys(tl, a, b);
    AddAllSameTotals(tl, a, b);
    TallyExtensional(AddAll(tl, a), AddAll(tl, b));
  }

  // ---------------------------------------------------------------- sequences of overwrites

  function PutAll(st: Store, evs: seq<Event>): Store
    decreases |evs|
  {
    if evs == [] then st else PutAll(Put(st, evs[0].fish, evs[0].time, evs[0].value), evs[1..])
  }

  /** The value of the last event for (f, t), if there is one. */
  function LastValue(evs: seq<Event>, f: string, t: int): Option<real>
    decreases |evs|
  {
    if evs == [] then None
    else if evs[|evs| - 1].fish == f && evs[|evs| - 1].time == t then Some(evs[|evs| - 1].value)
    else LastValue(evs[..|evs| - 1], f, t)
  }

  lemma {:induction false} PutAllSnoc(st: Store, evs: seq<Event>, e: Event)
    ensures PutAll(st, evs + [e]) == Put(PutAll(st, evs), e.fish, e.time, e.value)
    decreases |evs|
  {
    if evs != [] {
      assert (evs + [e])[1..] == evs[1..] + [e];
      PutAllSnoc(Put(st, evs[0].fish, evs[0].time, evs[0].value), evs[1..], e);
    }
  }

  /** Overwriting keeps the last value written for each (fish, timestamp), and
      leaves the rest alone. */
  lemma {:induction false} PutAllLastWriteWins(st: Store, evs: seq<Event>, f: string, t: int)
    ensures Lookup(PutAll(st, evs), f, t) == match LastValue(evs, f, t)
      case Some(v) => Some(v)
      case None => Lookup(st, f, t)
    decreases |evs|
  {
    if evs != [] {
      var init := evs[..|evs| - 1];
      var e := evs[|evs| - 1];
      assert evs == init + [e];
      PutAllSnoc(st, init, e);
      PutAllLastWriteWins(st, init, f, t);
    }
  }

  // ---------------------------------------------------------------- replaying a store

  /** evs lists the entries of st, each (fish, timestamp) once. */
  ghost predicate Enumerates(evs: seq<Event>, st: Store) {
    && (forall i :: 0 <= i < |evs| ==> Lookup(st, evs[i].fish, evs[i].time) == Some(evs[i].value))
    && (forall f, t :: Lookup(st, f, t).Some? ==> exists i :: 0 <= i < |evs| && evs[i].fish == f && evs[i].time == t)
    && (forall i, j :: 0 <= i < j < |evs| ==> evs[i].fish != evs[j].fish || evs[i].time != evs[j].time)
  }

  /** Entry (g, u) has been replayed once fish g is out of fishLeft, unless g is
      the fish f being replayed and u is still in timesLeft. */
  predicate Replayed(fishLeft: set<string>, f: string, timesLeft: set<int>, g: string, u: int) {
    g !in fishLeft && !(g == f && u in timesLeft)
  }

  /** evs lists, each once, the entries of st replayed so far. */
  ghost predicate EnumeratesExcept(evs: seq<Event>, st: Store, fishLeft: set<string>, f: string, timesLeft: set<int>) {
    && (forall i :: 0 <= i < |evs| ==>
          Lookup(st, evs[i].fish, evs[i].time) == Some(evs[i].value) && Replayed(fishLeft, f, timesLeft, evs[i].fish, evs[i].time))
    && (forall g, u :: Lookup(st, g, u).Some? && Replayed(fishLeft, f, timesLeft, g, u) ==>
          exists i :: 0 <= i < |evs| && evs[i].fish == g && evs[i].time == u)
    && (forall i, j :: 0 <= i < j < |evs| ==> evs[i].fish != evs[j].fish || evs[i].time != evs[j].time)
  }

  lemma EnumeratesStart(st: Store, f: string)
    ensures EnumeratesExcept([], st, st.Keys, f, {})
  {
  }

  /** Moving on to fish f: all its timestamps are still to come. */
  lemma EnumeratesNextFish(evs: seq<Event>, st: Store, fishLeft: set<string>, last: string, f: string)
    requires EnumeratesExcept(evs, st, fishLeft, last, {})
    requires f in fishLeft && f in st
    ensures EnumeratesExcept(evs, st, fishLeft - {f}, f, st[f].Keys)
  {
  }

  /** Replaying entry (f, t) of st extends the enumeration by one event. */
  lemma EnumeratesNextTime(evs: seq<Event>, st: Store, fishLeft: set<string>, f: string, timesLeft: set<int>, t: int)
    requires EnumeratesExcept(evs, st, fishLeft, f, timesLeft)
    requires f in st && f !in fishLeft && t in timesLeft && timesLeft <= st[f].Keys
    ensures EnumeratesExcept(evs + [Event(f, t, st[f][t])], st, fishLeft, f, timesLeft - {t})
  {
    var evs' := evs + [Event(f, t, st[f][t])];
    forall g, u | Lookup(st, g, u).Some? && Replayed(fishLeft, f, timesLeft - {t}, g, u)
      ensures exists i :: 0 <= i < |evs'| && evs'[i].fish == g && evs'[i].time == u
    {
      if g == f && u == t {
        assert evs'[|evs|].fish == g && evs'[|evs|].time == u;
      } else {
        var i :| 0 <= i < |evs| && evs[i].fish == g && evs[i].time == u;
        assert evs'[i] == evs[i];
      }
    }
  }

  lemma EnumeratesDone(evs: seq<Event>, st: Store, f: string)
    requires EnumeratesExcept(evs, st, {}, f, {})
    ensures Enumerates(evs, st)
  {
  }

  lemma {:induction false} AddAllSnoc(tl: Tally, evs: seq<Event>, e: Event)
    requires Consistent(tl)
    ensures AddAll(tl, evs + [e]) == Accumulate(AddAll(tl, evs), e.fish, e.time, e.value)
    decreases |evs|
  {
    if evs == [] {
      assert evs + [e] == [e];
    } else {
      assert (evs + [e])[1..] == evs[1..] + [e];
      AddAllSnoc(Accumulate(tl, evs[0].fish, evs[0].time, evs[0].value), evs[1..], e);
    }
  }

  /** The last event for (f, t) exists exactly when some event is for (f, t),
      and it carries the value of one of them. */
  lemma {:induction false} LastValueSpec(evs: seq<Event>, f: string, t: int)
    ensures LastValue(evs, f, t).Some? <==> exists i :: 0 <= i < |evs| && evs[i].fish == f && evs[i].time == t
    ensures LastValue(evs, f, t).Some? ==>
      exists i :: 0 <= i < |evs| && evs[i].fish == f && evs[i].time == t && evs[i].value == LastValue(evs, f, t).value
    decreases |evs|
  {
    if evs != [] {
      var init := evs[..|evs| - 1];
      LastValueSpec(init, f, t);
      assert forall i :: 0 <= i < |init| ==> init[i] == evs[i];
      if exists i :: 0 <= i < |evs| && evs[i].fish == f && evs[i].time == t {
        var i :| 0 <= i < |evs| && evs[i].fish == f && evs[i].time == t;
        if i < |init| { assert init[i].fish == f && init[i].time == t; }
      }
    }
  }

  lemma {:induction false} PutAllKeys(st: Store, evs: seq<Event>)
    ensures PutAll(st, evs).Keys == st.Keys + FishOf(evs)
    decreases |evs|
  {
    if evs != [] {
      var e, rest := evs[0], evs[1..];
      var st' := Put(st, e.fish, e.time, e.value);
      assert PutAll(st, evs) == PutAll(st', rest);
      PutAllKeys(st', rest);
      FishOfCons(evs);
    }
  }

  /** Two stores with the same fish and the same entries are equal. */
  lemma StoreExtensional(a: Store, b: Store)
    requires a.Keys == b.Keys
    requires forall g, u :: Lookup(a, g, u) == Lookup(b, g, u)
    ensures a == b
  {
    forall g | g in a ensures a[g] == b[g] {
      forall u ensures u in a[g] <==> u in b[g] {
        assert Lookup(a, g, u) == Lookup(b, g, u);
      }
      forall u | u in a[g] ensures a[g][u] == b[g][u] {
        assert Lookup(a, g, u) == Lookup(b, g, u);
      }
    }
  }

  /** A fish with a non-empty series has an entry. */
  lemma SomeEntry(st: Store, g: string) returns (u: int)
    requires g in st && st[g] != map[]
    ensures Lookup(st, g, u).Some?
  {
    var m := st[g];
    if forall k :: k !in m {
      assert false;
    }
    u :| u in m;
  }

  /** Overwriting an empty store with an enumeration of st rebuilds st (every
      series of st being non-empty, so that its fish are those of its entries). */
  lemma PutAllEnumeration(st: Store, evs: seq<Event>)
    requires Enumerates(evs, st)
    requires AllSeriesNonEmpty(st)
    ensures PutAll(map[], evs) == st
  {
    var r := PutAll(map[], evs);
    forall g, u ensures Lookup(r, g, u) == Lookup(st, g, u) {
      PutAllLastWriteWins(map[], evs, g, u);
      LastValueSpec(evs, g, u);
    }
    PutAllKeys(map[], evs);
    forall g ensures g in st <==> g in FishOf(evs) {
      if g in st {
        var u := SomeEntry(st, g);
      }
      if g in FishOf(evs) {
        var e :| e in evs && e.fish == g;
        var i :| 0 <= i < |evs| && evs[i] == e;
        assert Lookup(st, g, evs[i].time).Some?;
      }
    }
    StoreExtensional(r, st);
  }

  /** With distinct (fish, timestamp) pairs, an enumeration's total at (f, t) is
      the entry there. */
  lemma {:induction false} EventSumDistinct(evs: seq<Event>, f: string, t: int)
    requires forall i, j :: 0 <= i < j < |evs| ==> evs[i].fish != evs[j].fish || evs[i].time != evs[j].time
    ensures LastValue(evs, f, t).Some? ==> EventSum(evs, f, t) == LastValue(evs, f, t).value
    ensures LastValue(evs, f, t).None? ==> EventSum(evs, f, t) == 0.0
    decreases |evs|
  {
    if evs != [] {
      var init := evs[..|evs| - 1];
      var e := evs[|evs| - 1];
      assert evs == init + [e];
      EventSumDistinct(init, f, t);
      EventSumAppend(init, [e], f, t);
      if e.fish == f && e.time == t {
        LastValueSpec(init, f, t);
      }
    }
  }

  /** With distinct (fish, timestamp) pairs, an enumeration counts the
      timestamps of each fish once. */
  lemma {:induction false} EventCountDistinct(evs: seq<Event>, f: string)
    requires forall i, j :: 0 <= i < j < |evs| ==> evs[i].fish != evs[j].fish || evs[i].time != evs[j].time
    ensures EventCount(evs, f) == |TimesOf(evs, f)|
    decreases |evs|
  {
    if evs != [] {
      var e := evs[0];
      var rest := evs[1..];
      EventCountDistinct(rest, f);
      assert evs == [e] + rest;
      if e.fish == f {
        assert TimesOf(evs, f) == {e.time} + TimesOf(rest, f);
        assert e.time !in TimesOf(rest, f);
      } else {
        assert TimesOf(evs, f) == TimesOf(rest, f);
      }
    }
  }

  /** Replaying an enumeration of st into a region adds each value of st once
      into the sums, and counts each entry of st once. */
  lemma AddAllEnumeration(tl: Tally, st: Store, evs: seq<Event>, f: string, t: int)
    requires Consistent(tl)
    requires Enumerates(evs, st)
    ensures ValueOr0(AddAll(tl, evs).sum, f, t) == ValueOr0(tl.sum, f, t) + ValueOr0(st, f, t)
    ensures CountOf(AddAll(tl, evs), f) == CountOf(tl, f) + |SeriesOf(st, f)| as real
  {
    AddAllSum(tl, evs, f, t);
    AddAllCount(tl, evs, f);
    EventSumDistinct(evs, f, t);
    LastValueSpec(evs, f, t);
    EventCountDistinct(evs, f);
    EnumeratedTimes(evs, st, f);
    assert |SeriesOf(st, f).Keys| == |SeriesOf(st, f)|;
  }

  /** An enumeration of a store lists, for each fish, exactly the timestamps of its series. */
  lemma EnumeratedTimes(evs: seq<Event>, st: Store, f: string)
    requires Enumerates(evs, st)
    ensures TimesOf(evs, f) == SeriesOf(st, f).Keys
  {
    forall u ensures u in TimesOf(evs, f) <==> u in SeriesOf(st, f) {
      if u in SeriesOf(st, f) {
        assert Lookup(st, f, u).Some?;
        var i :| 0 <= i < |evs| && evs[i].fish == f && evs[i].time == u;
        assert evs[i] in evs;
      }
      if u in TimesOf(evs, f) {
        var x :| x in evs && x.fish == f && x.time == u;
        var i :| 0 <= i < |evs| && evs[i] == x;
        assert Lookup(st, f, u).Some?;
      }
    }
  }
}
