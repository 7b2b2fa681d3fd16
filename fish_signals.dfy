/** The signal half of the scene loader: a fish's signal file read into the
    neurons, regions and totals of every brain, and the playback of one
    region's activity over a window of timestamps. */
module FishSignals {
  import opened Text
  import opened TimeSeries
  import opened BrainComponents
  import opened LoadFishData

  // ---------------------------------------------------------------- writes

  /** One value the loader hands to a neuron's AddActivity. */
  datatype Write = Write(neuron: Neuron, event: Event)

  /** Where a write lands: on its neuron, on the neuron's region (summed) and on
      the neuron's brain (overwritten). */
  datatype Target = OfNeuron(n: Neuron) | OfRegion(r: Region) | OfBrain(b: Brain)

  predicate Hits(w: Write, target: Target) {
    match target
    case OfNeuron(n) => w.neuron == n
    case OfRegion(r) => w.neuron.region == r
    case OfBrain(b) => w.neuron.brain == b
  }

  /** The events of the writes that land on target, in order. */
  function Hit(ws: seq<Write>, target: Target): (evs: seq<Event>)
    ensures |evs| <= |ws|
  {
    if ws == [] then []
    else
      var w := ws[|ws| - 1];
      Hit(ws[..|ws| - 1], target) + (if Hits(w, target) then [w.event] else [])
  }

  lemma {:induction false} HitAppend(a: seq<Write>, b: seq<Write>, target: Target)
    ensures Hit(a + b, target) == Hit(a, target) + Hit(b, target)
    decreases |b|
  {
    if b != [] {
      var b' := b[..|b| - 1];
      var w := b[|b| - 1];
      var tail := if Hits(w, target) then [w.event] else [];
      assert (a + b)[..|a + b| - 1] == a + b';
      assert (a + b)[|a + b| - 1] == w;
      calc {
        Hit(a + b, target);
        Hit(a + b', target) + tail;
        { HitAppend(a, b', target); }
        Hit(a, target) + Hit(b', target) + tail;
        Hit(a, target) + Hit(b, target);
      }
    } else {
      assert a + b == a;
    }
  }

  lemma HitSnoc(ws: seq<Write>, w: Write, target: Target)
    ensures Hit(ws + [w], target) == Hit(ws, target) + (if Hits(w, target) then [w.event] else [])
  {
    assert (ws + [w])[..|ws|] == ws;
  }

  /** Every brain's neuron list, in brain order. */
  function NeuronLists(brains: seq<Brain>): (lists: seq<seq<Neuron>>)
    reads brains`neurons
    ensures |lists| == |brains| && forall i :: 0 <= i < |brains| ==> lists[i] == brains[i].neurons
  {
    if brains == [] then [] else NeuronLists(brains[..|brains| - 1]) + [brains[|brains| - 1].neurons]
  }

  /** The writes a brain with neuron list ns receives for row r: its neuron of
      that row, when it has that many. */
  function BrainWrite(ns: seq<Neuron>, r: nat, e: Event): seq<Write> {
    if r < |ns| then [Write(ns[r], e)] else []
  }

  /** The writes for one cell: brain by brain, in order. */
  function CellWrites(lists: seq<seq<Neuron>>, r: nat, e: Event): seq<Write> {
    if lists == [] then []
    else CellWrites(lists[..|lists| - 1], r, e) + BrainWrite(lists[|lists| - 1], r, e)
  }

  lemma CellWritesSnoc(lists: seq<seq<Neuron>>, i: nat, r: nat, e: Event)
    requires i < |lists|
    ensures CellWrites(lists[..i + 1], r, e) == CellWrites(lists[..i], r, e) + BrainWrite(lists[i], r, e)
  {
    assert lists[..i + 1][..i] == lists[..i];
  }

  /** The writes for the cell of data row r at column c: none when the cell
      does not parse, else its binarised value at timestamp c - 10. */
  function ColumnWrites(lists: seq<seq<Neuron>>, r: nat, fish: string, cells: seq<Option<real>>, c: nat): seq<Write>
    requires FirstActivityColumn <= c < |cells|
  {
    match cells[c]
    case None => []
    case Some(v) => CellWrites(lists, r, Event(fish, c - FirstActivityColumn, Binarise(v)))
  }

  /** The writes for data row r: column by column from the tenth on. */
  function RowWrites(lists: seq<seq<Neuron>>, r: nat, fish: string, cells: seq<Option<real>>, upTo: nat): seq<Write>
    requires upTo <= |cells|
  {
    if upTo <= FirstActivityColumn then []
    else RowWrites(lists, r, fish, cells, upTo - 1) + ColumnWrites(lists, r, fish, cells, upTo - 1)
  }

  /** The writes for the first upTo data rows, row by row. */
  function SignalWrites(lists: seq<seq<Neuron>>, rows: seq<seq<Option<real>>>, fish: string, upTo: nat): seq<Write>
    requires upTo <= |rows|
  {
    if upTo == 0 then []
    else SignalWrites(lists, rows, fish, upTo - 1) + RowWrites(lists, upTo - 1, fish, rows[upTo - 1], |rows[upTo - 1]|)
  }

  /** One line of a signal file split at commas, every cell read with float.TryParse. */
  function DataRow(line: string): seq<Option<real>> {
    ParseCells(Split(line, Comma))
  }

  /** The data rows of a signal file (the lines after the header), each split at
      commas and every cell read with float.TryParse. */
  function SignalRows(lines: seq<string>): (rows: seq<seq<Option<real>>>)
    requires lines != []
    ensures |rows| == |lines| - 1
    ensures forall i :: 0 <= i < |rows| ==> rows[i] == DataRow(lines[i + 1])
  {
    seq(|lines| - 1, i requires 0 <= i < |lines| - 1 => DataRow(lines[i + 1]))
  }

  /** The writes replaying a whole signal file (header first) makes. */
  function FileWrites(lists: seq<seq<Neuron>>, lines: seq<string>, fish: string): seq<Write>
    requires lines != []
  {
    SignalWrites(lists, SignalRows(lines), fish, |lines| - 1)
  }

  // ---------------------------------------------------------------- one brain, distinct neurons

  /** With one brain, a cell's writes reach the neuron of row r only from row r. */
  lemma ColumnWritesOneBrain(ns: seq<Neuron>, r': nat, fish: string, cells: seq<Option<real>>, c: nat, r: nat)
    requires FirstActivityColumn <= c < |cells| && r < |ns|
    requires forall i, j :: 0 <= i < j < |ns| ==> ns[i] != ns[j]
    ensures Hit(ColumnWrites([ns], r', fish, cells, c), OfNeuron(ns[r])) ==
      if r' == r then ColumnEvent(fish, cells, c) else []
  {
    if cells[c].Some? {
      var e := Event(fish, c - FirstActivityColumn, Binarise(cells[c].value));
      assert [ns][..0] == [];
      assert CellWrites([ns], r', e) == BrainWrite(ns, r', e);
      if r' < |ns| {
        assert [Write(ns[r'], e)][..0] == [];
      }
    }
  }

  /** With one brain of distinct neurons, the writes of row r' reach the neuron
      of row r only when r' is r, and then they are that row's events. */
  lemma {:induction false} RowWritesOneBrain(ns: seq<Neuron>, r': nat, fish: string, cells: seq<Option<real>>, upTo: nat, r: nat)
    requires upTo <= |cells| && r < |ns|
    requires forall i, j :: 0 <= i < j < |ns| ==> ns[i] != ns[j]
    ensures Hit(RowWrites([ns], r', fish, cells, upTo), OfNeuron(ns[r])) ==
      if r' == r then RowEvents(fish, cells, upTo) else []
    decreases upTo
  {
    if upTo > FirstActivityColumn {
      var c := upTo - 1;
      var before := RowWrites([ns], r', fish, cells, c);
      var cell := ColumnWrites([ns], r', fish, cells, c);
      assert RowWrites([ns], r', fish, cells, upTo) == before + cell;
      RowWritesOneBrain(ns, r', fish, cells, c, r);
      HitAppend(before, cell, OfNeuron(ns[r]));
      ColumnWritesOneBrain(ns, r', fish, cells, c, r);
    }
  }

  /** With one brain of distinct neurons, the neuron of row r receives exactly
      the events of data row r, or none when the file has fewer rows. */
  lemma {:induction false} SignalWritesOneBrain(ns: seq<Neuron>, rows: seq<seq<Option<real>>>, fish: string, upTo: nat, r: nat)
    requires upTo <= |rows| && r < |ns|
    requires forall i, j :: 0 <= i < j < |ns| ==> ns[i] != ns[j]
    ensures Hit(SignalWrites([ns], rows, fish, upTo), OfNeuron(ns[r])) ==
      if r < upTo then RowEvents(fish, rows[r], |rows[r]|) else []
    decreases upTo
  {
    if upTo > 0 {
      var k := upTo - 1;
      var target := OfNeuron(ns[r]);
      var before := SignalWrites([ns], rows, fish, k);
      var row := RowWrites([ns], k, fish, rows[k], |rows[k]|);
      var h1, h2 := Hit(before, target), Hit(row, target);
      calc {
        Hit(SignalWrites([ns], rows, fish, upTo), target);
        Hit(before + row, target);
        { HitAppend(before, row, target); }
        h1 + h2;
      }
      SignalWritesOneBrain(ns, rows, fish, k, r);
      RowWritesOneBrain(ns, k, fish, rows[k], |rows[k]|, r);
      assert h1 == if r < k then RowEvents(fish, rows[r], |rows[r]|) else [];
      assert h2 == if r == k then RowEvents(fish, rows[r], |rows[r]|) else [];
    }
  }

  /** After a row's events are written, the value at t is the binarised cell of
      column 10 + t when that cell parses, and the earlier value otherwise. */
  lemma SignalValue(st: Store, fish: string, cells: seq<Option<real>>, t: int)
    ensures Lookup(PutAll(st, RowEvents(fish, cells, |cells|)), fish, t) ==
      if 0 <= t && FirstActivityColumn + t < |cells| && cells[FirstActivityColumn + t].Some?
      then Some(Binarise(cells[FirstActivityColumn + t].value))
      else Lookup(st, fish, t)
  {
    var evs := RowEvents(fish, cells, |cells|);
    assert forall i :: 0 <= i < |evs| ==> evs[i] in evs;
    PutAllLastWriteWins(st, evs, fish, t);
    LastValueSpec(evs, fish, t);
    RowEventsSpec(fish, cells, |cells|, t);
  }

  // ---------------------------------------------------------------- replaying writes

  /** The neurons of every brain. */
  function AllNeurons(brains: seq<Brain>): set<Neuron>
    reads brains`neurons
  {
    set i, j | 0 <= i < |brains| && 0 <= j < |brains[i].neurons| :: brains[i].neurons[j]
  }

  /** The regions the brains list by name. */
  function ListedRegions(brains: seq<Brain>): set<Region>
    reads brains`regions
  {
    set i, r | 0 <= i < |brains| && r in brains[i].regions.Values :: r
  }

  /** The regions a write can reach (those of the neurons) and the listed ones. */
  function AllRegions(brains: seq<Brain>): set<Region>
    reads brains`neurons, brains`regions
  {
    (set n | n in AllNeurons(brains) :: n.region) + ListedRegions(brains)
  }

  /** The brains themselves and those their neurons point back to. */
  function AllBrains(brains: seq<Brain>): set<Brain>
    reads brains`neurons
  {
    (set n | n in AllNeurons(brains) :: n.brain) + (set i | 0 <= i < |brains| :: brains[i])
  }

  /** Every neuron's region and brain are among those tracked. */
  predicate Closed(ns: set<Neuron>, rs: set<Region>, bs: set<Brain>) {
    forall n :: n in ns ==> n.region in rs && n.brain in bs
  }

  /** What the loader changes, as values: every tracked neuron's series, region's
      sums and counts, and brain's totals. */
  datatype Scene = Scene(acts: map<Neuron, Store>, tallies: map<Region, TimeSeries.Tally>, totals: map<Brain, Store>)

  /** The condition Region.Valid places on a region's sums and counts. */
  predicate ValidTally(tl: TimeSeries.Tally) {
    Consistent(tl) && AllSeriesNonEmpty(tl.sum)
  }

  predicate SceneOk(s: Scene) {
    forall r :: r in s.tallies ==> ValidTally(s.tallies[r])
  }

  /** The current values of the tracked objects. */
  function Snap(ns: set<Neuron>, rs: set<Region>, bs: set<Brain>): (s: Scene)
    reads ns`activityList, rs`sumActivities, rs`numActivities, bs`totalActivityList
  {
    Scene(map n | n in ns :: n.activityList, map r | r in rs :: r.Tally(), map b | b in bs :: b.totalActivityList)
  }

  /** One AddActivity: the neuron's series and its brain's totals take the
      value, its region adds it to its sums and counts. */
  function Apply(s: Scene, w: Write): Scene {
    var n, e := w.neuron, w.event;
    Scene(
      if n in s.acts then s.acts[n := Put(s.acts[n], e.fish, e.time, e.value)] else s.acts,
      if n.region in s.tallies && Consistent(s.tallies[n.region]) then s.tallies[n.region := Accumulate(s.tallies[n.region], e.fish, e.time, e.value)] else s.tallies,
      if n.brain in s.totals then s.totals[n.brain := Put(s.totals[n.brain], e.fish, e.time, e.value)] else s.totals)
  }

  /** The scene after the writes ws, one after the other. */
  function ReplayScene(s: Scene, ws: seq<Write>): Scene {
    if ws == [] then s else Apply(ReplayScene(s, ws[..|ws| - 1]), ws[|ws| - 1])
  }

  /** Apply keeps every region's sums and counts valid. */
  lemma ApplyOk(s: Scene, w: Write)
    requires SceneOk(s)
    ensures SceneOk(Apply(s, w))
  {
  }

  lemma {:induction false} ReplaySceneOk(s: Scene, ws: seq<Write>)
    requires SceneOk(s)
    ensures SceneOk(ReplayScene(s, ws))
    decreases |ws|
  {
    if ws != [] {
      ReplaySceneOk(s, ws[..|ws| - 1]);
      ApplyOk(ReplayScene(s, ws[..|ws| - 1]), ws[|ws| - 1]);
    }
  }

  lemma {:induction false} ReplaySceneAppend(s: Scene, a: seq<Write>, b: seq<Write>)
    ensures ReplayScene(s, a + b) == ReplayScene(ReplayScene(s, a), b)
    decreases |b|
  {
    if b == [] {
      assert a + b == a;
    } else {
      var b' := b[..|b| - 1];
      assert (a + b)[..|a + b| - 1] == a + b';
      assert (a + b)[|a + b| - 1] == b[|b| - 1];
      ReplaySceneAppend(s, a, b');
    }
  }

  /** A tracked neuron ends with its series overwritten by the events that land on it. */
  lemma {:induction false} ReplaySceneNeuron(s: Scene, ws: seq<Write>, n: Neuron)
    requires n in s.acts
    ensures n in ReplayScene(s, ws).acts && ReplayScene(s, ws).acts[n] == PutAll(s.acts[n], Hit(ws, OfNeuron(n)))
    decreases |ws|
  {
    if ws != [] {
      var ws' := ws[..|ws| - 1];
      var w := ws[|ws| - 1];
      assert ws == ws' + [w];
      ReplaySceneNeuron(s, ws', n);
      HitSnoc(ws', w, OfNeuron(n));
      var prev := ReplayScene(s, ws');
      assert ReplayScene(s, ws) == Apply(prev, w);
      if w.neuron == n {
        PutAllSnoc(s.acts[n], Hit(ws', OfNeuron(n)), w.event);
        assert Hit(ws, OfNeuron(n)) == Hit(ws', OfNeuron(n)) + [w.event];
        assert Apply(prev, w).acts[n] == Put(prev.acts[n], w.event.fish, w.event.time, w.event.value);
      } else {
        assert Hit(ws, OfNeuron(n)) == Hit(ws', OfNeuron(n));
        assert Apply(prev, w).acts[n] == prev.acts[n];
      }
    }
  }

  /** A tracked region ends with the events that land on it added to its sums and counts. */
  lemma {:induction false} ReplaySceneRegion(s: Scene, ws: seq<Write>, r: Region)
    requires SceneOk(s) && r in s.tallies
    ensures r in ReplayScene(s, ws).tallies && ReplayScene(s, ws).tallies[r] == AddAll(s.tallies[r], Hit(ws, OfRegion(r)))
    decreases |ws|
  {
    if ws != [] {
      var ws' := ws[..|ws| - 1];
      var w := ws[|ws| - 1];
      assert ws == ws' + [w];
      ReplaySceneRegion(s, ws', r);
      HitSnoc(ws', w, OfRegion(r));
      var prev := ReplayScene(s, ws');
      assert ReplayScene(s, ws) == Apply(prev, w);
      if w.neuron.region == r {
        AddAllSnoc(s.tallies[r], Hit(ws', OfRegion(r)), w.event);
        assert Hit(ws, OfRegion(r)) == Hit(ws', OfRegion(r)) + [w.event];
        assert Apply(prev, w).tallies[r] == Accumulate(prev.tallies[r], w.event.fish, w.event.time, w.event.value);
      } else {
        assert Hit(ws, OfRegion(r)) == Hit(ws', OfRegion(r));
        assert Apply(prev, w).tallies[r] == prev.tallies[r];
      }
    }
  }

  /** A tracked brain ends with its totals overwritten by the events that land on it. */
  lemma {:induction false} ReplaySceneBrain(s: Scene, ws: seq<Write>, b: Brain)
    requires b in s.totals
    ensures b in ReplayScene(s, ws).totals && ReplayScene(s, ws).totals[b] == PutAll(s.totals[b], Hit(ws, OfBrain(b)))
    decreases |ws|
  {
    if ws != [] {
      var ws' := ws[..|ws| - 1];
      var w := ws[|ws| - 1];
      assert ws == ws' + [w];
      ReplaySceneBrain(s, ws', b);
      HitSnoc(ws', w, OfBrain(b));
      var prev := ReplayScene(s, ws');
      assert ReplayScene(s, ws) == Apply(prev, w);
      if w.neuron.brain == b {
        PutAllSnoc(s.totals[b], Hit(ws', OfBrain(b)), w.event);
        assert Hit(ws, OfBrain(b)) == Hit(ws', OfBrain(b)) + [w.event];
        assert Apply(prev, w).totals[b] == Put(prev.totals[b], w.event.fish, w.event.time, w.event.value);
      } else {
        assert Hit(ws, OfBrain(b)) == Hit(ws', OfBrain(b));
        assert Apply(prev, w).totals[b] == prev.totals[b];
      }
    }
  }

  lemma ActsApplied(s: Scene, n: Neuron, e: Event, ns: set<Neuron>)
    requires s.acts.Keys == ns && n in ns
    requires forall m :: m in ns ==> m.activityList == if m == n then Put(s.acts[n], e.fish, e.time, e.value) else s.acts[m]
    ensures (map m | m in ns :: m.activityList) == Apply(s, Write(n, e)).acts
  {
  }

  lemma TalliesApplied(s: Scene, n: Neuron, e: Event, rs: set<Region>)
    requires s.tallies.Keys == rs && n.region in rs && Consistent(s.tallies[n.region])
    requires forall g :: g in rs ==> g.Tally() == if g == n.region then Accumulate(s.tallies[g], e.fish, e.time, e.value) else s.tallies[g]
    ensures (map g | g in rs :: g.Tally()) == Apply(s, Write(n, e)).tallies
  {
  }

  lemma TotalsApplied(s: Scene, n: Neuron, e: Event, bs: set<Brain>)
    requires s.totals.Keys == bs && n.brain in bs
    requires forall b :: b in bs ==> b.totalActivityList == if b == n.brain then Put(s.totals[b], e.fish, e.time, e.value) else s.totals[b]
    ensures (map b | b in bs :: b.totalActivityList) == Apply(s, Write(n, e)).totals
  {
  }

  /** One write: the neuron's AddActivity, which also reaches its region and brain. */
  method Replay(n: Neuron, e: Event, ghost ns: set<Neuron>, ghost rs: set<Region>, ghost bs: set<Brain>)
    requires n in ns && n.region in rs && n.brain in bs && n.region.Valid()
    modifies ns`activityList, rs`sumActivities, rs`numActivities, bs`totalActivityList
    ensures forall m :: m in ns ==> m.activityList == if m == n then Put(old(n.activityList), e.fish, e.time, e.value) else old(m.activityList)
    ensures forall g :: g in rs ==> g.Tally() == if g == n.region then Accumulate(old(g.Tally()), e.fish, e.time, e.value) else old(g.Tally())
    ensures forall b :: b in bs ==> b.totalActivityList == if b == n.brain then Put(old(b.totalActivityList), e.fish, e.time, e.value) else old(b.totalActivityList)
  {
    n.AddActivity(e.fish, e.value, e.time);
  }

  /** The brains' neuron lists are lists, and every neuron they hold, with its
      region and brain, is tracked. */
  predicate Wired(brains: seq<Brain>, lists: seq<seq<Neuron>>, ns: set<Neuron>, rs: set<Region>, bs: set<Brain>)
    reads brains`neurons
  {
    && |lists| == |brains|
    && (forall k :: 0 <= k < |brains| ==> brains[k].neurons == lists[k])
    && (forall k, j :: 0 <= k < |lists| && 0 <= j < |lists[k]| ==> lists[k][j] in ns)
    && Closed(ns, rs, bs)
  }

  /** One write, as a change of the scene. */
  method ReplayWrite(n: Neuron, e: Event, ghost ns: set<Neuron>, ghost rs: set<Region>, ghost bs: set<Brain>)
    requires n in ns && Closed(ns, rs, bs) && SceneOk(Snap(ns, rs, bs))
    modifies ns`activityList, rs`sumActivities, rs`numActivities, bs`totalActivityList
    ensures Snap(ns, rs, bs) == Apply(old(Snap(ns, rs, bs)), Write(n, e))
  {
    ghost var s := Snap(ns, rs, bs);
    assert n.region.Tally() == s.tallies[n.region];
    Replay(n, e, ns, rs, bs);
    ActsApplied(s, n, e, ns);
    TalliesApplied(s, n, e, rs);
    TotalsApplied(s, n, e, bs);
  }

  /** One brain's part of a cell: its neuron of row r, when it has that many. */
  method ReplayBrain(b: Brain, r: nat, e: Event, ghost ns: set<Neuron>, ghost rs: set<Region>, ghost bs: set<Brain>)
    requires forall j :: 0 <= j < |b.neurons| ==> b.neurons[j] in ns
    requires Closed(ns, rs, bs) && SceneOk(Snap(ns, rs, bs))
    modifies ns`activityList, rs`sumActivities, rs`numActivities, bs`totalActivityList
    ensures Snap(ns, rs, bs) == ReplayScene(old(Snap(ns, rs, bs)), BrainWrite(b.neurons, r, e))
    ensures b.neurons == old(b.neurons)
  {
    if r < |b.neurons| {
      ReplayWrite(b.neurons[r], e, ns, rs, bs);
      assert [Write(b.neurons[r], e)][..0] == [];
    }
  }

  /** One cell: the value goes to the neuron of row r in every brain that has
      that many neurons. */
  method ReplayCell(brains: seq<Brain>, ghost lists: seq<seq<Neuron>>, r: nat, e: Event,
                    ghost ns: set<Neuron>, ghost rs: set<Region>, ghost bs: set<Brain>)
    requires Wired(brains, lists, ns, rs, bs) && SceneOk(Snap(ns, rs, bs))
    modifies ns`activityList, rs`sumActivities, rs`numActivities, bs`totalActivityList
    ensures Snap(ns, rs, bs) == ReplayScene(old(Snap(ns, rs, bs)), CellWrites(lists, r, e))
  {
    ghost var s0 := Snap(ns, rs, bs);
    assert lists[..0] == [];
    var i := 0;
    while i < |brains|
      invariant 0 <= i <= |brains|
      invariant Snap(ns, rs, bs) == ReplayScene(s0, CellWrites(lists[..i], r, e))
    {
      CellWritesSnoc(lists, i, r, e);
      ReplaySceneOk(s0, CellWrites(lists[..i], r, e));
      ReplaySceneAppend(s0, CellWrites(lists[..i], r, e), BrainWrite(lists[i], r, e));
      ReplayBrain(brains[i], r, e, ns, rs, bs);
      i := i + 1;
    }
    assert lists[..i] == lists;
  }

  /** The tracked objects hold s0 with the writes of the columns of data row r
      before column c replayed. */
  predicate RowDone(lists: seq<seq<Neuron>>, r: nat, fish: string, cells: seq<Option<real>>, c: nat,
                    s0: Scene, ns: set<Neuron>, rs: set<Region>, bs: set<Brain>)
    reads ns`activityList, rs`sumActivities, rs`numActivities, bs`totalActivityList
  {
    Snap(ns, rs, bs) == ReplayScene(s0, RowWrites(lists, r, fish, cells, if c <= |cells| then c else |cells|))
  }

  /** Replaying the columns up to c + 1 is replaying those up to c, then column c. */
  lemma RowWritesStep(s0: Scene, lists: seq<seq<Neuron>>, r: nat, fish: string, cells: seq<Option<real>>, c: nat)
    requires SceneOk(s0) && FirstActivityColumn <= c < |cells|
    ensures SceneOk(ReplayScene(s0, RowWrites(lists, r, fish, cells, c)))
    ensures ReplayScene(s0, RowWrites(lists, r, fish, cells, c + 1))
         == ReplayScene(ReplayScene(s0, RowWrites(lists, r, fish, cells, c)), ColumnWrites(lists, r, fish, cells, c))
  {
    ReplaySceneOk(s0, RowWrites(lists, r, fish, cells, c));
    ReplaySceneAppend(s0, RowWrites(lists, r, fish, cells, c), ColumnWrites(lists, r, fish, cells, c));
  }

  /** Column c of a data row, after the columns before it: its value when it
      parsed. */
  method ReplayColumn(brains: seq<Brain>, ghost lists: seq<seq<Neuron>>, r: nat, fish: string, cells: seq<Option<real>>, c: nat,
                      ghost s0: Scene, ghost ns: set<Neuron>, ghost rs: set<Region>, ghost bs: set<Brain>)
    requires FirstActivityColumn <= c < |cells|
    requires Wired(brains, lists, ns, rs, bs) && SceneOk(s0) && RowDone(lists, r, fish, cells, c, s0, ns, rs, bs)
    modifies ns`activityList, rs`sumActivities, rs`numActivities, bs`totalActivityList
    ensures RowDone(lists, r, fish, cells, c + 1, s0, ns, rs, bs)
  {
    RowWritesStep(s0, lists, r, fish, cells, c);
    if cells[c].Some? {
      var e := Event(fish, c - FirstActivityColumn, Binarise(cells[c].value));
      assert ColumnWrites(lists, r, fish, cells, c) == CellWrites(lists, r, e);
      ReplayCell(brains, lists, r, e, ns, rs, bs);
    } else {
      assert ColumnWrites(lists, r, fish, cells, c) == [];
    }
  }

  /** One data row, its cells already read with float.TryParse: for every
      column from the tenth on, the cell's value when it parsed. */
  method ReplayRow(brains: seq<Brain>, ghost lists: seq<seq<Neuron>>, r: nat, fish: string, cells: seq<Option<real>>,
                   ghost ns: set<Neuron>, ghost rs: set<Region>, ghost bs: set<Brain>)
    requires Wired(brains, lists, ns, rs, bs) && SceneOk(Snap(ns, rs, bs))
    modifies ns`activityList, rs`sumActivities, rs`numActivities, bs`totalActivityList
    ensures Snap(ns, rs, bs) == ReplayScene(old(Snap(ns, rs, bs)), RowWrites(lists, r, fish, cells, |cells|))
  {
    ghost var s0 := Snap(ns, rs, bs);
    var colIdx := FirstActivityColumn;
    while colIdx < |cells|
      invariant FirstActivityColumn <= colIdx
      invariant RowDone(lists, r, fish, cells, colIdx, s0, ns, rs, bs)
    {
      ReplayColumn(brains, lists, r, fish, cells, colIdx, s0, ns, rs, bs);
      colIdx := colIdx + 1;
    }
  }

  // ---------------------------------------------------------------- the rows of a signal file

  /** The tracked objects hold s0 with the writes of the first k data rows
      replayed. */
  predicate SignalDone(lists: seq<seq<Neuron>>, rows: seq<seq<Option<real>>>, fish: string, k: nat,
                       s0: Scene, ns: set<Neuron>, rs: set<Region>, bs: set<Brain>)
    reads ns`activityList, rs`sumActivities, rs`numActivities, bs`totalActivityList
  {
    Snap(ns, rs, bs) == ReplayScene(s0, SignalWrites(lists, rows, fish, if k <= |rows| then k else |rows|))
  }

  /** Replaying the rows up to k + 1 is replaying those up to k, then row k. */
  lemma SignalWritesStep(s0: Scene, lists: seq<seq<Neuron>>, rows: seq<seq<Option<real>>>, fish: string, k: nat)
    requires SceneOk(s0) && k < |rows|
    ensures SceneOk(ReplayScene(s0, SignalWrites(lists, rows, fish, k)))
    ensures ReplayScene(s0, SignalWrites(lists, rows, fish, k + 1))
         == ReplayScene(ReplayScene(s0, SignalWrites(lists, rows, fish, k)), RowWrites(lists, k, fish, rows[k], |rows[k]|))
  {
    ReplaySceneOk(s0, SignalWrites(lists, rows, fish, k));
    ReplaySceneAppend(s0, SignalWrites(lists, rows, fish, k), RowWrites(lists, k, fish, rows[k], |rows[k]|));
  }

  /** Data row k, read from its line, after the rows before it. */
  method ReplayDataRow(brains: seq<Brain>, ghost lists: seq<seq<Neuron>>, ghost rows: seq<seq<Option<real>>>,
                       cells: seq<Option<real>>, fish: string, k: nat,
                       ghost s0: Scene, ghost ns: set<Neuron>, ghost rs: set<Region>, ghost bs: set<Brain>)
    requires k < |rows| && cells == rows[k]
    requires Wired(brains, lists, ns, rs, bs) && SceneOk(s0) && SignalDone(lists, rows, fish, k, s0, ns, rs, bs)
    modifies ns`activityList, rs`sumActivities, rs`numActivities, bs`totalActivityList
    ensures SignalDone(lists, rows, fish, k + 1, s0, ns, rs, bs)
  {
    SignalWritesStep(s0, lists, rows, fish, k);
    ReplayRow(brains, lists, k, fish, cells, ns, rs, bs);
  }

  /** Every data row of a signal file, in file order: the number of rows is
      counted first, then each line is split at commas, its cells read with
      float.TryParse and replayed. */
  method ReplaySignals(brains: seq<Brain>, ghost lists: seq<seq<Neuron>>, lines: seq<string>, fish: string,
                       ghost ns: set<Neuron>, ghost rs: set<Region>, ghost bs: set<Brain>)
    requires lines != []
    requires Wired(brains, lists, ns, rs, bs) && SceneOk(Snap(ns, rs, bs))
    modifies ns`activityList, rs`sumActivities, rs`numActivities, bs`totalActivityList
    ensures Snap(ns, rs, bs) == ReplayScene(old(Snap(ns, rs, bs)), FileWrites(lists, lines, fish))
  {
    ghost var s0 := Snap(ns, rs, bs);
    ghost var rows := SignalRows(lines);
    var numRows := |lines| - 1;
    var rowIdx := 0;
    while rowIdx < numRows
      invariant SignalDone(lists, rows, fish, rowIdx, s0, ns, rs, bs)
    {
      var cells := DataRow(lines[rowIdx + 1]);
      ReplayDataRow(brains, lists, rows, cells, fish, rowIdx, s0, ns, rs, bs);
      rowIdx := rowIdx + 1;
    }
  }

  /** The brains' own objects are wired to the sets built from them. */
  lemma AllWired(brains: seq<Brain>)
    ensures Wired(brains, NeuronLists(brains), AllNeurons(brains), AllRegions(brains), AllBrains(brains))
  {
    var lists, ns := NeuronLists(brains), AllNeurons(brains);
    forall k, j | 0 <= k < |lists| && 0 <= j < |lists[k]| ensures lists[k][j] in ns {
      assert lists[k][j] == brains[k].neurons[j];
    }
  }

  /** The scene is well formed exactly when every tracked region is valid. */
  lemma SnapOk(ns: set<Neuron>, rs: set<Region>, bs: set<Brain>)
    ensures SceneOk(Snap(ns, rs, bs)) <==> forall r :: r in rs ==> r.Valid()
  {
    var s := Snap(ns, rs, bs);
    assert forall r :: r in rs ==> s.tallies[r] == r.Tally();
  }

  // ---------------------------------------------------------------- refreshing the extremes

  /** Region r's extremes are m0 and x0 with every fish of its sums set to
      its least and greatest value. */
  ghost predicate Refreshed(r: Region, m0: map<string, real>, x0: map<string, real>)
    reads r
  {
    ExtremesUpdated(r.sumActivities, m0, x0, r.minActivities, r.maxActivities)
  }

  /** A second refresh keeps the result of the first. */
  lemma RefreshedTwice(sum: Store, m0: map<string, real>, x0: map<string, real>, m1: map<string, real>, x1: map<string, real>,
                       m2: map<string, real>, x2: map<string, real>)
    requires ExtremesUpdated(sum, m0, x0, m1, x1) && ExtremesUpdated(sum, m1, x1, m2, x2)
    ensures ExtremesUpdated(sum, m0, x0, m2, x2)
  {
    ExtremesUpdateIdempotent(sum, m1, x1, m2, x2);
  }

  /** Every region of listed is valid and either refreshed against its first
      extremes (in mins0 and maxs0) or still holds them. */
  ghost predicate Refreshing(listed: set<Region>, mins0: map<Region, map<string, real>>, maxs0: map<Region, map<string, real>>)
    reads listed
  {
    forall r :: r in listed ==>
      && r in mins0 && r in maxs0 && r.Valid()
      && (Refreshed(r, mins0[r], maxs0[r]) || (r.minActivities == mins0[r] && r.maxActivities == maxs0[r]))
  }

  /** Every region of done is refreshed against its first extremes. */
  ghost predicate AllRefreshed(done: set<Region>, mins0: map<Region, map<string, real>>, maxs0: map<Region, map<string, real>>)
    reads done
  {
    forall r :: r in done ==> r in mins0 && r in maxs0 && Refreshed(r, mins0[r], maxs0[r])
  }

  lemma ListedRegionsSnoc(brains: seq<Brain>, i: nat)
    requires i < |brains|
    ensures ListedRegions(brains[..i + 1]) == ListedRegions(brains[..i]) + brains[i].regions.Values
  {
    var a, b := brains[..i + 1], brains[..i];
    assert forall k :: 0 <= k < i ==> a[k] == b[k];
    assert a[i] == brains[i];
  }

  /** The regions of the first i brains are among those of all of them; none
      for no brain. */
  lemma ListedRegionsPrefix(brains: seq<Brain>, i: nat)
    requires i <= |brains|
    ensures ListedRegions(brains[..i]) <= ListedRegions(brains)
    ensures i == 0 ==> ListedRegions(brains[..i]) == {}
    ensures i < |brains| ==> brains[i].regions.Values <= ListedRegions(brains)
  {
    var p := brains[..i];
    assert forall k :: 0 <= k < i ==> p[k] == brains[k];
  }

  /** The union of a sequence of sets of regions. */
  function UnionOf(ss: seq<set<Region>>): set<Region> {
    if ss == [] then {} else UnionOf(ss[..|ss| - 1]) + ss[|ss| - 1]
  }

  /** The regions of each brain, in brain order. */
  function RegionSets(brains: seq<Brain>): (ss: seq<set<Region>>)
    reads brains`regions
    ensures |ss| == |brains| && forall k :: 0 <= k < |brains| ==> ss[k] == brains[k].regions.Values
  {
    if brains == [] then [] else RegionSets(brains[..|brains| - 1]) + [brains[|brains| - 1].regions.Values]
  }

  /** The listed regions of the first i brains are the union of their region sets. */
  lemma {:induction false} ListedRegionsUnion(brains: seq<Brain>, i: nat)
    requires i <= |brains|
    ensures ListedRegions(brains[..i]) == UnionOf(RegionSets(brains)[..i])
    decreases i
  {
    var ss := RegionSets(brains);
    if i == 0 {
      ListedRegionsPrefix(brains, 0);
    } else {
      ListedRegionsUnion(brains, i - 1);
      ListedRegionsSnoc(brains, i - 1);
      assert ss[..i][..i - 1] == ss[..i - 1];
    }
  }

  /** UpdateMinMax on every region of every brain, brain by brain; ss holds
      each brain's regions and listed all of them (ListedRegionsUnion). */
  method UpdateAllMinMax(brains: seq<Brain>, ghost ss: seq<set<Region>>, ghost listed: set<Region>)
    requires |ss| == |brains| && (forall k :: 0 <= k < |brains| ==> ss[k] == brains[k].regions.Values)
    requires listed == UnionOf(ss)
    requires forall r :: r in listed ==> r.Valid()
    modifies listed`minActivities, listed`maxActivities
    ensures forall r :: r in listed ==> Refreshed(r, old(r.minActivities), old(r.maxActivities))
  {
    ghost var mins0, maxs0 := MinsOf(listed), MaxsOf(listed);
    RefreshingStart(listed);
    RefreshAll(brains, ss, listed, mins0, maxs0);
  }

  ghost function MinsOf(rs: set<Region>): (m: map<Region, map<string, real>>)
    reads rs`minActivities
    ensures m.Keys == rs && forall r :: r in rs ==> m[r] == r.minActivities
  {
    map r | r in rs :: r.minActivities
  }

  ghost function MaxsOf(rs: set<Region>): (m: map<Region, map<string, real>>)
    reads rs`maxActivities
    ensures m.Keys == rs && forall r :: r in rs ==> m[r] == r.maxActivities
  {
    map r | r in rs :: r.maxActivities
  }

  /** Before any refresh every region holds its first extremes. */
  lemma RefreshingStart(rs: set<Region>)
    requires forall r :: r in rs ==> r.Valid()
    ensures Refreshing(rs, MinsOf(rs), MaxsOf(rs))
  {
  }

  /** The loop of UpdateAllMinMax, over the brains' region sets ss. */
  method RefreshAll(brains: seq<Brain>, ghost ss: seq<set<Region>>, ghost listed: set<Region>,
                    ghost mins0: map<Region, map<string, real>>, ghost maxs0: map<Region, map<string, real>>)
    requires |ss| == |brains| && (forall k :: 0 <= k < |brains| ==> ss[k] == brains[k].regions.Values)
    requires listed == UnionOf(ss) && Refreshing(listed, mins0, maxs0)
    modifies listed`minActivities, listed`maxActivities
    ensures AllRefreshed(listed, mins0, maxs0)
  {
    var i := 0;
    while i < |brains|
      invariant 0 <= i <= |brains|
      invariant Refreshing(listed, mins0, maxs0)
      invariant AllRefreshed(UnionOf(ss[..i]), mins0, maxs0)
    {
      UnionPrefix(ss, i);
      RefreshAt(brains[i], ss, i, listed, mins0, maxs0);
      i := i + 1;
    }
    assert ss[..i] == ss;
  }

  /** The regions of brain i, after those of the brains before it. */
  method RefreshAt(b: Brain, ghost ss: seq<set<Region>>, ghost i: nat, ghost listed: set<Region>,
                   ghost mins0: map<Region, map<string, real>>, ghost maxs0: map<Region, map<string, real>>)
    requires i < |ss| && ss[i] == b.regions.Values && ss[i] <= listed && UnionOf(ss[..i]) <= listed
    requires Refreshing(listed, mins0, maxs0) && AllRefreshed(UnionOf(ss[..i]), mins0, maxs0)
    modifies b.regions.Values`minActivities, b.regions.Values`maxActivities
    ensures Refreshing(listed, mins0, maxs0) && AllRefreshed(UnionOf(ss[..i + 1]), mins0, maxs0)
  {
    UnionSnoc(ss, i);
    RefreshBrain(b, listed, mins0, maxs0, UnionOf(ss[..i]));
  }

  /** A prefix's union, and each set, lie in the union of all. */
  lemma {:induction false} UnionPrefix(ss: seq<set<Region>>, k: nat)
    requires k < |ss|
    ensures UnionOf(ss[..k]) <= UnionOf(ss) && ss[k] <= UnionOf(ss)
    decreases |ss| - k
  {
    UnionSnoc(ss, k);
    if k + 1 < |ss| {
      UnionPrefix(ss, k + 1);
    } else {
      assert ss[..k + 1] == ss;
    }
  }

  lemma UnionSnoc(ss: seq<set<Region>>, i: nat)
    requires i < |ss|
    ensures UnionOf(ss[..i + 1]) == UnionOf(ss[..i]) + ss[i]
  {
    assert ss[..i + 1][..i] == ss[..i];
  }

  /** UpdateMinMax on every region of one brain, in the order of its dictionary. */
  method RefreshBrain(b: Brain, ghost listed: set<Region>, ghost mins0: map<Region, map<string, real>>,
                      ghost maxs0: map<Region, map<string, real>>, ghost done: set<Region>)
    requires b.regions.Values <= listed && done <= listed
    requires Refreshing(listed, mins0, maxs0) && AllRefreshed(done, mins0, maxs0)
    modifies b.regions.Values`minActivities, b.regions.Values`maxActivities
    ensures Refreshing(listed, mins0, maxs0) && AllRefreshed(done + b.regions.Values, mins0, maxs0)
  {
    var left := b.regions.Values;
    ghost var finished := done;
    while left != {}
      invariant left <= b.regions.Values && finished <= listed
      invariant done + b.regions.Values <= finished + left
      invariant Refreshing(listed, mins0, maxs0) && AllRefreshed(finished, mins0, maxs0)
      decreases |left|
    {
      if forall r :: r !in left {
        assert false;
      }
      var region: Region :| region in left;
      RefreshOne(region, listed, mins0, maxs0, finished);
      finished := finished + {region};
      left := left - {region};
    }
    AllRefreshedSubset(done + b.regions.Values, finished, mins0, maxs0);
  }

  lemma AllRefreshedSubset(a: set<Region>, b: set<Region>, mins0: map<Region, map<string, real>>, maxs0: map<Region, map<string, real>>)
    requires a <= b && AllRefreshed(b, mins0, maxs0)
    ensures AllRefreshed(a, mins0, maxs0)
  {
  }

  /** UpdateMinMax on one region, whether or not it was refreshed before. */
  method RefreshOne(region: Region, ghost listed: set<Region>, ghost mins0: map<Region, map<string, real>>,
                    ghost maxs0: map<Region, map<string, real>>, ghost done: set<Region>)
    requires region in listed && done <= listed
    requires Refreshing(listed, mins0, maxs0) && AllRefreshed(done, mins0, maxs0)
    modifies region`minActivities, region`maxActivities
    ensures Refreshing(listed, mins0, maxs0) && AllRefreshed(done + {region}, mins0, maxs0)
  {
    ghost var m0, x0 := mins0[region], maxs0[region];
    ghost var m1, x1 := region.minActivities, region.maxActivities;
    region.UpdateMinMax();
    if m1 != m0 || x1 != x0 {
      RefreshedTwice(region.sumActivities, m0, x0, m1, x1, region.minActivities, region.maxActivities);
    }
  }
}
