/** The seizure half of the loader: choosing a fish and a region, reading the
    fish's signal file into every brain, and playing the signals back on the
    selected region one timestamp at a time. */
module Seizures {
  import opened Text
  import opened TimeSeries
  import opened BrainComponents
  import opened LoadFishData
  import opened FishSignals

  // ---------------------------------------------------------------- what a load writes

  /** An event a signal load writes: a 0/1 value for the loaded fish. */
  predicate OfFish(e: Event, fish: string) {
    e.fish == fish && (e.value == 0.0 || e.value == 1.0)
  }

  lemma {:induction false} CellWritesOf(lists: seq<seq<Neuron>>, r: nat, e: Event)
    ensures forall w :: w in CellWrites(lists, r, e) ==> w.event == e
    decreases |lists|
  {
    if lists != [] {
      CellWritesOf(lists[..|lists| - 1], r, e);
    }
  }

  lemma {:induction false} RowWritesOf(lists: seq<seq<Neuron>>, r: nat, fish: string, cells: seq<Option<real>>, upTo: nat)
    requires upTo <= |cells|
    ensures forall w :: w in RowWrites(lists, r, fish, cells, upTo) ==> OfFish(w.event, fish)
    decreases upTo
  {
    if upTo > FirstActivityColumn {
      var c := upTo - 1;
      var prev, col := RowWrites(lists, r, fish, cells, c), ColumnWrites(lists, r, fish, cells, c);
      assert RowWrites(lists, r, fish, cells, upTo) == prev + col;
      RowWritesOf(lists, r, fish, cells, c);
      if cells[c].Some? {
        CellWritesOf(lists, r, Event(fish, c - FirstActivityColumn, Binarise(cells[c].value)));
      }
      ConcatOf(prev, col, fish);
    }
  }

  /** Every write of a signal load carries a 0/1 value for the loaded fish. */
  lemma {:induction false} SignalWritesOf(lists: seq<seq<Neuron>>, rows: seq<seq<Option<real>>>, fish: string, upTo: nat)
    requires upTo <= |rows|
    ensures forall w :: w in SignalWrites(lists, rows, fish, upTo) ==> OfFish(w.event, fish)
    decreases upTo
  {
    if upTo > 0 {
      var prev, row := SignalWrites(lists, rows, fish, upTo - 1), RowWrites(lists, upTo - 1, fish, rows[upTo - 1], |rows[upTo - 1]|);
      assert SignalWrites(lists, rows, fish, upTo) == prev + row;
      SignalWritesOf(lists, rows, fish, upTo - 1);
      RowWritesOf(lists, upTo - 1, fish, rows[upTo - 1], |rows[upTo - 1]|);
      ConcatOf(prev, row, fish);
    }
  }

  lemma ConcatOf(a: seq<Write>, b: seq<Write>, fish: string)
    requires forall w :: w in a ==> OfFish(w.event, fish)
    requires forall w :: w in b ==> OfFish(w.event, fish)
    ensures forall w :: w in a + b ==> OfFish(w.event, fish)
  {
  }

  lemma {:induction false} HitOf(ws: seq<Write>, target: Target, fish: string)
    requires forall w :: w in ws ==> OfFish(w.event, fish)
    ensures forall e :: e in Hit(ws, target) ==> OfFish(e, fish)
    decreases |ws|
  {
    if ws != [] {
      var init := ws[..|ws| - 1];
      assert forall w :: w in init ==> w in ws;
      HitOf(init, target, fish);
    }
  }

  /** Events of one fish leave every other fish's values alone. */
  lemma {:induction false} PutAllOtherFish(st: Store, evs: seq<Event>, fish: string, g: string, t: int)
    requires g != fish && forall e :: e in evs ==> e.fish == fish
    ensures Lookup(PutAll(st, evs), g, t) == Lookup(st, g, t)
    decreases |evs|
  {
    if evs != [] {
      assert forall e :: e in evs[1..] ==> e in evs;
      PutAllOtherFish(Put(st, evs[0].fish, evs[0].time, evs[0].value), evs[1..], fish, g, t);
    }
  }

  /** A store that received only 0/1 values of one fish: it stays 0/1 if it
      was, and no other fish's value changes. */
  lemma StoreAfterLoad(st: Store, evs: seq<Event>, fish: string)
    requires forall e :: e in evs ==> OfFish(e, fish)
    ensures Binary(st) ==> Binary(PutAll(st, evs))
    ensures forall g, t :: g != fish ==> Lookup(PutAll(st, evs), g, t) == Lookup(st, g, t)
  {
    if Binary(st) {
      PutAllBinary(st, evs);
    }
    forall g, t | g != fish
      ensures Lookup(PutAll(st, evs), g, t) == Lookup(st, g, t)
    {
      PutAllOtherFish(st, evs, fish, g, t);
    }
  }

  /** After a load of fish, a tracked neuron's series and a tracked brain's
      totals stay 0/1 if they were, and keep every other fish's values. */
  lemma LoadKeepsOtherFish(s: Scene, lists: seq<seq<Neuron>>, rows: seq<seq<Option<real>>>, fish: string, upTo: nat,
                           n: Neuron, b: Brain)
    requires upTo <= |rows| && n in s.acts && b in s.totals
    ensures n in ReplayScene(s, SignalWrites(lists, rows, fish, upTo)).acts
    ensures b in ReplayScene(s, SignalWrites(lists, rows, fish, upTo)).totals
    ensures Binary(s.acts[n]) ==> Binary(ReplayScene(s, SignalWrites(lists, rows, fish, upTo)).acts[n])
    ensures Binary(s.totals[b]) ==> Binary(ReplayScene(s, SignalWrites(lists, rows, fish, upTo)).totals[b])
    ensures forall g, t :: g != fish ==>
      Lookup(ReplayScene(s, SignalWrites(lists, rows, fish, upTo)).acts[n], g, t) == Lookup(s.acts[n], g, t)
    ensures forall g, t :: g != fish ==>
      Lookup(ReplayScene(s, SignalWrites(lists, rows, fish, upTo)).totals[b], g, t) == Lookup(s.totals[b], g, t)
  {
    var ws := SignalWrites(lists, rows, fish, upTo);
    SignalWritesOf(lists, rows, fish, upTo);
    ReplaySceneNeuron(s, ws, n);
    ReplaySceneBrain(s, ws, b);
    HitOf(ws, OfNeuron(n), fish);
    HitOf(ws, OfBrain(b), fish);
    StoreAfterLoad(s.acts[n], Hit(ws, OfNeuron(n)), fish);
    StoreAfterLoad(s.totals[b], Hit(ws, OfBrain(b)), fish);
  }

  /** With one brain of distinct neurons, the neuron of row r holds, at t, the
      binarised cell of column 10 + t of data row r when that cell parses, and
      its earlier value otherwise. */
  lemma OneBrainLoad(s: Scene, ns: seq<Neuron>, rows: seq<seq<Option<real>>>, fish: string, r: nat, t: int)
    requires r < |ns| && ns[r] in s.acts
    requires forall i, j :: 0 <= i < j < |ns| ==> ns[i] != ns[j]
    ensures ns[r] in ReplayScene(s, SignalWrites([ns], rows, fish, |rows|)).acts
    ensures Lookup(ReplayScene(s, SignalWrites([ns], rows, fish, |rows|)).acts[ns[r]], fish, t) ==
      if r < |rows| && 0 <= t && FirstActivityColumn + t < |rows[r]| && rows[r][FirstActivityColumn + t].Some?
      then Some(Binarise(rows[r][FirstActivityColumn + t].value))
      else Lookup(s.acts[ns[r]], fish, t)
  {
    var ws := SignalWrites([ns], rows, fish, |rows|);
    ReplaySceneNeuron(s, ws, ns[r]);
    SignalWritesOneBrain(ns, rows, fish, |rows|, r);
    if r < |rows| {
      SignalValue(s.acts[ns[r]], fish, rows[r], t);
    }
  }

  // ---------------------------------------------------------------- the loader's state

  datatype SignalOutcome = SignalsLoaded | UnknownFish | NoSignalFile | NoDataLine

  datatype SelectOutcome = LoadStarted(load: SignalOutcome) | AlreadyLoaded | RegionNotFound

  datatype ShowOutcome = Shown | RegionMissing | FishMissing | NoData

  /** The number of data lines a signal file needs before it is read. */
  const MinSignalLines: nat := 2

  class FishLoader {
    /** The loaded brains; Start loads Brain0 before anything else. */
    const brains: seq<Brain>
    /** "Fish" + digits -> signal file name. */
    var fishFileDict: map<string, string>
    var selectedFish: string
    var selectedRegion: string
    /** The timestamp being played back, -1 when none. */
    var currentSignalTimestamp: int

    /** The state Start leaves: nothing selected, nothing playing, and the
        signal files of the data folder keyed by fish. */
    constructor (brains: seq<Brain>, fishFileDict: map<string, string>)
      ensures this.brains == brains && this.fishFileDict == fishFileDict
      ensures selectedFish == "" && selectedRegion == "" && currentSignalTimestamp == -1
    {
      this.brains := brains;
      this.fishFileDict := fishFileDict;
      selectedFish := "";
      selectedRegion := "";
      currentSignalTimestamp := -1;
    }

    /** Read the signal file of fish (files: the data folder, name -> lines)
        into every brain, then refresh every listed region's extremes. */
    method LoadSeizureData(fish: string, files: map<string, seq<string>>) returns (outcome: SignalOutcome)
      requires forall r :: r in AllRegions(brains) ==> r.Valid()
      modifies AllNeurons(brains)`activityList, AllRegions(brains)`sumActivities, AllRegions(brains)`numActivities
      modifies AllBrains(brains)`totalActivityList, ListedRegions(brains)`minActivities, ListedRegions(brains)`maxActivities
      ensures outcome == UnknownFish <==> fish !in fishFileDict
      ensures outcome == NoSignalFile <==> fish in fishFileDict && fishFileDict[fish] !in files
      ensures outcome == NoDataLine <==>
        fish in fishFileDict && fishFileDict[fish] in files && |files[fishFileDict[fish]]| < MinSignalLines
      ensures outcome != SignalsLoaded ==> unchanged(AllNeurons(brains)`activityList, AllRegions(brains)`sumActivities,
        AllRegions(brains)`numActivities, AllBrains(brains)`totalActivityList,
        ListedRegions(brains)`minActivities, ListedRegions(brains)`maxActivities)
      ensures outcome == SignalsLoaded ==>
        Snap(old(AllNeurons(brains)), old(AllRegions(brains)), old(AllBrains(brains))) ==
        ReplayScene(old(Snap(AllNeurons(brains), AllRegions(brains), AllBrains(brains))),
                    FileWrites(old(NeuronLists(brains)), files[fishFileDict[fish]], fish))
      ensures outcome == SignalsLoaded ==>
        forall r :: r in old(ListedRegions(brains)) ==> Refreshed(r, old(r.minActivities), old(r.maxActivities))
      ensures forall r :: r in old(AllRegions(brains)) ==> r.Valid()
    {
      if fish !in fishFileDict {
        return UnknownFish;
      }
      var fishFile := fishFileDict[fish];
      if fishFile !in files {
        return NoSignalFile;
      }
      var lines := files[fishFile];
      if |lines| < MinSignalLines {
        return NoDataLine;
      }
      ReadSignalFile(fish, lines);
      outcome := SignalsLoaded;
    }

    /** The loaded branch of LoadSeizureData: replay the data rows of lines
        for fish into every brain, then refresh the listed regions' extremes. */
    method ReadSignalFile(fish: string, lines: seq<string>)
      requires lines != [] && forall r :: r in AllRegions(brains) ==> r.Valid()
      modifies AllNeurons(brains)`activityList, AllRegions(brains)`sumActivities, AllRegions(brains)`numActivities
      modifies AllBrains(brains)`totalActivityList, ListedRegions(brains)`minActivities, ListedRegions(brains)`maxActivities
      ensures Snap(old(AllNeurons(brains)), old(AllRegions(brains)), old(AllBrains(brains))) ==
        ReplayScene(old(Snap(AllNeurons(brains), AllRegions(brains), AllBrains(brains))), FileWrites(old(NeuronLists(brains)), lines, fish))
      ensures forall r :: r in old(ListedRegions(brains)) ==> Refreshed(r, old(r.minActivities), old(r.maxActivities))
      ensures forall r :: r in old(AllRegions(brains)) ==> r.Valid()
    {
      ghost var ns, rs, bs := AllNeurons(brains), AllRegions(brains), AllBrains(brains);
      ghost var lists, ss, listed := NeuronLists(brains), RegionSets(brains), ListedRegions(brains);
      ListedRegionsUnion(brains, |brains|);
      assert brains[..|brains|] == brains && ss[..|brains|] == ss;
      AllWired(brains);
      ReadSignals(brains, fish, lines, lists, ns, rs, bs, ss, listed);
    }

    /** Load fish's signals unless brain 0 already holds them; the region name
        must be one of brain 0's. */
    method GetSelectedSeizureData(regionName: string, fish: string, files: map<string, seq<string>>)
      returns (outcome: SelectOutcome)
      requires brains != [] && forall r :: r in AllRegions(brains) ==> r.Valid()
      modifies AllNeurons(brains)`activityList, AllRegions(brains)`sumActivities, AllRegions(brains)`numActivities
      modifies AllBrains(brains)`totalActivityList, ListedRegions(brains)`minActivities, ListedRegions(brains)`maxActivities
      ensures outcome == AlreadyLoaded <==> fish in old(brains[0].totalActivityList)
      ensures outcome == RegionNotFound <==> fish !in old(brains[0].totalActivityList) && regionName !in brains[0].regions
      ensures outcome.LoadStarted? ==> (outcome.load == SignalsLoaded <==>
        fish in fishFileDict && fishFileDict[fish] in files && |files[fishFileDict[fish]]| >= MinSignalLines)
      ensures outcome != LoadStarted(SignalsLoaded) ==> unchanged(AllNeurons(brains)`activityList, AllRegions(brains)`sumActivities,
        AllRegions(brains)`numActivities, AllBrains(brains)`totalActivityList,
        ListedRegions(brains)`minActivities, ListedRegions(brains)`maxActivities)
      ensures outcome == LoadStarted(SignalsLoaded) ==>
        Snap(old(AllNeurons(brains)), old(AllRegions(brains)), old(AllBrains(brains))) ==
        ReplayScene(old(Snap(AllNeurons(brains), AllRegions(brains), AllBrains(brains))),
                    FileWrites(old(NeuronLists(brains)), files[fishFileDict[fish]], fish))
      ensures outcome == LoadStarted(SignalsLoaded) ==>
        forall r :: r in old(ListedRegions(brains)) ==> Refreshed(r, old(r.minActivities), old(r.maxActivities))
      ensures forall r :: r in old(AllRegions(brains)) ==> r.Valid()
    {
      if fish in brains[0].totalActivityList {
        return AlreadyLoaded;
      }
      if regionName !in brains[0].regions {
        return RegionNotFound;
      }
      var load := LoadSeizureData(fish, files);
      outcome := LoadStarted(load);
    }

    /** Pick a fish; once a region is picked too, its signals are loaded. */
    method SetSelectedFish(fishName: string, files: map<string, seq<string>>) returns (outcome: Option<SelectOutcome>)
      requires brains != [] && forall r :: r in AllRegions(brains) ==> r.Valid()
      modifies this`selectedFish
      modifies AllNeurons(brains)`activityList, AllRegions(brains)`sumActivities, AllRegions(brains)`numActivities
      modifies AllBrains(brains)`totalActivityList, ListedRegions(brains)`minActivities, ListedRegions(brains)`maxActivities
      ensures selectedFish == fishName
      ensures outcome.None? <==> fishName == "" || selectedRegion == ""
      ensures outcome == Some(AlreadyLoaded) <==>
        fishName != "" && selectedRegion != "" && fishName in old(brains[0].totalActivityList)
      ensures outcome == Some(RegionNotFound) <==>
        fishName != "" && selectedRegion != "" && fishName !in old(brains[0].totalActivityList)
        && selectedRegion !in brains[0].regions
      ensures outcome == Some(LoadStarted(SignalsLoaded)) <==>
        fishName != "" && selectedRegion != "" && fishName !in old(brains[0].totalActivityList)
        && selectedRegion in brains[0].regions
        && fishName in fishFileDict && fishFileDict[fishName] in files && |files[fishFileDict[fishName]]| >= MinSignalLines
      ensures outcome == Some(LoadStarted(SignalsLoaded)) ==>
        Snap(old(AllNeurons(brains)), old(AllRegions(brains)), old(AllBrains(brains))) ==
        ReplayScene(old(Snap(AllNeurons(brains), AllRegions(brains), AllBrains(brains))),
                    FileWrites(old(NeuronLists(brains)), files[fishFileDict[fishName]], fishName))
      ensures forall r :: r in old(AllRegions(brains)) ==> r.Valid()
    {
      selectedFish := fishName;
      assert AllNeurons(brains) == old(AllNeurons(brains)) && AllBrains(brains) == old(AllBrains(brains));
      assert AllRegions(brains) == old(AllRegions(brains)) && ListedRegions(brains) == old(ListedRegions(brains));
      assert NeuronLists(brains) == old(NeuronLists(brains));
      assert Snap(AllNeurons(brains), AllRegions(brains), AllBrains(brains))
          == old(Snap(AllNeurons(brains), AllRegions(brains), AllBrains(brains)));
      if fishName == "" || selectedRegion == "" {
        return None;
      }
      var r := GetSelectedSeizureData(selectedRegion, fishName, files);
      outcome := Some(r);
    }

    /** Pick a region of brain 0; an unknown name fails the lookup and leaves
        the selection as it was. */
    method SetSelectedRegion(regionName: string) returns (outcome: Outcome)
      requires brains != []
      modifies this`selectedRegion
      ensures outcome == KeyNotFound <==> regionName !in brains[0].regions
      ensures selectedRegion == if outcome == Done then regionName else old(selectedRegion)
    {
      if regionName !in brains[0].regions {
        return KeyNotFound;
      }
      selectedRegion := regionName;
      outcome := Done;
    }

    /** Play the selected fish on the selected region of brain 0 from start,
        for duration timestamps (all of them when duration is not positive). */
    method ShowSeizureData(start: int, duration: int) returns (outcome: ShowOutcome, ghost shown: seq<int>)
      requires brains != []
      modifies this`currentSignalTimestamp, RegionNeurons(brains)`isActive, RegionSpheres(brains)`lit
      ensures outcome == RegionMissing <==> selectedRegion !in brains[0].regions
      ensures outcome == FishMissing <==>
        selectedRegion in brains[0].regions && selectedFish !in brains[0].regions[selectedRegion].sumActivities
      ensures outcome == NoData <==>
        selectedRegion in brains[0].regions && selectedFish in brains[0].regions[selectedRegion].sumActivities
        && |brains[0].regions[selectedRegion].sumActivities[selectedFish]| < 1
      ensures outcome == NoData ==> !brains[0].regions[selectedRegion].Valid()
      ensures outcome != Shown ==> currentSignalTimestamp == old(currentSignalTimestamp)
      ensures outcome != Shown ==> forall n :: n in RegionNeurons(brains) ==> n.isActive == old(n.isActive)
      ensures outcome != Shown ==> forall s :: s in RegionSpheres(brains) ==> s.lit == old(s.lit)
      ensures outcome == Shown ==> forall n :: n in RegionNeurons(brains) && n !in brains[0].regions[selectedRegion].neurons ==>
        n.isActive == old(n.isActive)
      ensures outcome == Shown ==> forall s :: s in RegionSpheres(brains) && s !in Spheres(brains[0].regions[selectedRegion].neurons) ==>
        s.lit == old(s.lit)
      ensures outcome == Shown ==>
        var region := brains[0].regions[selectedRegion];
        && selectedFish in region.sumActivities
        && shown == Steps(start, WindowEnd(start, duration, |region.sumActivities[selectedFish]|), 1)
        && Shows(region.neurons, selectedFish, Last(shown))
        && currentSignalTimestamp == -1
    {
      shown := [];
      if selectedRegion !in brains[0].regions {
        return RegionMissing, shown;
      }
      var region := brains[0].regions[selectedRegion];
      if selectedFish !in region.sumActivities {
        return FishMissing, shown;
      }
      if |region.sumActivities[selectedFish]| < 1 {
        return NoData, shown;
      }
      RegionNeuronsOf(brains, region);
      shown := StepThroughSeizureData(region, selectedFish, start, duration, 1);
      outcome := Shown;
    }

    /** Switch every neuron of region off, then show fish at start, start +
        skipSize, ... below the end of the window, each timestamp switching
        off the neurons the previous one lit. */
    method StepThroughSeizureData(region: Region, fish: string, start: int, duration: int, skipSize: int)
      returns (ghost shown: seq<int>)
      requires fish in region.sumActivities && skipSize > 0
      modifies this`currentSignalTimestamp, region.neurons`isActive, Spheres(region.neurons)`lit
      ensures shown == Steps(start, WindowEnd(start, duration, |region.sumActivities[fish]|), skipSize)
      ensures Shows(region.neurons, fish, Last(shown))
      ensures currentSignalTimestamp == -1
    {
      var rn := region.neurons;
      var numTimestamps := |region.sumActivities[fish]|;
      DeactivateEach(rn, rn);
      var end := WindowEnd(start, duration, numTimestamps);
      var activeNeurons: seq<Neuron> := [];
      shown := [];
      var col := start;
      while col < end
        invariant shown + Steps(col, end, skipSize) == Steps(start, end, skipSize)
        invariant forall n :: n in activeNeurons ==> n in rn
        invariant forall n :: n in rn && n.isActive ==> n in activeNeurons
        invariant Shows(rn, fish, Last(shown))
        decreases end - col
      {
        StepsNext(shown, start, col, end, skipSize);
        currentSignalTimestamp := col;
        activeNeurons := ShowTimestamp(region, activeNeurons, fish, col);
        shown := shown + [col];
        col := col + skipSize;
      }
      currentSignalTimestamp := -1;
    }
  }

  /** The data rows of a signal file (lines, header first) replayed into
      every brain, then every listed region's extremes refreshed. The
      tracked objects come as ghost sets: ns, rs and bs wired to the brains,
      ss each brain's regions and listed their union. */
  method ReadSignals(brains: seq<Brain>, fish: string, lines: seq<string>, ghost lists: seq<seq<Neuron>>,
                     ghost ns: set<Neuron>, ghost rs: set<Region>, ghost bs: set<Brain>,
                     ghost ss: seq<set<Region>>, ghost listed: set<Region>)
    requires lines != []
    requires Wired(brains, lists, ns, rs, bs) && forall r :: r in rs ==> r.Valid()
    requires |ss| == |brains| && (forall k :: 0 <= k < |brains| ==> ss[k] == brains[k].regions.Values)
    requires listed == UnionOf(ss) && listed <= rs
    modifies ns`activityList, rs`sumActivities, rs`numActivities, bs`totalActivityList
    modifies listed`minActivities, listed`maxActivities
    ensures Snap(ns, rs, bs) == ReplayScene(old(Snap(ns, rs, bs)), FileWrites(lists, lines, fish))
    ensures forall r :: r in listed ==> Refreshed(r, old(r.minActivities), old(r.maxActivities))
    ensures forall r :: r in rs ==> r.Valid()
  {
    ghost var s0 := Snap(ns, rs, bs);
    SnapOk(ns, rs, bs);
    ReplaySignals(brains, lists, lines, fish, ns, rs, bs);
    ReplaySceneOk(s0, FileWrites(lists, lines, fish));
    SnapOk(ns, rs, bs);
    ghost var scene := Snap(ns, rs, bs);
    UpdateAllMinMax(brains, ss, listed);
    assert Snap(ns, rs, bs) == scene;
  }

  // ---------------------------------------------------------------- playback

  /** The end of a playback window: start + duration when duration is
      positive and that falls inside the data, the number of timestamps
      otherwise. */
  function WindowEnd(start: int, duration: int, numTimestamps: int): (end: int)
    ensures end <= numTimestamps
    ensures duration > 0 ==> end <= start + duration
    ensures end == numTimestamps || end == start + duration
    ensures duration <= 0 ==> end == numTimestamps
  {
    if duration > 0 && start + duration < numTimestamps then start + duration else numTimestamps
  }

  /** start, start + skip, ... below end. */
  function Steps(start: int, end: int, skip: int): (ts: seq<int>)
    requires skip > 0
    ensures forall i :: 0 <= i < |ts| ==> start <= ts[i] < end
    decreases end - start
  {
    if start >= end then [] else [start] + Steps(start + skip, end, skip)
  }

  /** One more timestamp shown keeps shown a prefix of the whole run. */
  lemma StepsNext(shown: seq<int>, start: int, col: int, end: int, skip: int)
    requires skip > 0 && col < end && shown + Steps(col, end, skip) == Steps(start, end, skip)
    ensures shown + [col] + Steps(col + skip, end, skip) == Steps(start, end, skip)
  {
    var rest := Steps(col + skip, end, skip);
    assert Steps(col, end, skip) == [col] + rest;
    assert shown + [col] + rest == shown + ([col] + rest);
  }

  function Last(ts: seq<int>): Option<int> {
    if ts == [] then None else Some(ts[|ts| - 1])
  }

  /** The timestamps played run from start in steps of skip, and stop at the
      first one that reaches end. */
  lemma {:induction false} StepsSpec(start: int, end: int, skip: int)
    requires skip > 0
    ensures Steps(start, end, skip) != [] <==> start < end
    ensures Steps(start, end, skip) != [] ==> Steps(start, end, skip)[0] == start
    ensures forall i :: 0 <= i < |Steps(start, end, skip)| - 1 ==>
      Steps(start, end, skip)[i + 1] == Steps(start, end, skip)[i] + skip
    ensures Steps(start, end, skip) != [] ==> Steps(start, end, skip)[|Steps(start, end, skip)| - 1] + skip >= end
    decreases end - start
  {
    if start < end {
      var rest := Steps(start + skip, end, skip);
      StepsSpec(start + skip, end, skip);
      assert Steps(start, end, skip) == [start] + rest;
    }
  }

  /** With a step of one (the playback ShowSeizureData starts), every
      timestamp from start below end is shown, in order. */
  lemma {:induction false} StepsByOne(start: int, end: int)
    ensures |Steps(start, end, 1)| == if start < end then end - start else 0
    ensures forall i :: 0 <= i < |Steps(start, end, 1)| ==> Steps(start, end, 1)[i] == start + i
    decreases end - start
  {
    if start < end {
      StepsByOne(start + 1, end);
      assert Steps(start, end, 1) == [start] + Steps(start + 1, end, 1);
    }
  }

  /** Playback lights a neuron at t when GetActiveNeurons picks it (a value
      of at least 0.5) and SetActiveState then finds a positive value. */
  predicate Lit(n: Neuron, f: string, t: int)
    reads n`activityList
  {
    n.ReachesThreshold(f, t, 0.5) && Activation(n.activityList, f, t) == Some(true)
  }

  /** A neuron is lit exactly when its value at t is at least 0.5 and t is
      below the number of entries of its series: a series with gaps hides its
      last values. */
  lemma LitSpec(n: Neuron, f: string, t: int)
    ensures Lit(n, f, t) <==>
      Lookup(n.activityList, f, t).Some? && Lookup(n.activityList, f, t).value >= 0.5 && t < |n.activityList[f]|
  {
  }

  /** For a 0/1 series with entries 0 .. count - 1 (a fully parsed signal
      row), a neuron is lit at t exactly when its value there is 1. */
  lemma LitDense(n: Neuron, f: string, t: int)
    requires f in n.activityList && Binary(n.activityList)
    requires forall u :: u in n.activityList[f] <==> 0 <= u < |n.activityList[f]|
    ensures Lit(n, f, t) <==> Lookup(n.activityList, f, t) == Some(1.0)
  {
  }

  /** Every neuron of ns shows as active exactly when it is lit at t, or none
      does when nothing is shown. */
  predicate Shows(ns: seq<Neuron>, f: string, t: Option<int>)
    reads ns`isActive, ns`activityList
  {
    forall n :: n in ns ==> (n.isActive <==> t.Some? && Lit(n, f, t.value))
  }

  function Spheres(ns: seq<Neuron>): set<HighlightSphere> {
    set n | n in ns :: n.highlightSphere
  }

  /** Every neuron filed in a region of one of the brains. */
  function RegionNeurons(brains: seq<Brain>): set<Neuron>
    reads brains`regions, ListedRegions(brains)`neurons
  {
    set r, n | r in ListedRegions(brains) && n in r.neurons :: n
  }

  /** Their highlight spheres. */
  function RegionSpheres(brains: seq<Brain>): set<HighlightSphere>
    reads brains`regions, ListedRegions(brains)`neurons
  {
    set n | n in RegionNeurons(brains) :: n.highlightSphere
  }

  lemma RegionNeuronsOf(brains: seq<Brain>, region: Region)
    requires brains != [] && region in brains[0].regions.Values
    ensures forall n :: n in region.neurons ==> n in RegionNeurons(brains)
    ensures Spheres(region.neurons) <= RegionSpheres(brains)
  {
    ListedRegionsPrefix(brains, 0);
  }

  /** Deactivate each neuron of ns, all of which are among rn. */
  method DeactivateEach(ns: seq<Neuron>, ghost rn: seq<Neuron>)
    requires forall n :: n in ns ==> n in rn
    modifies rn`isActive, Spheres(rn)`lit
    ensures forall n :: n in rn ==> n.isActive == (old(n.isActive) && n !in ns)
  {
    var i := 0;
    while i < |ns|
      invariant 0 <= i <= |ns|
      invariant forall n :: n in rn ==> n.isActive == (old(n.isActive) && n !in ns[..i])
    {
      assert ns[..i + 1] == ns[..i] + [ns[i]];
      assert ns[i] in rn;
      assert ns[i].highlightSphere in Spheres(rn);
      ns[i].Deactivate();
      i := i + 1;
    }
    assert ns[..i] == ns;
  }

  /** One timestamp of playback: switch off the neurons lit before (prev),
      pick the region's neurons at or above 0.5 at t and set each one's
      state from its value. */
  method ShowTimestamp(region: Region, prev: seq<Neuron>, f: string, t: int) returns (active: seq<Neuron>)
    requires forall n :: n in prev ==> n in region.neurons
    requires forall n :: n in region.neurons && n.isActive ==> n in prev
    modifies region.neurons`isActive, Spheres(region.neurons)`lit
    ensures active == ActiveAmong(region.neurons, f, t, 0.5)
    ensures Shows(region.neurons, f, Some(t))
    ensures forall n :: n in active ==> n in region.neurons
    ensures forall n :: n in region.neurons && n.isActive ==> n in active
  {
    ghost var rn := region.neurons;
    DeactivateEach(prev, rn);
    active := region.GetActiveNeurons(f, t);
    forall n | n in rn || n in active
      ensures n in active <==> n in rn && n.ReachesThreshold(f, t, 0.5)
    {
      ActiveAmongMembers(rn, f, t, 0.5, n);
    }
    SetEachActiveState(active, rn, f, t);
  }

  /** Let SetActiveState switch each neuron of active (all of them at or above
      0.5 at t, so every lookup finds its value) on or off. */
  method SetEachActiveState(active: seq<Neuron>, ghost rn: seq<Neuron>, f: string, t: int)
    requires forall n :: n in active ==> n in rn && n.ReachesThreshold(f, t, 0.5)
    requires forall n :: n in rn ==> !n.isActive
    modifies rn`isActive, Spheres(rn)`lit
    ensures forall n :: n in rn ==> (n.isActive <==> n in active && Activation(n.activityList, f, t) == Some(true))
  {
    var j := 0;
    while j < |active|
      invariant 0 <= j <= |active|
      invariant forall n :: n in rn ==> (n.isActive <==> n in active[..j] && Activation(n.activityList, f, t) == Some(true))
    {
      var n := active[j];
      assert active[..j + 1] == active[..j] + [n];
      assert n.highlightSphere in Spheres(rn);
      var outcome := n.SetActiveState(f, t);
      assert outcome == Done;
      j := j + 1;
    }
    assert active[..j] == active;
  }
}
