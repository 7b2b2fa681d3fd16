/** The scene objects that hold the brain model: a Brain owns Regions and
    Neurons, every Neuron belongs to one Region and one Brain, and all three keep
    per-fish activity. Fields the code never reassigns after creating an object
    are constants here; the rest are mutable fields with field-level frames. */
module BrainComponents {
  import opened Geometry
  import opened Text
  import opened TimeSeries

  /** The set of feature names attached to a neuron. */
  class FeatureData {
    var activeFeatures: set<string>

    constructor ()
      ensures activeFeatures == {}
    {
      activeFeatures := {};
    }

    predicate IsFeatureActive(featureName: string)
      reads this
    {
      featureName in activeFeatures
    }

    method AddFeature(featureName: string)
      modifies this`activeFeatures
      ensures activeFeatures == old(activeFeatures) + {featureName}
      ensures IsFeatureActive(featureName)
      ensures forall g :: g != featureName ==> (IsFeatureActive(g) <==> old(IsFeatureActive(g)))
    {
      activeFeatures := activeFeatures + {featureName};
    }
  }

  /** The highlight around a neuron, reduced to whether it is shown. */
  class HighlightSphere {
    var lit: bool

    constructor ()
      ensures !lit
    {
      lit := false;
    }

    method TurnOn()
      modifies this`lit
      ensures lit
    {
      lit := true;
    }

    method TurnOff()
      modifies this`lit
      ensures !lit
    {
      lit := false;
    }
  }

  /** The box a neuron's sphere renders into: a cube of side activeNeuronSize
      around its position. */
  function SphereBounds(p: Vec3, size: real): (r: Box)
    ensures size >= 0.0 ==> r.Contains(p)
  {
    var h := size / 2.0;
    Box(Vec3(p.x - h, p.y - h, p.z - h), Vec3(p.x + h, p.y + h, p.z + h))
  }

  /** A value meant for the activated state of a neuron. */
  function Activation(a: Store, f: string, t: int): Option<bool>
  {
    if f in a && t < |a[f]| then
      if t in a[f] then Some(a[f][t] > 0.0) else None
    else Some(false)
  }

  /** Whether a neuron should show as active at t: the value stored there is
      positive. */
  function ActivationByKey(a: Store, f: string, t: int): (r: bool)
    ensures r <==> Lookup(a, f, t).Some? && Lookup(a, f, t).value > 0.0
  {
    f in a && t in a[f] && a[f][t] > 0.0
  }

  datatype Outcome = Done | KeyNotFound

  class Neuron {
    const neuronIdx: int
    const originalPosition: Vec3
    const color: Color
    const subregion: string
    const neuronLabel: string
    const highlightSphere: HighlightSphere
    const brain: Brain
    const region: Region
    const featureData: FeatureData
    const inactiveNeuronSize: real
    const activeNeuronSize: real
    var activityList: Store
    var isActive: bool
    var wasActive: bool

    /** Every series the neuron holds has at least one entry (which is how
        AddActivity creates them). */
    predicate Valid()
      reads this
    {
      AllSeriesNonEmpty(activityList)
    }

    constructor (neuronIdx: int, originalPosition: Vec3, color: Color, subregion: string, neuronLabel: string,
                 brain: Brain, region: Region, highlightSphere: HighlightSphere, featureData: FeatureData,
                 inactiveNeuronSize: real, activeNeuronSize: real, isActive: bool)
      ensures this.neuronIdx == neuronIdx && this.originalPosition == originalPosition && this.color == color
      ensures this.subregion == subregion && this.neuronLabel == neuronLabel
      ensures this.brain == brain && this.region == region
      ensures this.highlightSphere == highlightSphere && this.featureData == featureData
      ensures this.inactiveNeuronSize == inactiveNeuronSize && this.activeNeuronSize == activeNeuronSize
      ensures activityList == map[] && this.isActive == isActive && !wasActive
      ensures Valid()
    {
      this.neuronIdx := neuronIdx;
      this.originalPosition := originalPosition;
      this.color := color;
      this.subregion := subregion;
      this.neuronLabel := neuronLabel;
      this.brain := brain;
      this.region := region;
      this.highlightSphere := highlightSphere;
      this.featureData := featureData;
      this.inactiveNeuronSize := inactiveNeuronSize;
      this.activeNeuronSize := activeNeuronSize;
      activityList := map[];
      this.isActive := isActive;
      wasActive := false;
    }

    /** renderer.bounds once the neuron has been placed and scaled. */
    function RenderBounds(): Box {
      SphereBounds(originalPosition, activeNeuronSize)
    }

    /** The neuron's value for fish f at t is at least the threshold. */
    predicate ReachesThreshold(f: string, t: int, threshold: real)
      reads this`activityList
    {
      f in activityList && t in activityList[f] && activityList[f][t] >= threshold
    }

    /** An inspector edit of isActive is applied to the highlight once. */
    method OnValidate()
      modifies this`wasActive, highlightSphere`lit
      ensures wasActive == isActive
      ensures old(isActive != wasActive) ==> highlightSphere.lit == isActive
      ensures old(isActive == wasActive) ==> highlightSphere.lit == old(highlightSphere.lit)
    {
      if isActive != wasActive {
        if isActive {
          highlightSphere.TurnOn();
        } else {
          highlightSphere.TurnOff();
        }
        wasActive := isActive;
      }
    }

    method Activate()
      modifies this`isActive, highlightSphere`lit
      ensures isActive && highlightSphere.lit
    {
      isActive := true;
      highlightSphere.TurnOn();
    }

    method Deactivate()
      modifies this`isActive, highlightSphere`lit
      ensures !isActive && !highlightSphere.lit
    {
      isActive := false;
      highlightSphere.TurnOff();
    }

    /** Record value v for fish f at t in the neuron (overwriting), its region
        (summing and counting) and its brain (overwriting). */
    method AddActivity(f: string, v: real, t: int)
      requires region.Valid()
      modifies this`activityList, region`sumActivities, region`numActivities, brain`totalActivityList
      ensures activityList == Put(old(activityList), f, t, v)
      ensures region.Tally() == Accumulate(old(region.Tally()), f, t, v)
      ensures brain.totalActivityList == Put(old(brain.totalActivityList), f, t, v)
      ensures region.Valid()
      ensures old(Valid()) ==> Valid()
    {
      activityList := Put(activityList, f, t, v);
      region.AddActivity(f, t, v);
      brain.AddActivity(f, t, v);
    }

    /** Show the neuron as active at t exactly when its value there is
        positive. The guard compares t with the number of entries of the series
        rather than testing for the key, so a series with a gap either hides a
        positive value or fails the lookup; Activation states that reading. */
    method SetActiveState(f: string, t: int) returns (outcome: Outcome)
      modifies this`isActive, highlightSphere`lit
      ensures outcome == KeyNotFound <==> Activation(activityList, f, t).None?
      ensures outcome == Done ==> isActive == Activation(activityList, f, t).value
      ensures outcome == Done ==> highlightSphere.lit == isActive
      ensures outcome == KeyNotFound ==> isActive == old(isActive) && highlightSphere.lit == old(highlightSphere.lit)
    {
      if f in activityList && t < |activityList[f]| {
        if t !in activityList[f] {
          return KeyNotFound;
        }
        var activityValue := activityList[f][t];
        if activityValue > 0.0 {
          Activate();
          return Done;
        }
      }
      Deactivate();
      return Done;
    }

    /** SetActiveState with the guard testing for the key. */
    method SetActiveStateByKey(f: string, t: int)
      modifies this`isActive, highlightSphere`lit
      ensures isActive == ActivationByKey(activityList, f, t)
      ensures highlightSphere.lit == isActive
    {
      if f in activityList && t in activityList[f] && activityList[f][t] > 0.0 {
        Activate();
      } else {
        Deactivate();
      }
    }

    /** A clone placed at newPosition in newBrain, coloured newColor when one is
        given. The clone keeps the original's region and shares its highlight
        sphere; it starts with no activity and a fresh, empty feature set. */
    method CopyNeuron(newBrain: Brain, newPosition: Vec3, newColor: Option<Color>) returns (c: Neuron)
      ensures fresh(c) && fresh(c.featureData)
      ensures c.neuronIdx == neuronIdx && c.originalPosition == newPosition
      ensures c.color == (if newColor.Some? then newColor.value else color)
      ensures c.subregion == subregion && c.neuronLabel == neuronLabel
      ensures c.brain == newBrain && c.region == region && c.highlightSphere == highlightSphere
      ensures c.inactiveNeuronSize == inactiveNeuronSize && c.activeNeuronSize == activeNeuronSize
      ensures c.activityList == map[] && c.isActive == isActive && c.featureData.activeFeatures == {}
    {
      var features := new FeatureData();
      var newColour := if newColor.Some? then newColor.value else color;
      c := new Neuron(neuronIdx, newPosition, newColour, subregion, neuronLabel, newBrain, region,
                      highlightSphere, features, inactiveNeuronSize, activeNeuronSize, isActive);
    }

    /** Replace the neuron's activity by the original's, replaying each entry
        through AddActivity in some order. The neuron ends with exactly the
        original's activity (nothing when the original is this neuron), its
        region has each replayed value added and counted once, and its brain
        has each replayed value written. */
    method CopyActivityData(orig: Neuron) returns (ghost order: seq<Event>)
      requires region.Valid() && orig.Valid()
      modifies this`activityList, region`sumActivities, region`numActivities, brain`totalActivityList
      ensures Enumerates(order, if orig == this then map[] else old(orig.activityList))
      ensures activityList == if orig == this then map[] else old(orig.activityList)
      ensures region.Tally() == AddAll(old(region.Tally()), order)
      ensures brain.totalActivityList == PutAll(old(brain.totalActivityList), order)
      ensures region.Valid()
    {
      ghost var tally0, total0 := region.Tally(), brain.totalActivityList;
      activityList := map[];
      var src := orig.activityList;
      assert src == if orig == this then map[] else old(orig.activityList);
      order := [];
      var fishLeft := src.Keys;
      ghost var last := "";
      EnumeratesStart(src, last);
      while fishLeft != {}
        invariant fishLeft <= src.Keys
        invariant EnumeratesExcept(order, src, fishLeft, last, {})
        invariant activityList == PutAll(map[], order)
        invariant region.Tally() == AddAll(tally0, order)
        invariant brain.totalActivityList == PutAll(total0, order)
        invariant region.Valid()
        decreases |fishLeft|
      {
        if forall k :: k !in fishLeft {
          assert false;
        }
        var f :| f in fishLeft;
        EnumeratesNextFish(order, src, fishLeft, last, f);
        fishLeft := fishLeft - {f};
        order := ReplaySeries(f, src[f], src, fishLeft, tally0, total0, order);
        last := f;
      }
      EnumeratesDone(order, src, last);
      PutAllEnumeration(src, order);
    }

    /** The inner loop of CopyActivityData: replay every entry of fish f's
        series through AddActivity, extending the replay done so far. */
    method ReplaySeries(f: string, series: Series, ghost src: Store, ghost fishLeft: set<string>,
                        ghost tally0: TimeSeries.Tally, ghost total0: Store, ghost done: seq<Event>)
      returns (ghost order: seq<Event>)
      requires f in src && f !in fishLeft && series == src[f]
      requires EnumeratesExcept(done, src, fishLeft, f, series.Keys)
      requires Consistent(tally0) && region.Valid()
      requires activityList == PutAll(map[], done)
      requires region.Tally() == AddAll(tally0, done)
      requires brain.totalActivityList == PutAll(total0, done)
      modifies this`activityList, region`sumActivities, region`numActivities, brain`totalActivityList
      ensures EnumeratesExcept(order, src, fishLeft, f, {})
      ensures activityList == PutAll(map[], order)
      ensures region.Tally() == AddAll(tally0, order)
      ensures brain.totalActivityList == PutAll(total0, order)
      ensures region.Valid()
    {
      order := done;
      var timesLeft := series.Keys;
      while timesLeft != {}
        invariant timesLeft <= series.Keys
        invariant EnumeratesExcept(order, src, fishLeft, f, timesLeft)
        invariant activityList == PutAll(map[], order)
        invariant region.Tally() == AddAll(tally0, order)
        invariant brain.totalActivityList == PutAll(total0, order)
        invariant region.Valid()
        decreases |timesLeft|
      {
        if forall k :: k !in timesLeft {
          assert false;
        }
        var t :| t in timesLeft;
        var e := Event(f, t, series[t]);
        EnumeratesNextTime(order, src, fishLeft, f, timesLeft, t);
        PutAllSnoc(map[], order, e);
        AddAllSnoc(tally0, order, e);
        PutAllSnoc(total0, order, e);
        AddActivity(f, series[t], t);
        order := order + [e];
        timesLeft := timesLeft - {t};
      }
    }
  }

  class Region {
    const name: string
    const color: Color
    const brain: Brain
    var neurons: seq<Neuron>
    var bounds: Box
    var sumActivities: Store
    var numActivities: map<string, real>
    var minActivities: map<string, real>
    var maxActivities: map<string, real>

    constructor (name: string, color: Color, brain: Brain)
      ensures this.name == name && this.color == color && this.brain == brain
      ensures neurons == [] && bounds == DefaultBox
      ensures sumActivities == map[] && numActivities == map[] && minActivities == map[] && maxActivities == map[]
      ensures Valid()
    {
      this.name := name;
      this.color := color;
      this.brain := brain;
      neurons := [];
      bounds := DefaultBox;
      sumActivities := map[];
      numActivities := map[];
      minActivities := map[];
      maxActivities := map[];
    }

    function Tally(): TimeSeries.Tally
      reads this`sumActivities, this`numActivities
    {
      TimeSeries.Tally(sumActivities, numActivities)
    }

    /** The sum and count stores know the same fish, and every sum series has
        an entry. */
    predicate Valid()
      reads this`sumActivities, this`numActivities
    {
      Consistent(Tally()) && AllSeriesNonEmpty(sumActivities)
    }

    /** Every fish's minimum and maximum are those of its current sums. */
    ghost predicate MinMaxCurrent()
      reads this
    {
      ExtremesCurrent(sumActivities, minActivities, maxActivities)
    }

    method AddActivity(f: string, t: int, v: real)
      requires Valid()
      modifies this`sumActivities, this`numActivities
      ensures Tally() == Accumulate(old(Tally()), f, t, v)
      ensures Valid()
    {
      var r := Accumulate(Tally(), f, t, v);
      sumActivities, numActivities := r.sum, r.count;
    }

    /** Set each fish's minimum and maximum to those of its sums; a second call
        changes nothing. */
    method UpdateMinMax()
      requires Valid()
      modifies this`minActivities, this`maxActivities
      ensures ExtremesUpdated(sumActivities, old(minActivities), old(maxActivities), minActivities, maxActivities)
      ensures MinMaxCurrent()
    {
      minActivities, maxActivities := UpdateExtremes(sumActivities, minActivities, maxActivities);
    }

    /** Append the neuron; the first one resets the bounds to its position, and
        every one grows the bounds to take in its rendered box. */
    method AddNeuron(n: Neuron)
      modifies this`neurons, this`bounds
      ensures neurons == old(neurons) + [n]
      ensures bounds == EncapsulateBox(if old(neurons) == [] then PointBox(n.originalPosition) else old(bounds), n.RenderBounds())
      ensures old(neurons) != [] ==> bounds.Includes(old(bounds))
      ensures old(BoundsCover()) ==> BoundsCover()
    {
      CoverSnoc(neurons, bounds, n);
      neurons := neurons + [n];
      if |neurons| == 1 {
        bounds := PointBox(n.originalPosition);
      }
      bounds := EncapsulateBox(bounds, n.RenderBounds());
    }

    /** The bounds take in the rendered box of every neuron. */
    ghost predicate BoundsCover()
      reads this`bounds, this`neurons
    {
      Covers(bounds, neurons)
    }

    /** The neurons whose value for fish f at t is at least the threshold, in
        list order. */
    method GetActiveNeurons(f: string, t: int, threshold: real := 0.5) returns (r: seq<Neuron>)
      ensures r == ActiveAmong(neurons, f, t, threshold)
    {
      r := [];
      var i := 0;
      while i < |neurons|
        invariant 0 <= i <= |neurons|
        invariant r == ActiveAmong(neurons[..i], f, t, threshold)
      {
        assert neurons[..i + 1][..i] == neurons[..i];
        var n := neurons[i];
        if f in n.activityList && t in n.activityList[f] && n.activityList[f][t] >= threshold {
          r := r + [n];
        }
        i := i + 1;
      }
      assert neurons[..i] == neurons;
    }
  }

  /** The neurons of ns that reach the threshold for fish f at t, in order. */
  function ActiveAmong(ns: seq<Neuron>, f: string, t: int, threshold: real): seq<Neuron>
    reads ns`activityList
  {
    if ns == [] then []
    else
      var last := ns[|ns| - 1];
      ActiveAmong(ns[..|ns| - 1], f, t, threshold) + (if last.ReachesThreshold(f, t, threshold) then [last] else [])
  }

  /** A neuron is returned exactly when it is in the list and reaches the threshold. */
  lemma {:induction false} ActiveAmongMembers(ns: seq<Neuron>, f: string, t: int, threshold: real, n: Neuron)
    ensures n in ActiveAmong(ns, f, t, threshold) <==> n in ns && n.ReachesThreshold(f, t, threshold)
    decreases |ns|
  {
    if ns != [] {
      var init := ns[..|ns| - 1];
      ActiveAmongMembers(init, f, t, threshold, n);
      assert ns == init + [ns[|ns| - 1]];
    }
  }

  /** Filtering a concatenation filters each part: the result keeps list order. */
  lemma {:induction false} ActiveAmongAppend(a: seq<Neuron>, b: seq<Neuron>, f: string, t: int, threshold: real)
    ensures ActiveAmong(a + b, f, t, threshold) == ActiveAmong(a, f, t, threshold) + ActiveAmong(b, f, t, threshold)
    decreases |b|
  {
    if b == [] {
      assert a + b == a;
    } else {
      var init := b[..|b| - 1];
      ActiveAmongAppend(a, init, f, t, threshold);
      assert (a + b)[..|a + b| - 1] == a + init;
    }
  }

  /** m is Values.Min() of the series: one of its values, and no value is smaller. */
  predicate IsLeast(m: real, s: Series) {
    (exists k :: k in s && s[k] == m) && forall k :: k in s ==> m <= s[k]
  }

  /** m is Values.Max() of the series. */
  predicate IsGreatest(m: real, s: Series) {
    (exists k :: k in s && s[k] == m) && forall k :: k in s ==> s[k] <= m
  }

  /** Every fish of sum has its least and greatest value in mins and maxs. */
  ghost predicate ExtremesCurrent(sum: Store, mins: map<string, real>, maxs: map<string, real>) {
    forall f :: f in sum ==>
      f in mins && f in maxs && IsLeast(mins[f], sum[f]) && IsGreatest(maxs[f], sum[f])
  }

  /** mins and maxs are m0 and x0 with the fish of sum, and only those, set to
      their extremes. */
  ghost predicate ExtremesUpdated(sum: Store, m0: map<string, real>, x0: map<string, real>,
                                  mins: map<string, real>, maxs: map<string, real>) {
    ExtremesCurrent(sum, mins, maxs) &&
    mins.Keys == m0.Keys + sum.Keys && maxs.Keys == x0.Keys + sum.Keys &&
    (forall f :: f in m0 && f !in sum ==> mins[f] == m0[f]) &&
    (forall f :: f in x0 && f !in sum ==> maxs[f] == x0[f])
  }

  /** ExtremesUpdated for the fish of sum outside left; the fish in left still
      have their old entries. */
  ghost predicate ExtremesUpdatedExcept(sum: Store, m0: map<string, real>, x0: map<string, real>,
                                        mins: map<string, real>, maxs: map<string, real>, left: set<string>) {
    left <= sum.Keys &&
    mins.Keys == m0.Keys + (sum.Keys - left) && maxs.Keys == x0.Keys + (sum.Keys - left) &&
    (forall f :: f in sum && f !in left ==>
      f in mins && f in maxs && IsLeast(mins[f], sum[f]) && IsGreatest(maxs[f], sum[f])) &&
    (forall f :: f in m0 && (f !in sum || f in left) ==> mins[f] == m0[f]) &&
    (forall f :: f in x0 && (f !in sum || f in left) ==> maxs[f] == x0[f])
  }

  lemma ExtremesStep(sum: Store, m0: map<string, real>, x0: map<string, real>,
                     mins: map<string, real>, maxs: map<string, real>, left: set<string>, f: string, lo: real, hi: real)
    requires ExtremesUpdatedExcept(sum, m0, x0, mins, maxs, left)
    requires f in left && IsLeast(lo, sum[f]) && IsGreatest(hi, sum[f])
    ensures ExtremesUpdatedExcept(sum, m0, x0, mins[f := lo], maxs[f := hi], left - {f})
  {
    var mins', maxs', left' := mins[f := lo], maxs[f := hi], left - {f};
    KeysStep(mins, m0.Keys, sum.Keys, left, f, lo);
    KeysStep(maxs, x0.Keys, sum.Keys, left, f, hi);
    forall g | g in sum && g !in left'
      ensures g in mins' && g in maxs' && IsLeast(mins'[g], sum[g]) && IsGreatest(maxs'[g], sum[g])
    {
      if g != f {
        assert mins'[g] == mins[g] && maxs'[g] == maxs[g];
      }
    }
  }

  /** Setting the entry of a fish taken out of left keeps the keys in step. */
  lemma KeysStep(m: map<string, real>, k0: set<string>, keys: set<string>, left: set<string>, f: string, v: real)
    requires left <= keys && f in left && m.Keys == k0 + (keys - left)
    ensures m[f := v].Keys == k0 + (keys - (left - {f}))
  {
  }

  lemma ExtremesDone(sum: Store, m0: map<string, real>, x0: map<string, real>,
                     mins: map<string, real>, maxs: map<string, real>)
    requires ExtremesUpdatedExcept(sum, m0, x0, mins, maxs, {})
    ensures ExtremesUpdated(sum, m0, x0, mins, maxs)
  {
    assert sum.Keys - {} == sum.Keys;
  }

  /** The loop of UpdateMinMax: for each fish of sum, set its entries in the
      minimum and maximum maps to the least and greatest value of its series. */
  method UpdateExtremes(sum: Store, m0: map<string, real>, x0: map<string, real>)
    returns (mins: map<string, real>, maxs: map<string, real>)
    requires AllSeriesNonEmpty(sum)
    ensures ExtremesUpdated(sum, m0, x0, mins, maxs)
  {
    mins, maxs := m0, x0;
    var fishLeft := sum.Keys;
    assert sum.Keys - fishLeft == {};
    while fishLeft != {}
      invariant ExtremesUpdatedExcept(sum, m0, x0, mins, maxs, fishLeft)
      decreases |fishLeft|
    {
      if forall k :: k !in fishLeft {
        assert false;
      }
      var f :| f in fishLeft;
      var lo, hi := SeriesRange(sum[f]);
      ExtremesStep(sum, m0, x0, mins, maxs, fishLeft, f, lo, hi);
      mins, maxs := mins[f := lo], maxs[f := hi];
      fishLeft := fishLeft - {f};
    }
    ExtremesDone(sum, m0, x0, mins, maxs);
  }

  /** Updating extremes that are already current changes nothing, so a second
      UpdateMinMax leaves the region as it was. */
  lemma ExtremesUpdateIdempotent(sum: Store, m0: map<string, real>, x0: map<string, real>,
                                 mins: map<string, real>, maxs: map<string, real>)
    requires ExtremesCurrent(sum, m0, x0)
    requires ExtremesUpdated(sum, m0, x0, mins, maxs)
    ensures mins == m0 && maxs == x0
  {
    forall f | f in sum ensures mins[f] == m0[f] && maxs[f] == x0[f] {
      ExtremesUnique(sum[f], mins[f], m0[f], maxs[f], x0[f]);
    }
  }

  /** A set has one least and one greatest element. */
  lemma ExtremesUnique(s: Series, lo1: real, lo2: real, hi1: real, hi2: real)
    requires IsLeast(lo1, s) && IsLeast(lo2, s) && IsGreatest(hi1, s) && IsGreatest(hi2, s)
    ensures lo1 == lo2 && hi1 == hi2
  {
  }

  /** Values.Min() and Values.Max() of a non-empty series. */
  method SeriesRange(s: Series) returns (lo: real, hi: real)
    requires s != map[]
    ensures IsLeast(lo, s) && IsGreatest(hi, s)
  {
    if forall k :: k !in s {
      assert false;
    }
    var k0 :| k0 in s;
    lo, hi := s[k0], s[k0];
    var keys := s.Keys - {k0};
    while keys != {}
      invariant keys <= s.Keys
      invariant (exists k :: k in s && s[k] == lo) && (exists k :: k in s && s[k] == hi)
      invariant forall j :: j in s && j !in keys ==> lo <= s[j] <= hi
      decreases |keys|
    {
      if forall k :: k !in keys {
        assert false;
      }
      var j :| j in keys;
      if s[j] < lo { lo := s[j]; }
      if s[j] > hi { hi := s[j]; }
      keys := keys - {j};
    }
  }

  class Brain {
    var regions: map<string, Region>
    var neurons: seq<Neuron>
    var bounds: Box
    var totalActivityList: Store

    constructor ()
      ensures regions == map[] && neurons == [] && bounds == DefaultBox && totalActivityList == map[]
      ensures BoundsTight()
    {
      regions := map[];
      neurons := [];
      bounds := DefaultBox;
      totalActivityList := map[];
    }

    /** The bounds are those reached by encapsulating every neuron's position,
        in order, starting from the zero box at the origin. */
    ghost predicate BoundsTight()
      reads this`bounds, this`neurons
    {
      bounds == EncapsulateAll(DefaultBox, Positions(neurons))
    }

    method AddActivity(f: string, t: int, v: real)
      modifies this`totalActivityList
      ensures totalActivityList == Put(old(totalActivityList), f, t, v)
    {
      var s := SeriesOf(totalActivityList, f);
      totalActivityList := totalActivityList[f := s[t := v]];
    }

    method AddNeuron(n: Neuron)
      modifies this`neurons, this`bounds
      ensures neurons == old(neurons) + [n]
      ensures bounds == Encapsulate(old(bounds), n.originalPosition)
      ensures old(BoundsTight()) ==> BoundsTight()
    {
      EncapsulateAllSnoc(DefaultBox, Positions(neurons), n.originalPosition);
      assert Positions(neurons + [n]) == Positions(neurons) + [n.originalPosition];
      neurons := neurons + [n];
      bounds := Encapsulate(bounds, n.originalPosition);
    }
  }

  /** b covers the rendered box of every neuron of ns. */
  predicate Covers(b: Box, ns: seq<Neuron>) {
    forall i :: 0 <= i < |ns| ==> b.Contains(ns[i].RenderBounds().min) && b.Contains(ns[i].RenderBounds().max)
  }

  /** Bounds grown to take in one more neuron's box, reset to its position
      first when it is the only one, still cover all the neurons. */
  lemma CoverSnoc(ns: seq<Neuron>, b0: Box, n: Neuron)
    ensures Covers(b0, ns) ==>
      Covers(EncapsulateBox(if ns == [] then PointBox(n.originalPosition) else b0, n.RenderBounds()), ns + [n])
  {
    var b1 := EncapsulateBox(if ns == [] then PointBox(n.originalPosition) else b0, n.RenderBounds());
    var ns' := ns + [n];
    if Covers(b0, ns) {
      forall i | 0 <= i < |ns'| ensures b1.Contains(ns'[i].RenderBounds().min) && b1.Contains(ns'[i].RenderBounds().max) {
        if i < |ns| {
          assert ns'[i] == ns[i];
        }
      }
    }
  }

  function Positions(ns: seq<Neuron>): (r: seq<Vec3>)
    ensures |r| == |ns| && forall i :: 0 <= i < |ns| ==> r[i] == ns[i].originalPosition
  {
    seq(|ns|, i requires 0 <= i < |ns| => ns[i].originalPosition)
  }

  /** A brain's bounds are the smallest box that contains the origin and the
      position of every neuron added to it, whatever the order of addition. */
  lemma BrainBoundsMinimal(ns: seq<Neuron>, c: Box)
    ensures EncapsulateAll(DefaultBox, Positions(ns)).Contains(Origin)
    ensures forall i :: 0 <= i < |ns| ==> EncapsulateAll(DefaultBox, Positions(ns)).Contains(ns[i].originalPosition)
    ensures c.Contains(Origin) && (forall i :: 0 <= i < |ns| ==> c.Contains(ns[i].originalPosition)) ==>
      c.Includes(EncapsulateAll(DefaultBox, Positions(ns)))
  {
    EncapsulateAllMinimal(DefaultBox, Positions(ns));
    if c.Contains(Origin) && (forall i :: 0 <= i < |ns| ==> c.Contains(ns[i].originalPosition)) {
      assert c.Includes(DefaultBox);
    }
  }

  /** Under the key test, the neurons a playback step activates are exactly the
      ones the region reports at threshold 0.5, when every stored value is 0 or 1. */
  lemma ActivationMatchesQuery(n: Neuron, f: string, t: int)
    requires f in n.activityList ==> forall u :: u in n.activityList[f] ==> n.activityList[f][u] == 0.0 || n.activityList[f][u] == 1.0
    ensures ActivationByKey(n.activityList, f, t) <==> n.ReachesThreshold(f, t, 0.5)
  {
  }

  /** With a gap in a series the guard as written hides a positive value that
      the region reports as active: the series {1: 1.0} has one entry, so t = 1
      fails t < Count. */
  lemma ActivationGapCounterexample()
    ensures var a: Store := map["Fish1" := map[1 := 1.0]];
      Activation(a, "Fish1", 1) == Some(false) && ActivationByKey(a, "Fish1", 1)
  {
  }

  /** ... and a series whose keys do not start at 0 makes the lookup fail. */
  lemma ActivationLookupCounterexample()
    ensures var a: Store := map["Fish1" := map[5 := 1.0]];
      Activation(a, "Fish1", 0).None?
  {
  }

  /** When a series holds exactly the timestamps 0 .. Count-1 the guard as
      written and the key test agree. */
  lemma ActivationDenseAgrees(a: Store, f: string, t: int)
    requires f in a ==> forall u :: u in a[f] <==> 0 <= u < |a[f]|
    requires t >= 0
    ensures Activation(a, f, t) == Some(ActivationByKey(a, f, t))
  {
  }
}
