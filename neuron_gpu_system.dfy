/** The instanced renderer's CPU side: a positions file read into a fixed array
    of GPU neuron records, the render bounds around them, and index-guarded,
    clamped updates of each record's activation. */
module NeuronGPUSystem {
  import opened Geometry
  import opened Text
  import opened LoadFishData

  // ---------------------------------------------------------------- region names

  /** The marks removed from a region list, wherever they are. */
  const GpuMarks: set<char> := {'[', ']', '\'', '"'}

  /** The characters a region list is split at. */
  const GpuSeparators: set<char> := {'+', '/', ','}

  /** s without any occurrence of c. */
  function Drop(s: string, c: char): (r: string)
    ensures |r| <= |s|
  {
    if s == [] then []
    else (if s[0] == c then [] else [s[0]]) + Drop(s[1..], c)
  }

  /** Replace(c, "") on one character is Drop. */
  lemma {:induction false} RemoveAllChar(s: string, c: char)
    ensures RemoveAll(s, [c]) == Drop(s, c)
    decreases |s|
  {
    if s != [] {
      RemoveAllChar(s[1..], c);
      assert HasAt(s, 0, [c]) <==> s[0] == c;
      assert s[|[c]|..] == s[1..];
    }
  }

  /** Dropping c leaves no c and adds no character. */
  lemma {:induction false} DropKeepsOut(s: string, c: char, out: set<char>)
    requires forall k :: 0 <= k < |s| ==> s[k] !in out
    ensures forall k :: 0 <= k < |Drop(s, c)| ==> Drop(s, c)[k] !in out + {c}
    decreases |s|
  {
    if s != [] {
      DropKeepsOut(s[1..], c, out);
      var rest := Drop(s[1..], c);
      assert Drop(s, c) == (if s[0] == c then [] else [s[0]]) + rest;
    }
  }

  /** The four Replace calls of CleanAndExtractFirstRegion, in order. */
  function StripMarks(s: string): (r: string)
    ensures |r| <= |s|
  {
    RemoveAll(RemoveAll(RemoveAll(RemoveAll(s, "["), "]"), "'"), "\"")
  }

  /** After the Replace calls no mark is left. */
  lemma StripMarksClean(s: string)
    ensures forall k :: 0 <= k < |StripMarks(s)| ==> StripMarks(s)[k] !in GpuMarks
  {
    var a := RemoveAll(s, "[");
    RemoveAllChar(s, '[');
    DropKeepsOut(s, '[', {});
    var b := RemoveAll(a, "]");
    RemoveAllChar(a, ']');
    DropKeepsOut(a, ']', {'['});
    var c := RemoveAll(b, "'");
    RemoveAllChar(b, '\'');
    DropKeepsOut(b, '\'', {'[', ']'});
    RemoveAllChar(c, '"');
    DropKeepsOut(c, '"', {'[', ']', '\''});
    assert {'[', ']', '\''} + {'"'} == GpuMarks;
  }

  /** CleanAndExtractFirstRegion: the marks removed, the list split at the
      separators with empty pieces dropped, the first piece that is not blank
      once trimmed, trimmed; "None" when there is none. */
  function GpuFirstRegion(regionList: string): (r: string)
    ensures r != []
  {
    match FirstTrimmed(RemoveEmpty(Split(StripMarks(regionList), GpuSeparators)), WhiteSpace)
    case None => "None"
    case Some(name) => name
  }

  /** Every field String.Split makes is free of what the string is free of. */
  lemma {:induction false} SplitKeepsOut(s: string, cs: set<char>, out: set<char>)
    requires forall k :: 0 <= k < |s| ==> s[k] !in out
    ensures forall i, k :: 0 <= i < |Split(s, cs)| && 0 <= k < |Split(s, cs)[i]| ==> Split(s, cs)[i][k] !in out
    decreases |s|
  {
    var i := FirstIndexIn(s, cs);
    if i < |s| {
      SplitKeepsOut(s[i + 1..], cs, out);
      var rest := Split(s[i + 1..], cs);
      assert Split(s, cs) == [s[..i]] + rest;
    }
  }

  /** The region found is "None" or a name with no mark and no separator. */
  lemma GpuFirstRegionClean(regionList: string)
    ensures var r := GpuFirstRegion(regionList);
      r == "None" || forall k :: 0 <= k < |r| ==> r[k] !in GpuMarks && r[k] !in GpuSeparators
  {
    var stripped := StripMarks(regionList);
    StripMarksClean(regionList);
    var fields := Split(stripped, GpuSeparators);
    SplitKeepsOut(stripped, GpuSeparators, GpuMarks);
    var ts := RemoveEmpty(fields);
    RemoveEmptyKeepsOut(fields, GpuMarks + GpuSeparators);
    FirstTrimmedKeepsOut(ts, WhiteSpace, GpuMarks + GpuSeparators);
  }

  /** The renderer's colour table; an unlisted name is white, like "None". */
  const GpuRegionColours: seq<(string, Color)> := [
    ("Telencephalon", Color(1.0, 0.2, 0.2, 1.0)),
    ("Diencephalon", Color(0.2, 1.0, 0.2, 1.0)),
    ("Mesencephalon", Color(0.2, 0.2, 1.0, 1.0)),
    ("Rhombencephalon", Color(1.0, 1.0, 0.2, 1.0)),
    ("Medulla", Color(1.0, 0.5, 0.2, 1.0)),
    ("None", White)
  ]

  // ---------------------------------------------------------------- records

  /** The record the compute shader and the material read for each neuron. */
  datatype GPUNeuron = GPUNeuron(position: Vec3, velocity: Vec3, color: Vec3, activation: real)

  /** The header must have seven columns named as expected once trimmed. */
  const GpuHeader: seq<string> := ["x_SWCIndex", "xpos", "ypos", "zpos", "Region", "Subregion", "Label"]

  predicate GpuHeaderOk(h: seq<string>) {
    |h| >= 7 && TrimAll(h)[..7] == GpuHeader
  }

  /** The colour of a region list: its first region's, white when unlisted. */
  function RegionTint(regionField: string): Vec3 {
    var c := ColourOf(GpuRegionColours, GpuFirstRegion(Trim(regionField)));
    Vec3(c.r, c.g, c.b)
  }

  /** At rest and inactive, as every record is loaded. */
  predicate Still(n: GPUNeuron) {
    n.velocity == Origin && n.activation == 0.0
  }

  /** One data row: skipped when it has fewer than seven values or x, y or z
      (columns 1 to 3) does not parse; the colour is the region's, and the
      neuron starts still and inactive. */
  function GpuRow(v: seq<string>): (r: Option<GPUNeuron>)
    ensures r.Some? ==> |v| >= 7 && Still(r.value)
  {
    if |v| < 7 then None
    else
      var x, y, z := ParseDecimal(v[1]), ParseDecimal(v[2]), ParseDecimal(v[3]);
      if x.Some? && y.Some? && z.Some?
      then Some(GPUNeuron(Vec3(x.value, y.value, 3.0 * z.value), Origin, RegionTint(v[4]), 0.0))
      else None
  }

  /** A row is kept exactly when it is long enough and its coordinates parse,
      and a kept neuron has its z stretched three times. */
  lemma GpuRowParsed(v: seq<string>)
    ensures GpuRow(v).Some? <==>
      |v| >= 7 && ParseDecimal(v[1]).Some? && ParseDecimal(v[2]).Some? && ParseDecimal(v[3]).Some?
    ensures GpuRow(v).Some? ==>
      GpuRow(v).value.position == Vec3(ParseDecimal(v[1]).value, ParseDecimal(v[2]).value, 3.0 * ParseDecimal(v[3]).value)
  {
  }

  /** Each row's record, or None where the row is skipped. */
  function GpuRows(rows: seq<seq<string>>): (r: seq<Option<GPUNeuron>>)
    ensures |r| == |rows| && forall i :: 0 <= i < |rows| ==> r[i] == GpuRow(rows[i])
    ensures forall i :: 0 <= i < |rows| && r[i].Some? ==> Still(r[i].value)
  {
    seq(|rows|, i requires 0 <= i < |rows| => GpuRow(rows[i]))
  }

  /** The records that are there, in order. */
  function Kept(opts: seq<Option<GPUNeuron>>): (r: seq<GPUNeuron>)
    ensures |r| <= |opts|
    ensures (forall j :: 0 <= j < |opts| && opts[j].Some? ==> Still(opts[j].value)) ==>
      forall i :: 0 <= i < |r| ==> Still(r[i])
  {
    if opts == [] then []
    else
      var init := Kept(opts[..|opts| - 1]);
      match opts[|opts| - 1]
      case None => init
      case Some(x) => init + [x]
  }

  /** One more slot looked at: its record, if any, goes after the others. */
  lemma KeptSnoc(opts: seq<Option<GPUNeuron>>, k: nat)
    requires 1 <= k <= |opts|
    ensures Kept(opts[..k]) == Kept(opts[..k - 1]) + (if opts[k - 1].Some? then [opts[k - 1].value] else [])
  {
    assert opts[..k][..k - 1] == opts[..k - 1];
  }

  /** The records of the accepted rows, in file order; all start still and inactive. */
  function GpuNeurons(rows: seq<seq<string>>): (ns: seq<GPUNeuron>)
    ensures |ns| <= |rows|
    ensures forall i :: 0 <= i < |ns| ==> Still(ns[i])
  {
    Kept(GpuRows(rows))
  }

  // ---------------------------------------------------------------- bounds

  /** The per-axis minimum of the positions, folded from the first. */
  function Lowest(ps: seq<Vec3>): Vec3
    requires ps != []
  {
    if |ps| == 1 then ps[0] else Min3(Lowest(ps[..|ps| - 1]), ps[|ps| - 1])
  }

  /** The per-axis maximum of the positions, folded from the first. */
  function Highest(ps: seq<Vec3>): Vec3
    requires ps != []
  {
    if |ps| == 1 then ps[0] else Max3(Highest(ps[..|ps| - 1]), ps[|ps| - 1])
  }

  /** The minimum is below every position and each of its coordinates is
      one of theirs. */
  lemma {:induction false} LowestTight(ps: seq<Vec3>)
    requires ps != []
    ensures forall i :: 0 <= i < |ps| ==> Le(Lowest(ps), ps[i])
    ensures exists i :: 0 <= i < |ps| && Lowest(ps).x == ps[i].x
    ensures exists i :: 0 <= i < |ps| && Lowest(ps).y == ps[i].y
    ensures exists i :: 0 <= i < |ps| && Lowest(ps).z == ps[i].z
  {
    if |ps| > 1 {
      var init, last := ps[..|ps| - 1], |ps| - 1;
      LowestTight(init);
      assert forall i :: 0 <= i < |init| ==> init[i] == ps[i];
      var lo, lo0 := Lowest(ps), Lowest(init);
      if lo.x != ps[last].x { var i :| 0 <= i < |init| && lo0.x == init[i].x; assert lo.x == ps[i].x; }
      if lo.y != ps[last].y { var i :| 0 <= i < |init| && lo0.y == init[i].y; assert lo.y == ps[i].y; }
      if lo.z != ps[last].z { var i :| 0 <= i < |init| && lo0.z == init[i].z; assert lo.z == ps[i].z; }
    } else {
      assert Lowest(ps) == ps[0];
    }
  }

  /** The maximum is above every position and each of its coordinates is
      one of theirs. */
  lemma {:induction false} HighestTight(ps: seq<Vec3>)
    requires ps != []
    ensures forall i :: 0 <= i < |ps| ==> Le(ps[i], Highest(ps))
    ensures exists i :: 0 <= i < |ps| && Highest(ps).x == ps[i].x
    ensures exists i :: 0 <= i < |ps| && Highest(ps).y == ps[i].y
    ensures exists i :: 0 <= i < |ps| && Highest(ps).z == ps[i].z
  {
    if |ps| > 1 {
      var init, last := ps[..|ps| - 1], |ps| - 1;
      HighestTight(init);
      assert forall i :: 0 <= i < |init| ==> init[i] == ps[i];
      var hi, hi0 := Highest(ps), Highest(init);
      if hi.x != ps[last].x { var i :| 0 <= i < |init| && hi0.x == init[i].x; assert hi.x == ps[i].x; }
      if hi.y != ps[last].y { var i :| 0 <= i < |init| && hi0.y == init[i].y; assert hi.y == ps[i].y; }
      if hi.z != ps[last].z { var i :| 0 <= i < |init| && hi0.z == init[i].z; assert hi.z == ps[i].z; }
    } else {
      assert Highest(ps) == ps[0];
    }
  }

  /** Unity's Bounds by centre and size. */
  datatype Bounds = Bounds(center: Vec3, size: Vec3)

  /** The centre between the extremes and their spread padded by half. */
  function PaddedBounds(lo: Vec3, hi: Vec3): Bounds {
    Bounds(Vec3((lo.x + hi.x) / 2.0, (lo.y + hi.y) / 2.0, (lo.z + hi.z) / 2.0),
           Vec3((hi.x - lo.x) * 1.5, (hi.y - lo.y) * 1.5, (hi.z - lo.z) * 1.5))
  }

  /** p lies within the bounds: centre - size/2 <= p <= centre + size/2. */
  predicate InBounds(b: Bounds, p: Vec3) {
    b.center.x - b.size.x / 2.0 <= p.x <= b.center.x + b.size.x / 2.0
    && b.center.y - b.size.y / 2.0 <= p.y <= b.center.y + b.size.y / 2.0
    && b.center.z - b.size.z / 2.0 <= p.z <= b.center.z + b.size.z / 2.0
  }

  /** The render bounds hold every neuron, so none is culled. */
  lemma PaddedBoundsHoldAll(ps: seq<Vec3>)
    requires ps != []
    ensures forall i :: 0 <= i < |ps| ==> InBounds(PaddedBounds(Lowest(ps), Highest(ps)), ps[i])
  {
    LowestTight(ps);
    HighestTight(ps);
  }

  function Positions(ns: seq<GPUNeuron>): (ps: seq<Vec3>)
    ensures |ps| == |ns| && forall i :: 0 <= i < |ns| ==> ps[i] == ns[i].position
  {
    seq(|ns|, i requires 0 <= i < |ns| => ns[i].position)
  }

  // ---------------------------------------------------------------- clamps

  /** Mathf.Clamp on ints. */
  function Clamp(value: int, lo: int, hi: int): (r: int)
    requires lo <= hi
    ensures lo <= r <= hi
    ensures lo <= value <= hi ==> r == value
    ensures value < lo ==> r == lo
    ensures value > hi ==> r == hi
  {
    if value < lo then lo else if value > hi then hi else value
  }

  /** Mathf.Clamp01 */
  function Clamp01(value: real): (r: real)
    ensures 0.0 <= r <= 1.0
    ensures 0.0 <= value <= 1.0 ==> r == value
    ensures value < 0.0 ==> r == 0.0
    ensures value > 1.0 ==> r == 1.0
  {
    if value < 0.0 then 0.0 else if value > 1.0 then 1.0 else value
  }

  /** The data lines after the header read into records, skipping the rows
      GpuRow rejects. */
  method ReadGpuRows(lines: seq<string>) returns (neuronList: seq<GPUNeuron>)
    requires lines != []
    ensures neuronList == GpuNeurons(SplitRows(lines[1..]))
  {
    ghost var opts := GpuRows(SplitRows(lines[1..]));
    neuronList := [];
    var k := 1;
    while k < |lines|
      invariant 1 <= k <= |lines| && |opts| == |lines| - 1
      invariant neuronList == Kept(opts[..k - 1])
    {
      var values := Split(lines[k], Comma);
      var neuron := GpuRow(values);
      assert opts[k - 1] == neuron;
      KeptSnoc(opts, k);
      if neuron.Some? {
        neuronList := neuronList + [neuron.value];
      }
      k := k + 1;
    }
    assert opts[..k - 1] == opts;
  }

  datatype GpuLoadOutcome = GpuLoaded | GpuFileNotFound | GpuEmptyFile | GpuBadHeader | NoNeurons

  /** The renderer's state: the cached records, their number, how many the
      shader may activate, and the bounds it draws in. */
  class NeuronGPUSystem {
    var neuronDataCache: array<GPUNeuron>
    var neuronCount: int
    var numActiveNeurons: int
    var renderBounds: Bounds

    /** The count is the cache's length and every activation is clamped. */
    ghost predicate Valid()
      reads this`neuronDataCache, this`neuronCount, neuronDataCache
    {
      neuronCount == neuronDataCache.Length
      && forall j :: 0 <= j < neuronDataCache.Length ==> 0.0 <= neuronDataCache[j].activation <= 1.0
    }

    constructor ()
      ensures Valid() && neuronCount == 0 && numActiveNeurons == 1000
    {
      neuronDataCache := new GPUNeuron[0];
      neuronCount := 0;
      numActiveNeurons := 1000;
      renderBounds := Bounds(Origin, Origin);
    }

    /** Read a positions file given as its lines (None when it is missing).
        Without a header line the read fails; a bad header loads nothing. */
    method LoadNeuronsFromCSV(file: Option<seq<string>>) returns (outcome: GpuLoadOutcome)
      modifies this`neuronDataCache, this`neuronCount, this`renderBounds
      ensures outcome == GpuFileNotFound <==> file.None?
      ensures outcome == GpuEmptyFile <==> file == Some([])
      ensures outcome == GpuBadHeader <==> file.Some? && file.value != [] && !GpuHeaderOk(Split(file.value[0], Comma))
      ensures outcome in {GpuFileNotFound, GpuEmptyFile, GpuBadHeader} ==>
        neuronDataCache == old(neuronDataCache) && neuronCount == old(neuronCount) && renderBounds == old(renderBounds)
      ensures outcome in {GpuLoaded, NoNeurons} ==>
        fresh(neuronDataCache) && Valid()
        && neuronDataCache[..] == GpuNeurons(SplitRows(file.value[1..]))
      ensures outcome in {GpuLoaded, NoNeurons} ==> (outcome == GpuLoaded <==> neuronCount > 0)
      ensures outcome == NoNeurons ==> renderBounds == old(renderBounds)
      ensures outcome == GpuLoaded ==>
        renderBounds == PaddedBounds(Lowest(Positions(neuronDataCache[..])), Highest(Positions(neuronDataCache[..])))
    {
      if file.None? {
        return GpuFileNotFound;
      }
      var lines := file.value;
      if lines == [] {
        return GpuEmptyFile;
      }
      if !GpuHeaderOk(Split(lines[0], Comma)) {
        return GpuBadHeader;
      }
      var neuronList := ReadGpuRows(lines);
      neuronCount := |neuronList|;
      neuronDataCache := new GPUNeuron[|neuronList|](i requires 0 <= i < |neuronList| => neuronList[i]);
      assert neuronDataCache[..] == neuronList;
      if neuronCount == 0 {
        return NoNeurons;
      }
      CalculateBounds(neuronList);
      outcome := GpuLoaded;
    }

    /** The render bounds around the neurons' positions; nothing changes for
        an empty list. */
    method CalculateBounds(neurons: seq<GPUNeuron>)
      modifies this`renderBounds
      ensures neurons == [] ==> renderBounds == old(renderBounds)
      ensures neurons != [] ==> renderBounds == PaddedBounds(Lowest(Positions(neurons)), Highest(Positions(neurons)))
    {
      if |neurons| == 0 {
        return;
      }
      ghost var ps := Positions(neurons);
      var min := neurons[0].position;
      var max := neurons[0].position;
      var i := 0;
      while i < |neurons|
        invariant 0 <= i <= |neurons|
        invariant min == Lowest(ps[..if i == 0 then 1 else i])
        invariant max == Highest(ps[..if i == 0 then 1 else i])
      {
        var p := neurons[i].position;
        if i > 0 {
          assert ps[..i + 1][..i] == ps[..i];
        }
        min := Min3(min, p);
        max := Max3(max, p);
        i := i + 1;
      }
      assert ps[..i] == ps;
      renderBounds := PaddedBounds(min, max);
    }

    /** How many neurons the shader may activate: count clamped to [0, neuronCount]. */
    method SetNumActiveNeurons(count: int)
      requires neuronCount >= 0
      modifies this`numActiveNeurons
      ensures 0 <= numActiveNeurons <= neuronCount
      ensures numActiveNeurons == Clamp(count, 0, neuronCount)
    {
      numActiveNeurons := Clamp(count, 0, neuronCount);
    }

    /** Set one neuron's activation, clamped to [0, 1]; an index out of range
        changes nothing. No other field of any record changes. */
    method ActivateNeuron(neuronIndex: int, activationLevel: real)
      requires Valid()
      modifies neuronDataCache
      ensures Valid()
      ensures forall j :: 0 <= j < neuronDataCache.Length ==>
        neuronDataCache[j] == if j == neuronIndex then old(neuronDataCache[j]).(activation := Clamp01(activationLevel))
                              else old(neuronDataCache[j])
    {
      if neuronIndex < 0 || neuronIndex >= neuronCount {
        return;
      }
      neuronDataCache[neuronIndex] := neuronDataCache[neuronIndex].(activation := Clamp01(activationLevel));
    }

    /** ActivateNeuron with level 0. */
    method DeactivateNeuron(neuronIndex: int)
      requires Valid()
      modifies neuronDataCache
      ensures Valid()
      ensures forall j :: 0 <= j < neuronDataCache.Length ==>
        neuronDataCache[j] == if j == neuronIndex then old(neuronDataCache[j]).(activation := 0.0)
                              else old(neuronDataCache[j])
    {
      ActivateNeuron(neuronIndex, 0.0);
    }

    /** Set the activations from startIndex to endIndex, both included, but
        not past the last neuron. A negative startIndex would index out of
        range unless the loop does not run. */
    method ActivateNeuronRange(startIndex: int, endIndex: int, activationLevel: real)
      requires Valid()
      requires startIndex >= 0 || startIndex > endIndex || startIndex >= neuronCount
      modifies neuronDataCache
      ensures Valid()
      ensures forall j :: 0 <= j < neuronDataCache.Length ==>
        neuronDataCache[j] == if startIndex <= j <= endIndex then old(neuronDataCache[j]).(activation := Clamp01(activationLevel))
                              else old(neuronDataCache[j])
    {
      var i := startIndex;
      while i <= endIndex && i < neuronCount
        invariant i == startIndex || (0 <= startIndex < i <= neuronCount && i <= endIndex + 1)
        invariant Valid()
        invariant forall j :: 0 <= j < neuronDataCache.Length ==>
          neuronDataCache[j] == if startIndex <= j < i then old(neuronDataCache[j]).(activation := Clamp01(activationLevel))
                                else old(neuronDataCache[j])
        decreases neuronCount - i
      {
        neuronDataCache[i] := neuronDataCache[i].(activation := Clamp01(activationLevel));
        i := i + 1;
      }
      assert i == startIndex || i == endIndex + 1 || endIndex >= neuronCount;
    }

    /** Every activation back to 0; nothing else changes. */
    method DeactivateAllNeurons()
      requires Valid()
      modifies neuronDataCache
      ensures Valid()
      ensures forall j :: 0 <= j < neuronDataCache.Length ==>
        neuronDataCache[j] == old(neuronDataCache[j]).(activation := 0.0)
    {
      var i := 0;
      while i < neuronCount
        invariant 0 <= i <= neuronCount
        invariant Valid()
        invariant forall j :: 0 <= j < neuronDataCache.Length ==>
          neuronDataCache[j] == if j < i then old(neuronDataCache[j]).(activation := 0.0) else old(neuronDataCache[j])
      {
        neuronDataCache[i] := neuronDataCache[i].(activation := 0.0);
        i := i + 1;
      }
    }

    /** The stored activation, or 0 for an index out of range; always within [0, 1]. */
    function GetNeuronActivation(neuronIndex: int): (a: real)
      requires Valid()
      reads this`neuronDataCache, this`neuronCount, neuronDataCache
      ensures 0.0 <= a <= 1.0
      ensures 0 <= neuronIndex < neuronCount ==> a == neuronDataCache[neuronIndex].activation
      ensures neuronIndex < 0 || neuronIndex >= neuronCount ==> a == 0.0
    {
      if neuronIndex < 0 || neuronIndex >= neuronCount then 0.0
      else neuronDataCache[neuronIndex].activation
    }
  }
}
