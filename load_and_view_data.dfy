/** The standalone viewer: a positions file with ten leading columns drawn as
    spheres, one signal file read into a 0/1 matrix of neurons by timestamps,
    and the ticker, jump, step-through and frame export over that matrix. */
module LoadAndViewData {
  import opened Geometry
  import opened Text
  import opened LoadFishData
  import opened FishSignals
  import opened Seizures

  // ---------------------------------------------------------------- positions file

  /** The column names the viewer's positions header must start with. */
  const ViewHeader: seq<string> := ["# SWC Index", "SWC Type", "xpos", "ypos", "zpos", "radius",
                                    "SWC Parent", "Region", "Subregion", "Label"]

  /** At least ten columns, the first ten named as expected once trimmed. */
  predicate ViewHeaderOk(h: seq<string>) {
    |h| >= 10 && TrimAll(h)[..10] == ViewHeader
  }

  /** What the viewer keeps of one accepted row. */
  datatype ViewNeuron = ViewNeuron(position: Vec3, parent: string, labelText: string)

  /** A data row: skipped when it has fewer than ten values or its x, y or z
      (columns 2 to 4) does not parse. */
  function ViewRow(v: seq<string>): (r: Option<ViewNeuron>)
    ensures r.Some? <==>
      |v| >= 10 && ParseDecimal(v[2]).Some? && ParseDecimal(v[3]).Some? && ParseDecimal(v[4]).Some?
    ensures r.Some? ==>
      r.value.position == Vec3(ParseDecimal(v[2]).value, ParseDecimal(v[3]).value, ParseDecimal(v[4]).value)
      && r.value.parent == Trim(v[6])
      && r.value.labelText == "Regions: " + CleanList(Trim(v[7])) + "\nSubregions: " + CleanList(Trim(v[8]))
  {
    if |v| < 10 then None
    else
      var x, y, z := ParseDecimal(v[2]), ParseDecimal(v[3]), ParseDecimal(v[4]);
      if x.Some? && y.Some? && z.Some?
      then Some(ViewNeuron(Vec3(x.value, y.value, z.value), Trim(v[6]),
                           "Regions: " + CleanList(Trim(v[7])) + "\nSubregions: " + CleanList(Trim(v[8]))))
      else None
  }

  /** The accepted rows, in file order. */
  function ViewNeurons(rows: seq<seq<string>>): (ns: seq<ViewNeuron>)
    ensures |ns| <= |rows|
  {
    if rows == [] then []
    else
      var init := ViewNeurons(rows[..|rows| - 1]);
      match ViewRow(rows[|rows| - 1])
      case None => init
      case Some(n) => init + [n]
  }

  /** The names of the colour table. */
  function KnownRegions(): set<string> {
    set i | 0 <= i < |RegionColours| :: RegionColours[i].0
  }

  /** regionColours.TryGetValue adds a colour only for a known parent, so the
      colours are those of the known parents, in order. */
  function ViewColours(ns: seq<ViewNeuron>): (cs: seq<Color>)
    ensures |cs| <= |ns|
  {
    if ns == [] then []
    else
      var init := ViewColours(ns[..|ns| - 1]);
      var p := ns[|ns| - 1].parent;
      if p in KnownRegions() then init + [RegionColour(p)] else init
  }

  /** The lists LoadNeuronalData fills, all empty when the file is missing or
      its header is wrong. */
  datatype ViewLists = ViewLists(positions: seq<Vec3>, colours: seq<Color>, parents: seq<string>, labels: seq<string>)

  /** The lists one line at a time; the loader's loop builds exactly these. */
  function ListsOf(ns: seq<ViewNeuron>): (l: ViewLists)
    ensures |l.positions| == |ns| && |l.parents| == |ns| && |l.labels| == |ns|
    ensures forall i :: 0 <= i < |ns| ==>
      l.positions[i] == ns[i].position && l.parents[i] == ns[i].parent && l.labels[i] == ns[i].labelText
    ensures l.colours == ViewColours(ns)
  {
    if ns == [] then ViewLists([], [], [], [])
    else
      var l := ListsOf(ns[..|ns| - 1]);
      var n := ns[|ns| - 1];
      ViewLists(l.positions + [n.position], ViewColours(ns), l.parents + [n.parent], l.labels + [n.labelText])
  }

  /** There is a colour per position exactly when every parent is a known
      region; CreateNeurons reads sColours[i] for every position i. */
  lemma {:induction false} ColoursAligned(ns: seq<ViewNeuron>)
    ensures |ViewColours(ns)| == |ns| <==> forall i :: 0 <= i < |ns| ==> ns[i].parent in KnownRegions()
  {
    if ns != [] {
      var init := ns[..|ns| - 1];
      ColoursAligned(init);
      assert forall i :: 0 <= i < |init| ==> init[i] == ns[i];
      if |ViewColours(ns)| == |ns| {
        assert |ViewColours(init)| <= |init|;
      }
    }
  }

  /** Reads a positions file, given as its lines (None when it does not
      exist). A file with no line fails at the header. */
  method LoadNeuronalData(file: Option<seq<string>>) returns (outcome: LoadOutcome, lists: ViewLists)
    ensures file.None? <==> outcome == FileNotFound
    ensures outcome == EmptyFile <==> file == Some([])
    ensures outcome == BadHeader <==> file.Some? && file.value != [] && !ViewHeaderOk(Split(file.value[0], Comma))
    ensures outcome != Loaded ==> lists == ViewLists([], [], [], [])
    ensures outcome == Loaded ==> lists == ListsOf(ViewNeurons(SplitRows(file.value[1..])))
  {
    lists := ViewLists([], [], [], []);
    if file.None? {
      return FileNotFound, lists;
    }
    var lines := file.value;
    if lines == [] {
      return EmptyFile, lists;
    }
    if !ViewHeaderOk(Split(lines[0], Comma)) {
      return BadHeader, lists;
    }
    ghost var rows := SplitRows(lines[1..]);
    var k := 1;
    while k < |lines|
      invariant 1 <= k <= |lines| && |rows| == |lines| - 1
      invariant lists == ListsOf(ViewNeurons(rows[..k - 1]))
    {
      var values := Split(lines[k], Comma);
      assert rows[..k] == rows[..k - 1] + [values];
      var row := ViewRow(values);
      if row.Some? {
        var n := row.value;
        var p := n.parent;
        var colours := if p in KnownRegions() then lists.colours + [RegionColour(p)] else lists.colours;
        lists := ViewLists(lists.positions + [n.position], colours, lists.parents + [p], lists.labels + [n.labelText]);
      }
      k := k + 1;
    }
    assert rows[..k - 1] == rows;
    outcome := Loaded;
  }

  // ---------------------------------------------------------------- signal matrix

  /** Cell c of the signal matrix for one parsed row: 1 when the value in
      column 10 + c parses and is positive, else the 0 it was created with. */
  function MatrixCell(cells: seq<Option<real>>, c: nat): (v: int)
    ensures v == 0 || v == 1
  {
    if FirstActivityColumn + c < |cells| && cells[FirstActivityColumn + c].Some?
       && cells[FirstActivityColumn + c].value > 0.0
    then 1 else 0
  }

  /** The viewer's matrix and the scene loader's writes agree: where a cell
      parses the loader writes Binarise of it, which is the matrix cell; where
      it does not, the loader writes nothing and the matrix keeps 0. */
  lemma MatrixCellBinarised(cells: seq<Option<real>>, c: nat)
    requires FirstActivityColumn + c < |cells|
    ensures cells[FirstActivityColumn + c].Some? ==>
      MatrixCell(cells, c) as real == Binarise(cells[FirstActivityColumn + c].value)
    ensures cells[FirstActivityColumn + c].None? ==>
      MatrixCell(cells, c) == 0 && ColumnEvent("", cells, FirstActivityColumn + c) == []
  {
  }

  /** The matrix holds one row per data line and one column per signal column
      of the first data line, each cell read from its row. */
  ghost predicate MatrixOf(data: array2<int>, rows: seq<seq<Option<real>>>, width: nat)
    reads data
  {
    data.Length0 == |rows| && data.Length1 == width
    && forall r, c :: 0 <= r < data.Length0 && 0 <= c < data.Length1 ==> data[r, c] == MatrixCell(rows[r], c)
  }

  datatype MatrixOutcome = MatrixLoaded | MatrixFileNotFound | TooFewLines | NegativeWidth

  /** Fill row r from its cells, as float.TryParse reads them: only columns
      below both 10 + the width and the row's length are read, and only the
      cells that parse are written. */
  method FillRow(data: array2<int>, r: nat, cells: seq<Option<real>>)
    requires r < data.Length0
    requires forall c :: 0 <= c < data.Length1 ==> data[r, c] == 0
    modifies data
    ensures forall c :: 0 <= c < data.Length1 ==> data[r, c] == MatrixCell(cells, c)
    ensures forall i, c :: 0 <= i < data.Length0 && i != r && 0 <= c < data.Length1 ==> data[i, c] == old(data[i, c])
  {
    var numCols := data.Length1;
    var colIx := FirstActivityColumn;
    while colIx < FirstActivityColumn + numCols && colIx < |cells|
      invariant FirstActivityColumn <= colIx
      invariant forall c :: 0 <= c < numCols && FirstActivityColumn + c < colIx ==> data[r, c] == MatrixCell(cells, c)
      invariant forall c :: 0 <= c < numCols && FirstActivityColumn + c >= colIx ==> data[r, c] == 0
      invariant forall i, c :: 0 <= i < data.Length0 && i != r && 0 <= c < numCols ==> data[i, c] == old(data[i, c])
    {
      var value := cells[colIx];
      if value.Some? {
        data[r, colIx - FirstActivityColumn] := if value.value > 0.0 then 1 else 0;
      }
      colIx := colIx + 1;
    }
  }

  /** LoadSignalDataAsync: the first data line fixes the width (its fields less
      the ten leading ones); a negative width makes the allocation throw. */
  method LoadSignalData(file: Option<seq<string>>) returns (outcome: MatrixOutcome, data: array2?<int>)
    ensures outcome == MatrixLoaded <==> data != null
    ensures outcome == MatrixFileNotFound <==> file.None?
    ensures outcome == TooFewLines <==> file.Some? && |file.value| < 2
    ensures outcome == NegativeWidth <==>
      file.Some? && |file.value| >= 2 && |Split(file.value[1], Comma)| < FirstActivityColumn
    ensures data != null ==>
      fresh(data) && MatrixOf(data, SignalRows(file.value), |Split(file.value[1], Comma)| - FirstActivityColumn)
  {
    if file.None? {
      return MatrixFileNotFound, null;
    }
    var lines := file.value;
    if |lines| < 2 {
      return TooFewLines, null;
    }
    var width := |Split(lines[1], Comma)| - FirstActivityColumn;
    if width < 0 {
      return NegativeWidth, null;
    }
    var numRows := |lines| - 1;
    data := new int[numRows, width]((_, _) => 0);
    ghost var rows := SignalRows(lines);
    var rowIx := 0;
    while rowIx < numRows
      invariant 0 <= rowIx <= numRows
      invariant forall r, c :: 0 <= r < rowIx && 0 <= c < width ==> data[r, c] == MatrixCell(rows[r], c)
      invariant forall r, c :: rowIx <= r < numRows && 0 <= c < width ==> data[r, c] == 0
    {
      var cells := DataRow(lines[rowIx + 1]);
      assert cells == rows[rowIx];
      FillRow(data, rowIx, cells);
      rowIx := rowIx + 1;
    }
    assert |rows| == numRows;
    outcome := MatrixLoaded;
  }

  // ---------------------------------------------------------------- file names

  /** Every run of digits is within a 32-bit int. */
  predicate RunsFit(runs: seq<string>) {
    forall i :: 0 <= i < |runs| ==> AllDigits(runs[i]) && DigitsValue(runs[i]) <= Int32Max
  }

  /** splitString: every maximal run of digits read with int.Parse, left to
      right; None where a run is beyond a 32-bit int and int.Parse throws. */
  function SplitString(s: string): (r: Option<seq<int>>)
    ensures r.Some? <==> RunsFit(DigitRuns(s, 0))
    ensures r.Some? ==> |r.value| == |DigitRuns(s, 0)|
    ensures r.Some? ==> forall i :: 0 <= i < |r.value| ==> r.value[i] == DigitsValue(DigitRuns(s, 0)[i])
  {
    var runs := DigitRuns(s, 0);
    if RunsFit(runs)
    then Some(seq(|runs|, i requires 0 <= i < |runs| => DigitsValue(runs[i])))
    else None
  }

  /** splitString reads the whole runs of digits of s, left to right: the i-th
      number is the value of the i-th maximal run, the runs follow one another,
      and every digit of s belongs to one of them. */
  lemma SplitStringRuns(s: string) returns (pos: seq<(nat, nat)>)
    requires SplitString(s).Some?
    ensures |pos| == |SplitString(s).value|
    ensures forall i :: 0 <= i < |pos| ==>
      MaximalRun(s, pos[i].0, pos[i].1) && SplitString(s).value[i] == DigitsValue(s[pos[i].0..pos[i].1])
    ensures forall i :: 0 <= i < |pos| - 1 ==> pos[i].1 < pos[i + 1].0
    ensures forall k :: 0 <= k < |s| && IsDigit(s[k]) ==> exists i :: 0 <= i < |pos| && pos[i].0 <= k < pos[i].1
  {
    pos := DigitRunsMaximal(s, 0);
  }

  /** A string without a digit has no number in it. */
  lemma SplitStringNoDigits(s: string)
    ensures SplitString(s) == Some([]) <==> forall k :: 0 <= k < |s| ==> !IsDigit(s[k])
  {
    DigitRunsEmpty(s, 0);
  }

  /** int.TryParse on a run of digits: its value when it fits in an int. */
  lemma ParseInt32Digits(d: string)
    requires d != [] && AllDigits(d)
    ensures ParseInt32(d) == if DigitsValue(d) <= Int32Max then Some(DigitsValue(d)) else None
  {
    assert IsDigit(d[0]) && IsDigit(d[|d| - 1]);
    TrimNothing(d, NumberWhite);
    assert SignOf(d) == Signed(false, d);
  }

  /** GetFishNumber: the number after "FishSignalData", or -1 when there is
      none or it does not fit in an int. */
  function GetFishNumber(fileName: string): (n: int)
    ensures n >= -1
    ensures n >= 0 <==> Search(fileName, FishPattern).Some? && DigitsValue(Search(fileName, FishPattern).value) <= Int32Max
    ensures n >= 0 ==> n == DigitsValue(Search(fileName, FishPattern).value)
  {
    match Search(fileName, FishPattern)
    case None => -1
    case Some(digits) =>
      ParseInt32Digits(digits);
      match ParseInt32(digits)
      case None => -1
      case Some(v) => v
  }

  /** The number and the dictionary key come from the same digits: a file
      with a number has the key "Fish" + those digits. */
  lemma FishNumberKey(fileName: string)
    requires GetFishNumber(fileName) >= 0
    ensures FishKey(fileName).Some? && FishKey(fileName).value[..4] == "Fish"
    ensures AllDigits(FishKey(fileName).value[4..])
    ensures DigitsValue(FishKey(fileName).value[4..]) == GetFishNumber(fileName)
  {
    var d := Search(fileName, FishPattern).value;
    assert FishKey(fileName).value == "Fish" + d;
    assert ("Fish" + d)[4..] == d;
  }

  /** The fish ExportAllFishVideos exports: numbers above 37. */
  const FirstExportedFish: int := 38

  /** ExportAllFishVideos' filter, in the order of the file list. */
  function ExportedFiles(files: seq<string>): (r: seq<string>)
    ensures forall f :: f in r <==> f in files && GetFishNumber(f) >= FirstExportedFish
    ensures |r| <= |files|
  {
    if files == [] then []
    else
      var front := files[..|files| - 1];
      var init := ExportedFiles(front);
      var f := files[|files| - 1];
      assert files == front + [f];
      assert forall g :: g in files <==> g in front || g == f;
      if GetFishNumber(f) >= FirstExportedFish then init + [f] else init
  }

  /** The filter keeps each exported file as often as the list has it. */
  lemma {:induction false} ExportedFilesCount(files: seq<string>, f: string)
    ensures multiset(ExportedFiles(files))[f] ==
      if GetFishNumber(f) >= FirstExportedFish then multiset(files)[f] else 0
    decreases |files|
  {
    if files != [] {
      var front := files[..|files| - 1];
      ExportedFilesCount(front, f);
      assert files == front + [files[|files| - 1]];
    }
  }

  /** The filter keeps the file list's order: filtering a list that is one
      list followed by another filters each and keeps them in that order. */
  lemma {:induction false} ExportedFilesAppend(a: seq<string>, b: seq<string>)
    ensures ExportedFiles(a + b) == ExportedFiles(a) + ExportedFiles(b)
    decreases |b|
  {
    if b == [] {
      assert a + b == a;
    } else {
      var init, x := b[..|b| - 1], b[|b| - 1];
      assert b == init + [x];
      assert a + b == (a + init) + [x];
      ExportedFilesAppend(a, init);
      ExportedFilesSnoc(a + init, x);
      ExportedFilesSnoc(init, x);
      ConcatAssoc(ExportedFiles(a), ExportedFiles(init), if GetFishNumber(x) >= FirstExportedFish then [x] else []);
    }
  }

  /** Concatenation regroups; stated over any element type so that no string is compared. */
  lemma ConcatAssoc<T>(a: seq<T>, b: seq<T>, c: seq<T>)
    ensures (a + b) + c == a + (b + c)
  {
  }

  /** Adding a file at the end adds it to the export list exactly when it is exported. */
  lemma ExportedFilesSnoc(files: seq<string>, f: string)
    ensures ExportedFiles(files + [f]) ==
      ExportedFiles(files) + if GetFishNumber(f) >= FirstExportedFish then [f] else []
  {
    assert (files + [f])[..|files|] == files;
  }

  /** A single file is exported exactly when its fish number is above 37. */
  lemma ExportedFilesOne(f: string)
    ensures ExportedFiles([f]) == if GetFishNumber(f) >= FirstExportedFish then [f] else []
  {
    assert [f][..0] == [];
  }

  /** The name of the frame exported for column col: fishID_col, the column
      written with at least five digits. */
  function FrameName(fishID: string, col: int): string {
    fishID + "_" + FormatD(col, 5) + ".png"
  }

  /** The digits of a frame name read back as its column, so the frames of a
      run have distinct names. */
  lemma FrameNameDistinct(fishID: string, a: nat, b: nat)
    ensures FrameName(fishID, a) == FrameName(fishID, b) <==> a == b
  {
    if FrameName(fishID, a) == FrameName(fishID, b) {
      var na, nb := FrameName(fishID, a), FrameName(fishID, b);
      var k := |fishID| + 1;
      assert na[k..|na| - 4] == FormatD(a, 5);
      assert nb[k..|nb| - 4] == FormatD(b, 5);
      FormatDRoundTrip(a, 5);
      FormatDRoundTrip(b, 5);
    }
  }

  // ---------------------------------------------------------------- ticker

  /** A ticker click: the rounded click fraction times the last timestamp,
      clamped into [0, numTimestamps - 1]. */
  function TickerTimestamp(rounded: int, numTimestamps: int): (t: int)
    requires numTimestamps > 0
    ensures 0 <= t < numTimestamps
    ensures 0 <= rounded < numTimestamps ==> t == rounded
    ensures rounded < 0 ==> t == 0
    ensures rounded >= numTimestamps ==> t == numTimestamps - 1
  {
    if rounded < 0 then 0 else if rounded > numTimestamps - 1 then numTimestamps - 1 else rounded
  }

  // ---------------------------------------------------------------- playback

  /** The colour a neuron's sphere is set to. */
  datatype Shade = Red | Blue | Yellow

  /** JumpToSignalTimestamp: red for a positive value, else blue. */
  function JumpShade(v: int): Shade {
    if v > 0 then Red else Blue
  }

  /** Step-through and export: yellow for a 1, else blue. */
  function StepShade(v: int): Shade {
    if v == 1 then Yellow else Blue
  }

  /** The viewer's playback state: the matrix, the timestamp shown (-1 when
      none) and the colour of each neuron's sphere, by index. */
  class SignalViewer {
    var signalData: array2?<int>
    var currentSignalTimestamp: int
    const shades: array<Shade>

    constructor (shades: array<Shade>)
      ensures this.shades == shades && signalData == null && currentSignalTimestamp == -1
    {
      this.shades := shades;
      signalData := null;
      currentSignalTimestamp := -1;
    }

    /** Every sphere below the number of neurons shows column col of data by
        the jump or the step rule; the others keep their colour. */
    method PaintColumn(data: array2<int>, col: int, jump: bool)
      requires 0 <= col < data.Length1
      modifies shades
      ensures forall i :: 0 <= i < shades.Length ==>
        shades[i] == if i < data.Length0 then (if jump then JumpShade(data[i, col]) else StepShade(data[i, col]))
                     else old(shades[i])
    {
      var neuron := 0;
      while neuron < data.Length0
        invariant 0 <= neuron <= data.Length0
        invariant forall i :: 0 <= i < shades.Length ==>
          shades[i] == if i < neuron then (if jump then JumpShade(data[i, col]) else StepShade(data[i, col]))
                       else old(shades[i])
      {
        if neuron < shades.Length {
          shades[neuron] := if jump then JumpShade(data[neuron, col]) else StepShade(data[neuron, col]);
        }
        neuron := neuron + 1;
      }
    }

    /** Show one timestamp: a no-op without data or outside [0, numTimestamps). */
    method JumpToSignalTimestamp(t: int)
      modifies this`currentSignalTimestamp, shades
      ensures signalData == null || t < 0 || t >= signalData.Length1 ==>
        currentSignalTimestamp == old(currentSignalTimestamp) && shades[..] == old(shades[..])
      ensures signalData != null && 0 <= t < signalData.Length1 ==>
        currentSignalTimestamp == t &&
        forall i :: 0 <= i < shades.Length ==>
          shades[i] == if i < signalData.Length0 then JumpShade(signalData[i, t]) else old(shades[i])
    {
      var data := signalData;
      if data == null {
        return;
      }
      if t < 0 || t >= data.Length1 {
        return;
      }
      currentSignalTimestamp := t;
      PaintColumn(data, t, true);
    }

    /** Step through the timestamps from start to the last (pausing is
      scheduling and not modelled): each shows its column by the step rule,
      and the timestamp goes back to -1 at the end. */
    method StepThroughSignalDataFrom(start: int) returns (ghost shown: seq<int>)
      requires signalData != null && 0 <= start
      modifies this`currentSignalTimestamp, shades
      ensures shown == Steps(start, signalData.Length1, 1)
      ensures currentSignalTimestamp == -1
      ensures start < signalData.Length1 ==> forall i :: 0 <= i < shades.Length ==>
        shades[i] == if i < signalData.Length0 then StepShade(signalData[i, signalData.Length1 - 1]) else old(shades[i])
      ensures start >= signalData.Length1 ==> shades[..] == old(shades[..])
    {
      var data := signalData;
      var numTimestamps := data.Length1;
      shown := [];
      var col := start;
      while col < numTimestamps
        invariant start <= col && (col <= numTimestamps || col == start)
        invariant shown + Steps(col, numTimestamps, 1) == Steps(start, numTimestamps, 1)
        invariant col == start ==> shades[..] == old(shades[..])
        invariant col > start ==> forall i :: 0 <= i < shades.Length ==>
          shades[i] == if i < data.Length0 then StepShade(data[i, col - 1]) else old(shades[i])
      {
        StepsNext(shown, start, col, numTimestamps, 1);
        currentSignalTimestamp := col;
        PaintColumn(data, col, false);
        shown := shown + [col];
        col := col + 1;
      }
      currentSignalTimestamp := -1;
    }

    /** Export every timestamp from start: show it as the step-through does and
      capture it under FrameName; the timestamp goes back to -1 at the end. */
    method ExportSignalDataVideo(fishID: string, start: int) returns (frames: seq<string>)
      requires signalData != null && 0 <= start
      modifies this`currentSignalTimestamp, shades
      ensures |frames| == if start < signalData.Length1 then signalData.Length1 - start else 0
      ensures forall k :: 0 <= k < |frames| ==> frames[k] == FrameName(fishID, start + k)
      ensures currentSignalTimestamp == -1
      ensures start < signalData.Length1 ==> forall i :: 0 <= i < shades.Length ==>
        shades[i] == if i < signalData.Length0 then StepShade(signalData[i, signalData.Length1 - 1]) else old(shades[i])
      ensures start >= signalData.Length1 ==> shades[..] == old(shades[..])
    {
      var data := signalData;
      var numTimestamps := data.Length1;
      frames := [];
      var col := start;
      while col < numTimestamps
        invariant start <= col && (col <= numTimestamps || col == start)
        invariant |frames| == col - start
        invariant forall k :: 0 <= k < |frames| ==> frames[k] == FrameName(fishID, start + k)
        invariant col == start ==> shades[..] == old(shades[..])
        invariant col > start ==> forall i :: 0 <= i < shades.Length ==>
          shades[i] == if i < data.Length0 then StepShade(data[i, col - 1]) else old(shades[i])
      {
        currentSignalTimestamp := col;
        PaintColumn(data, col, false);
        frames := frames + [FrameName(fishID, col)];
        col := col + 1;
      }
      currentSignalTimestamp := -1;
    }
  }
}
