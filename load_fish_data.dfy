/** The loader of the scene: positions file to brain, regions and neurons; signal
    files to per-fish activity; and the playback of one region's activity. Files
    are given as their lines already split at commas. */
module LoadFishData {
  import opened Geometry
  import opened Text
  import opened TimeSeries
  import opened BrainComponents

  // ---------------------------------------------------------------- region lists

  /** The marks cleanList strips from both ends of a region list. */
  const ListMarks: set<char> := {'[', ']', '"', '\''}

  /** The characters a region list is split at. */
  const RegionSeparators: set<char> := {'+', '/'}

  /** cleanList: the region list with the enclosing brackets and quote marks
      removed from both ends; marks inside the list are kept. */
  function CleanList(s: string): (r: string)
    ensures |r| <= |s|
    ensures r != [] ==> r[0] !in ListMarks && r[|r| - 1] !in ListMarks
  {
    TrimSetSlice(s, ListMarks);
    TrimSet(s, ListMarks)
  }

  /** The index of the first piece that is not blank once trimmed of cs, or
      |ts| when every piece is blank. */
  function FirstNonBlank(ts: seq<string>, cs: set<char>): (i: nat)
    ensures i <= |ts|
    ensures forall j :: 0 <= j < i ==> TrimSet(ts[j], cs) == []
    ensures i < |ts| ==> TrimSet(ts[i], cs) != []
  {
    if ts == [] then 0
    else if TrimSet(ts[0], cs) != [] then 0
    else
      var i := FirstNonBlank(ts[1..], cs);
      assert forall j :: 1 <= j < |ts| ==> ts[j] == ts[1..][j - 1];
      i + 1
  }

  /** The pieces after String.Split(..., RemoveEmptyEntries), trimmed, first
      non-empty one: .Select(s => s.Trim()).FirstOrDefault(s => s != ""). */
  function FirstTrimmed(ts: seq<string>, cs: set<char>): (r: Option<string>)
    ensures r == if FirstNonBlank(ts, cs) < |ts| then Some(TrimSet(ts[FirstNonBlank(ts, cs)], cs)) else None
  {
    if ts == [] then None
    else if TrimSet(ts[0], cs) != [] then Some(TrimSet(ts[0], cs))
    else
      var r := FirstTrimmed(ts[1..], cs);
      assert FirstNonBlank(ts, cs) == FirstNonBlank(ts[1..], cs) + 1;
      r
  }

  /** The region a neuron is filed under: the first non-blank piece of its
      cleaned region list, split at '+' and '/', or "None". */
  function FirstRegion(regionList: string): (r: string)
    ensures r != []
  {
    match FirstTrimmed(RemoveEmpty(Split(CleanList(regionList), RegionSeparators)), WhiteSpace)
    case None => "None"
    case Some(name) => name
  }

  /** Dropping empty pieces before trimming does not change the first non-blank one. */
  lemma {:induction false} FirstTrimmedRemoveEmpty(ts: seq<string>, cs: set<char>)
    ensures FirstTrimmed(RemoveEmpty(ts), cs) == FirstTrimmed(ts, cs)
  {
    if ts != [] {
      FirstTrimmedRemoveEmpty(ts[1..], cs);
      var rest := RemoveEmpty(ts[1..]);
      if ts[0] == [] {
        assert TrimSet(ts[0], cs) == [];
        assert RemoveEmpty(ts) == rest;
      } else {
        var l := [ts[0]] + rest;
        assert RemoveEmpty(ts) == l;
        assert l[0] == ts[0] && l[1..] == rest;
      }
    }
  }

  /** The region is the trimmed first non-blank piece of the cleaned list, and
      "None" when every piece is blank. */
  lemma FirstRegionPieces(regionList: string)
    ensures var pieces := Split(CleanList(regionList), RegionSeparators);
      var i := FirstNonBlank(pieces, WhiteSpace);
      FirstRegion(regionList) == if i < |pieces| then Trim(pieces[i]) else "None"
  {
    FirstTrimmedRemoveEmpty(Split(CleanList(regionList), RegionSeparators), WhiteSpace);
  }

  /** A region name never has a separator in it. */
  lemma FirstRegionHasNoSeparator(regionList: string)
    ensures forall k :: 0 <= k < |FirstRegion(regionList)| ==> FirstRegion(regionList)[k] !in RegionSeparators
  {
    var first := FirstTrimmed(RemoveEmpty(Split(CleanList(regionList), RegionSeparators)), WhiteSpace);
    FirstPieceHasNoSeparator(regionList);
    if first.None? {
      assert FirstRegion(regionList) == "None";
    }
  }

  /** The first non-blank piece of the split region list, trimmed, has no separator. */
  lemma FirstPieceHasNoSeparator(regionList: string)
    ensures var first := FirstTrimmed(RemoveEmpty(Split(CleanList(regionList), RegionSeparators)), WhiteSpace);
      first.Some? ==> forall k :: 0 <= k < |first.value| ==> first.value[k] !in RegionSeparators
  {
    var fields := Split(CleanList(regionList), RegionSeparators);
    RemoveEmptyKeepsOut(fields, RegionSeparators);
    FirstTrimmedKeepsOut(RemoveEmpty(fields), WhiteSpace, RegionSeparators);
  }

  /** The first non-blank piece, trimmed, has none of the characters that no
      piece has. */
  lemma FirstTrimmedKeepsOut(ts: seq<string>, cs: set<char>, out: set<char>)
    requires forall j, k :: 0 <= j < |ts| && 0 <= k < |ts[j]| ==> ts[j][k] !in out
    ensures FirstTrimmed(ts, cs).Some? ==>
      forall k :: 0 <= k < |FirstTrimmed(ts, cs).value| ==> FirstTrimmed(ts, cs).value[k] !in out
  {
    var i := FirstNonBlank(ts, cs);
    if i < |ts| {
      TrimKeepsOut(ts[i], cs, out);
    }
  }

  /** Trimming adds no character: one that is nowhere in s is nowhere in its trim. */
  lemma TrimKeepsOut(s: string, cs: set<char>, out: set<char>)
    requires forall k :: 0 <= k < |s| ==> s[k] !in out
    ensures forall k :: 0 <= k < |TrimSet(s, cs)| ==> TrimSet(s, cs)[k] !in out
  {
    TrimSetSlice(s, cs);
    var r := TrimSet(s, cs);
    var i := |s| - |TrimStart(s, cs)|;
    forall k | 0 <= k < |r| ensures r[k] !in out {
      assert r[k] == s[i + k];
    }
  }

  /** The colour each known region is drawn in, by name (the names are
      distinct, so this is a dictionary). */
  const RegionColours: seq<(string, Color)> := [
    ("Diencephalon", Color(0.4, 1.0, 0.3843, 1.0)),
    ("Mesencephalon", Color(0.4588, 0.5529, 0.3843, 1.0)),
    ("Rhombencephalon", Color(0.0, 0.6275, 1.0, 1.0)),
    ("Telencephalon", Color(1.0, 0.5412, 0.7647, 1.0)),
    ("Ganglia", Color(0.4588, 0.4392, 0.7019, 1.0)),
    ("Spinal", Color(0.4588, 0.4392, 0.7019, 1.0)),
    ("None", Color(0.4588, 0.4392, 0.7019, 1.0))
  ]

  function RegionColour(name: string): Color
  {
    ColourOf(RegionColours, name)
  }

  // ---------------------------------------------------------------- positions file

  /** The column names the positions header must start with. */
  const ExpectedHeader: seq<string> := ["# SWC Index", "xpos", "ypos", "zpos", "Region", "Subregion", "Label"]

  datatype HeaderCheck = HeaderAccepted | HeaderRejected | HeaderIndexOutOfRange

  /** Every column name trimmed, as the header test compares them. */
  function TrimAll(h: seq<string>): (r: seq<string>)
    ensures |r| == |h| && forall i :: 0 <= i < |h| ==> r[i] == Trim(h[i])
  {
    seq(|h|, i requires 0 <= i < |h| => Trim(h[i]))
  }

  /** The header test as written, on the trimmed names: it lets six names
      through its length guard and then reads the seventh. */
  function CheckNamesAsWritten(n: seq<string>): HeaderCheck {
    if |n| < 6 then HeaderRejected
    else if n[0] != ExpectedHeader[0] || n[1] != ExpectedHeader[1] || n[2] != ExpectedHeader[2]
         || n[3] != ExpectedHeader[3] || n[4] != ExpectedHeader[4] || n[5] != ExpectedHeader[5]
    then HeaderRejected
    else if |n| < 7 then HeaderIndexOutOfRange
    else if n[6] != ExpectedHeader[6] then HeaderRejected
    else HeaderAccepted
  }

  function CheckHeaderAsWritten(h: seq<string>): HeaderCheck {
    CheckNamesAsWritten(TrimAll(h))
  }

  /** The header test as meant: at least seven columns, the first seven named
      as expected once trimmed. */
  predicate NamesOk(n: seq<string>) {
    |n| >= 7 && n[..7] == ExpectedHeader
  }

  predicate HeaderOk(h: seq<string>) {
    NamesOk(TrimAll(h))
  }

  /** On names, the test as written accepts exactly the good headers and fails
      on exactly the first six expected names. */
  lemma CheckNamesAgrees(n: seq<string>)
    ensures CheckNamesAsWritten(n) == HeaderAccepted <==> NamesOk(n)
    ensures CheckNamesAsWritten(n) == HeaderIndexOutOfRange <==> n == ExpectedHeader[..6]
  {
    if |n| >= 6 && n[..6] == ExpectedHeader[..6] {
      assert forall i :: 0 <= i < 6 ==> n[i] == n[..6][i];
    }
    if |n| >= 7 && n[..7] == ExpectedHeader {
      assert forall i :: 0 <= i < 7 ==> n[i] == n[..7][i];
    }
  }

  /** Where the header test as written answers, it answers as meant; it fails
      only on the header whose trimmed names are the first six expected ones. */
  lemma CheckHeaderAsWrittenAgrees(h: seq<string>)
    ensures CheckHeaderAsWritten(h) == HeaderAccepted <==> HeaderOk(h)
    ensures CheckHeaderAsWritten(h) == HeaderIndexOutOfRange <==> TrimAll(h) == ExpectedHeader[..6]
  {
    CheckNamesAgrees(TrimAll(h));
  }

  /** The expected column names need no trimming. */
  lemma ExpectedNameTrimmed(i: nat)
    requires i < |ExpectedHeader|
    ensures Trim(ExpectedHeader[i]) == ExpectedHeader[i]
  {
    var s := ExpectedHeader[i];
    assert s[0] !in WhiteSpace && s[|s| - 1] !in WhiteSpace;
    TrimNothing(s, WhiteSpace);
  }

  lemma HeaderIndexOutOfRangeExample()
    ensures CheckHeaderAsWritten(ExpectedHeader[..6]) == HeaderIndexOutOfRange
    ensures !HeaderOk(ExpectedHeader[..6])
  {
    var h := ExpectedHeader[..6];
    forall i | 0 <= i < 6 ensures TrimAll(h)[i] == h[i] {
      ExpectedNameTrimmed(i);
    }
    assert TrimAll(h) == h;
    CheckNamesAgrees(h);
  }

  /** The fields of one neuron read from an accepted row. */
  datatype NeuronRow = NeuronRow(swcIndex: int, position: Vec3, regionName: string, subregion: string, labelText: string)

  datatype RowKind =
    | Skipped                 // too short: not counted in the line index
    | NoPosition              // x, y or z does not parse: counted, no neuron
    | Accepted(row: NeuronRow)
    | RowIndexOutOfRange      // as written only: six values reach values[6]

  /** int.TryParse into a variable that is 0 on failure. */
  function IntOr0(s: string): int {
    match ParseInt32(s)
    case None => 0
    case Some(v) => v
  }

  function RowFields(v: seq<string>, x: real, y: real, z: real): NeuronRow
    requires |v| >= 6
  {
    var regionList := Trim(v[4]);
    var subregionList := Trim(v[5]);
    NeuronRow(IntOr0(v[0]), Vec3(x, y, z), FirstRegion(regionList), subregionList,
              "Regions: " + CleanList(regionList) + "\nSubregions: " + CleanList(subregionList))
  }

  /** A row as written: the length guard admits six values although the label
      is read from values[6]. */
  function ClassifyRowAsWritten(v: seq<string>): RowKind {
    if |v| < 6 then Skipped
    else match (ParseDecimal(v[1]), ParseDecimal(v[2]), ParseDecimal(v[3]))
      case (Some(x), Some(y), Some(z)) =>
        if |v| < 7 then RowIndexOutOfRange else Accepted(RowFields(v, x, y, z))
      case _ => NoPosition
  }

  /** Whether x, y and z parse. */
  predicate HasPosition(v: seq<string>)
    requires |v| >= 4
  {
    ParseDecimal(v[1]).Some? && ParseDecimal(v[2]).Some? && ParseDecimal(v[3]).Some?
  }

  /** A row as meant: the row as written, except that a six-value row with a
      position, which has no label to read, is skipped as malformed. */
  function ClassifyRow(v: seq<string>): (k: RowKind)
    ensures k != RowIndexOutOfRange
    ensures k == Skipped <==> |v| < 6 || (|v| == 6 && HasPosition(v))
    ensures k == NoPosition <==> |v| >= 6 && !HasPosition(v)
    ensures k.Accepted? <==> |v| >= 7 && HasPosition(v)
    ensures k.Accepted? ==> k.row.position == Vec3(ParseDecimal(v[1]).value, ParseDecimal(v[2]).value, ParseDecimal(v[3]).value)
    ensures k.Accepted? ==> k.row.regionName == FirstRegion(Trim(v[4])) && k.row.subregion == Trim(v[5])
  {
    if |v| < 6 then Skipped
    else match (ParseDecimal(v[1]), ParseDecimal(v[2]), ParseDecimal(v[3]))
      case (Some(x), Some(y), Some(z)) =>
        if |v| < 7 then Skipped else Accepted(RowFields(v, x, y, z))
      case _ => NoPosition
  }

  /** The two agree on every row except one of exactly six values with a
      position, where the code as written fails and the corrected test skips. */
  lemma ClassifyRowAgrees(v: seq<string>)
    ensures ClassifyRowAsWritten(v) == RowIndexOutOfRange <==> |v| == 6 && HasPosition(v)
    ensures ClassifyRowAsWritten(v) != RowIndexOutOfRange ==> ClassifyRowAsWritten(v) == ClassifyRow(v)
    ensures ClassifyRowAsWritten(v) == RowIndexOutOfRange ==> ClassifyRow(v) == Skipped
  {
    if |v| >= 6 {
      var px, py, pz := ParseDecimal(v[1]), ParseDecimal(v[2]), ParseDecimal(v[3]);
      var w := ClassifyRowAsWritten(v);
      if px.Some? && py.Some? && pz.Some? {
        if |v| >= 7 {
          var k := Accepted(RowFields(v, px.value, py.value, pz.value));
          assert w == k;
          assert ClassifyRow(v) == k;
        } else {
          assert w == RowIndexOutOfRange;
        }
      } else {
        assert w == NoPosition;
        assert ClassifyRow(v) == NoPosition;
      }
    }
  }

  /** A six-value row whose x does not parse is counted without a neuron, as
      written and as corrected, so the rows after it keep their line index. */
  lemma SixValuesNoPositionExample()
    ensures ClassifyRowAsWritten(["1", "a", "0", "0", "R", "S"]) == NoPosition
    ensures ClassifyRow(["1", "a", "0", "0", "R", "S"]) == NoPosition
  {
    var v := ["1", "a", "0", "0", "R", "S"];
    CharIsNoNumber('a');
    assert v[1] == ['a'];
    assert !HasPosition(v);
  }

  /** A single character that is no digit, sign, point or white space is no number. */
  lemma CharIsNoNumber(c: char)
    requires !IsDigit(c) && c !in NumberWhite && c != '.' && c != '-' && c != '+'
    ensures ParseDecimal([c]).None?
  {
    var s := [c];
    TrimNothing(s, NumberWhite);
    var t := SignOf(s);
    assert t.body == s;
    var i := FirstIndexIn(s, {'.'});
    assert i == 1;
    assert t.body[..i] == s;
    assert !AllDigits(s);
  }

  lemma RowIndexOutOfRangeExample()
    ensures ClassifyRowAsWritten(["1", "0", "0", "0", "Diencephalon", "x"]) == RowIndexOutOfRange
    ensures ClassifyRow(["1", "0", "0", "0", "Diencephalon", "x"]) == Skipped
  {
    var v := ["1", "0", "0", "0", "Diencephalon", "x"];
    ParseDecimalOfInt(0);
    assert IntToString(0) == "0";
    assert v[1] == "0" && v[2] == "0" && v[3] == "0";
    ClassifyRowAgrees(v);
  }

  /** Every row classified. */
  function ClassifyAll(rows: seq<seq<string>>): (ks: seq<RowKind>)
    ensures |ks| == |rows| && forall i :: 0 <= i < |rows| ==> ks[i] == ClassifyRow(rows[i])
  {
    seq(|rows|, i requires 0 <= i < |rows| => ClassifyRow(rows[i]))
  }

  /** The number of rows that advance the line index: all but the skipped ones. */
  function LineCount(ks: seq<RowKind>): (n: nat)
    ensures n <= |ks|
  {
    if ks == [] then 0
    else LineCount(ks[..|ks| - 1]) + (if ks[|ks| - 1] == Skipped then 0 else 1)
  }

  /** The neurons of the classified rows, in file order, each with the index
      it is given: its SWC index, or its line index among the rows not skipped. */
  function Entries(ks: seq<RowKind>, useSWCIndex: bool): (r: seq<(int, NeuronRow)>)
    ensures |r| <= |ks|
    ensures forall i :: 0 <= i < |r| ==> Accepted(r[i].1) in ks
  {
    if ks == [] then []
    else
      var init := ks[..|ks| - 1];
      assert forall k :: k in init ==> k in ks;
      Entries(init, useSWCIndex) +
        match ks[|ks| - 1]
        case Accepted(nr) => [(if useSWCIndex then nr.swcIndex else LineCount(init), nr)]
        case _ => []
  }

  /** The neurons the data rows describe. */
  function NeuronRows(rows: seq<seq<string>>, useSWCIndex: bool): (r: seq<(int, NeuronRow)>)
    ensures |r| <= |rows|
  {
    Entries(ClassifyAll(rows), useSWCIndex)
  }

  /** The line indices given without SWC indices count up from 0, one per row
      that is not skipped, so they increase strictly. */
  lemma {:induction false} LineIndicesIncrease(ks: seq<RowKind>)
    ensures forall i, j :: 0 <= i < j < |Entries(ks, false)| ==>
      0 <= Entries(ks, false)[i].0 < Entries(ks, false)[j].0 < LineCount(ks)
  {
    if ks != [] {
      var init := ks[..|ks| - 1];
      LineIndicesIncrease(init);
      LineIndicesBelow(init);
      var r0 := Entries(init, false);
      var r := Entries(ks, false);
      assert forall i :: 0 <= i < |r0| ==> r[i] == r0[i];
      if ks[|ks| - 1].Accepted? {
        assert r == r0 + [(LineCount(init), ks[|ks| - 1].row)];
        assert LineCount(ks) == LineCount(init) + 1;
        forall i, j | 0 <= i < j < |r| ensures 0 <= r[i].0 < r[j].0 < LineCount(ks) {
          assert r[i] == r0[i];
          if j < |r0| {
            assert r[j] == r0[j];
          } else {
            assert r[j].0 == LineCount(init);
          }
        }
      } else {
        assert r == r0;
        assert LineCount(ks) >= LineCount(init);
        forall i, j | 0 <= i < j < |r| ensures 0 <= r[i].0 < r[j].0 < LineCount(ks) {
          assert r[i] == r0[i] && r[j] == r0[j];
        }
      }
    } else {
      assert Entries(ks, false) == [];
    }
  }

  lemma {:induction false} LineIndicesBelow(ks: seq<RowKind>)
    ensures forall i :: 0 <= i < |Entries(ks, false)| ==> 0 <= Entries(ks, false)[i].0 < LineCount(ks)
  {
    if ks != [] {
      var init := ks[..|ks| - 1];
      LineIndicesBelow(init);
      var r0 := Entries(init, false);
      var r := Entries(ks, false);
      assert forall i :: 0 <= i < |r0| ==> r[i] == r0[i];
    }
  }

  /** Every region name the rows mention. */
  function RegionNames(nrs: seq<(int, NeuronRow)>): (r: set<string>)
    ensures forall i :: 0 <= i < |nrs| ==> nrs[i].1.regionName in r
    ensures forall nm :: nm in r ==> exists i :: 0 <= i < |nrs| && nrs[i].1.regionName == nm
  {
    set i | 0 <= i < |nrs| :: nrs[i].1.regionName
  }

  // ---------------------------------------------------------------- fish files

  /** FishSignalData(\d+) */
  const FishPattern: Pattern := Pattern("FishSignalData", Literal(""))

  /** The dictionary key of a file name that matches the pattern. */
  function FishKey(name: string): (k: Option<string>)
    ensures k.Some? <==> Search(name, FishPattern).Some?
    ensures k.Some? ==> k.value == "Fish" + Search(name, FishPattern).value
  {
    match Search(name, FishPattern)
    case None => None
    case Some(digits) => Some("Fish" + digits)
  }

  /** ToDictionary over names and their keys (None: no key, not entered):
      None when a key repeats, else every keyed name under its key. */
  function Dictionary(names: seq<string>, keys: seq<Option<string>>): (r: Option<map<string, string>>)
    requires |keys| == |names|
    ensures r.Some? ==> forall i :: 0 <= i < |names| && keys[i].Some? ==>
      keys[i].value in r.value && r.value[keys[i].value] == names[i]
    ensures r.Some? ==> forall k :: k in r.value ==> exists i :: 0 <= i < |names| && keys[i] == Some(k)
    ensures r.None? <==> exists i, j :: 0 <= i < j < |names| && keys[i].Some? && keys[i] == keys[j]
    decreases |names|
  {
    if names == [] then Some(map[])
    else
      var n := |names| - 1;
      var init, initKeys := names[..n], keys[..n];
      assert forall i :: 0 <= i < n ==> init[i] == names[i] && initKeys[i] == keys[i];
      match Dictionary(init, initKeys)
      case None => None
      case Some(m) =>
        match keys[n]
        case None => Some(m)
        case Some(k) =>
          if k in m then
            var i :| 0 <= i < n && initKeys[i] == Some(k);
            assert keys[i] == keys[n];
            None
          else Some(m[k := names[n]])
  }

  /** The key of every file name. */
  function FishKeys(names: seq<string>): (keys: seq<Option<string>>)
    ensures |keys| == |names| && forall i :: 0 <= i < |names| ==> keys[i] == FishKey(names[i])
  {
    seq(|names|, i requires 0 <= i < |names| => FishKey(names[i]))
  }

  /** getFishNamesAndFiles: the matching names keyed by "Fish" and their digits.
      ToDictionary rejects a repeated key, which is the None result. */
  function FishFiles(names: seq<string>): Option<map<string, string>> {
    Dictionary(names, FishKeys(names))
  }

  // ---------------------------------------------------------------- signal files

  /** The first signal column; the columns before it describe the neuron. */
  const FirstActivityColumn: nat := 10

  /** activationValue > 0 ? 1 : 0 */
  function Binarise(v: real): (b: real)
    ensures b == 0.0 || b == 1.0
    ensures b == 1.0 <==> v > 0.0
  {
    if v > 0.0 then 1.0 else 0.0
  }

  /** Every cell of a row read with float.TryParse. */
  function ParseCells(row: seq<string>): (cells: seq<Option<real>>)
    ensures |cells| == |row|
  {
    seq(|row|, c requires 0 <= c < |row| => ParseDecimal(row[c]))
  }

  /** The event of the cell at column c of a parsed signal row: none when it
      does not parse, else its binarised value at timestamp c - 10. */
  function ColumnEvent(fish: string, cells: seq<Option<real>>, c: nat): (r: seq<Event>)
    requires FirstActivityColumn <= c < |cells|
    ensures |r| <= 1 && (r != [] <==> cells[c].Some?)
    ensures r != [] ==> r[0] == Event(fish, c - FirstActivityColumn, Binarise(cells[c].value))
  {
    match cells[c]
    case None => []
    case Some(v) => [Event(fish, c - FirstActivityColumn, Binarise(v))]
  }

  /** The events of one parsed signal row: a binarised value for every column
      from the tenth on whose cell parses, at timestamp column - 10. */
  function RowEvents(fish: string, cells: seq<Option<real>>, upTo: nat): (r: seq<Event>)
    requires upTo <= |cells|
    ensures forall e :: e in r ==> e.fish == fish && (e.value == 0.0 || e.value == 1.0)
    ensures forall e :: e in r ==> 0 <= e.time && FirstActivityColumn + e.time < upTo
  {
    if upTo <= FirstActivityColumn then []
    else RowEvents(fish, cells, upTo - 1) + ColumnEvent(fish, cells, upTo - 1)
  }

  /** An event is written for a timestamp exactly when its cell parses, with
      the binarised value of that cell. */
  lemma {:induction false} RowEventsSpec(fish: string, cells: seq<Option<real>>, upTo: nat, t: int)
    requires upTo <= |cells|
    ensures (exists e :: e in RowEvents(fish, cells, upTo) && e.time == t) <==>
      0 <= t && FirstActivityColumn + t < upTo && cells[FirstActivityColumn + t].Some?
    ensures forall e :: e in RowEvents(fish, cells, upTo) && e.time == t ==>
      e.value == Binarise(cells[FirstActivityColumn + t].value)
    decreases upTo
  {
    if upTo > FirstActivityColumn {
      RowEventsSpec(fish, cells, upTo - 1, t);
      var c := upTo - 1;
      var before := RowEvents(fish, cells, c);
      var cell := ColumnEvent(fish, cells, c);
      var all := RowEvents(fish, cells, upTo);
      assert all == before + cell;
      assert forall e :: e in all <==> e in before || e in cell;
      if cells[c].Some? {
        assert cell[0] in all;
      } else {
        assert cell == [];
      }
    }
  }

  /** A store whose values are all 0 or 1. */
  predicate Binary(st: Store) {
    forall f, t :: f in st && t in st[f] ==> st[f][t] == 0.0 || st[f][t] == 1.0
  }

  /** Writing 0/1 values into a 0/1 store keeps it 0/1. */
  lemma {:induction false} PutAllBinary(st: Store, evs: seq<Event>)
    requires Binary(st)
    requires forall e :: e in evs ==> e.value == 0.0 || e.value == 1.0
    ensures Binary(PutAll(st, evs))
    decreases |evs|
  {
    if evs != [] {
      var st' := Put(st, evs[0].fish, evs[0].time, evs[0].value);
      assert Binary(st');
      assert forall e :: e in evs[1..] ==> e in evs;
      PutAllBinary(st', evs[1..]);
    }
  }

  // ---------------------------------------------------------------- the loaded brain

  /** The neurons of ns filed under region r, in order. */
  function InRegion(ns: seq<Neuron>, r: Region): (rs: seq<Neuron>)
    ensures |rs| <= |ns|
  {
    if ns == [] then []
    else InRegion(ns[..|ns| - 1], r) + (if ns[|ns| - 1].region == r then [ns[|ns| - 1]] else [])
  }

  /** A region's neurons are exactly the neurons filed under it. */
  lemma {:induction false} InRegionMembers(ns: seq<Neuron>, r: Region, n: Neuron)
    ensures n in InRegion(ns, r) <==> n in ns && n.region == r
  {
    if ns != [] {
      InRegionMembers(ns[..|ns| - 1], r, n);
      assert ns == ns[..|ns| - 1] + [ns[|ns| - 1]];
    }
  }

  /** Neuron n is the one LoadAllNeuronData makes in brain b, whose regions
      are given, for entry e (all of these are fields set once). */
  predicate NeuronFrom(n: Neuron, e: (int, NeuronRow), b: Brain, regions: map<string, Region>,
                       inactiveSize: real, activeSize: real)
  {
    var name := e.1.regionName;
    n.neuronIdx == e.0 && n.originalPosition == e.1.position && n.color == RegionColour(name)
    && n.subregion == e.1.subregion && n.neuronLabel == e.1.labelText
    && n.brain == b && name in regions && n.region == regions[name]
    && n.inactiveNeuronSize == inactiveSize && n.activeNeuronSize == activeSize
  }

  /** No neuron of ns has activity or is shown active yet. */
  ghost predicate Pristine(ns: seq<Neuron>)
    reads ns
  {
    forall i :: 0 <= i < |ns| ==> ns[i].activityList == map[] && !ns[i].isActive
  }

  /** Region r has no activity yet and its bounds take in its neurons. */
  ghost predicate Quiet(r: Region)
    reads r
  {
    r.sumActivities == map[] && r.numActivities == map[] && r.minActivities == map[] && r.maxActivities == map[]
    && r.BoundsCover()
  }

  /** What LoadAllNeuronData has made of the entries es, on snapshots: ns the
      brain's neurons, rs its regions by name and rn each region's neuron list.
      Each neuron is made from its entry and appears once; there is one region
      per region name, named by it, holding the neurons filed under it. */
  ghost predicate Plan(ns: seq<Neuron>, rs: map<string, Region>, rn: map<string, seq<Neuron>>, b: Brain,
                       es: seq<(int, NeuronRow)>, inactiveSize: real, activeSize: real)
  {
    |ns| == |es| && rs.Keys == RegionNames(es)
    && (forall i :: 0 <= i < |es| ==> NeuronFrom(ns[i], es[i], b, rs, inactiveSize, activeSize))
    && (forall i, j :: 0 <= i < j < |ns| ==> ns[i] != ns[j])
    && (forall nm :: nm in rs ==> rs[nm].name == nm && rs[nm].color == RegionColour(nm) && rs[nm].brain == b)
    && (forall nm :: nm in rs ==> nm in rn && rn[nm] == InRegion(ns, rs[nm]))
  }

  /** Brain b holds the snapshots: its neurons are ns, its regions rs, each
      region's neuron list is the one in rn, and no region has activity yet. */
  ghost predicate Mirror(b: Brain, ns: seq<Neuron>, rs: map<string, Region>, rn: map<string, seq<Neuron>>)
    reads b, b.regions.Values
  {
    b.neurons == ns && b.regions == rs
    && forall nm :: nm in rs ==> nm in rn && rs[nm].neurons == rn[nm] && Quiet(rs[nm])
  }

  /** Each region's neuron list, by region name. */
  ghost function RegionLists(b: Brain): (rn: map<string, seq<Neuron>>)
    reads b, b.regions.Values
    ensures rn.Keys == b.regions.Keys && forall nm :: nm in b.regions ==> rn[nm] == b.regions[nm].neurons
  {
    map nm | nm in b.regions :: b.regions[nm].neurons
  }

  /** Brain b is what LoadAllNeuronData makes of the entries es: the plan holds
      of its own neurons, regions and region lists, no neuron or region has
      activity yet, and the bounds are tight around the neurons. */
  ghost predicate Built(b: Brain, es: seq<(int, NeuronRow)>, inactiveSize: real, activeSize: real)
    reads b, b.neurons, b.regions.Values
  {
    Plan(b.neurons, b.regions, RegionLists(b), b, es, inactiveSize, activeSize)
    && Pristine(b.neurons) && b.BoundsTight()
    && forall nm :: nm in b.regions ==> Quiet(b.regions[nm])
  }

  lemma MirrorBuilt(b: Brain, rn: map<string, seq<Neuron>>, es: seq<(int, NeuronRow)>, inactiveSize: real, activeSize: real)
    requires Mirror(b, b.neurons, b.regions, rn) && Plan(b.neurons, b.regions, rn, b, es, inactiveSize, activeSize)
    requires Pristine(b.neurons) && b.BoundsTight()
    ensures Built(b, es, inactiveSize, activeSize)
  {
    var rl := RegionLists(b);
    forall nm | nm in b.regions ensures nm in rl && rl[nm] == InRegion(b.neurons, b.regions[nm]) {
      assert rl[nm] == rn[nm];
    }
  }

  lemma RegionNamesSnoc(es: seq<(int, NeuronRow)>, e: (int, NeuronRow))
    ensures RegionNames(es + [e]) == RegionNames(es) + {e.1.regionName}
  {
    var es' := es + [e];
    assert forall i :: 0 <= i < |es| ==> es'[i] == es[i];
    assert es'[|es|] == e;
  }

  lemma InRegionSnoc(ns: seq<Neuron>, n: Neuron, r: Region)
    ensures InRegion(ns + [n], r) == InRegion(ns, r) + (if n.region == r then [n] else [])
  {
    assert (ns + [n])[..|ns|] == ns;
  }

  /** A region no neuron is filed under holds none. */
  lemma {:induction false} InRegionNone(ns: seq<Neuron>, r: Region)
    requires forall i :: 0 <= i < |ns| ==> ns[i].region != r
    ensures InRegion(ns, r) == []
  {
    if ns != [] {
      InRegionNone(ns[..|ns| - 1], r);
    }
  }

  /** One more entry's neuron, filed under the region of its name (the old
      one, or a new one named by it), extends the plan. */
  lemma PlanStep(ns: seq<Neuron>, rs: map<string, Region>, rn: map<string, seq<Neuron>>, b: Brain,
                 es: seq<(int, NeuronRow)>, e: (int, NeuronRow), n: Neuron, region: Region,
                 ns': seq<Neuron>, rs': map<string, Region>, rn1: map<string, seq<Neuron>>, rn': map<string, seq<Neuron>>,
                 es': seq<(int, NeuronRow)>, inactiveSize: real, activeSize: real)
    requires Plan(ns, rs, rn, b, es, inactiveSize, activeSize)
    requires forall i :: 0 <= i < |ns| ==> ns[i] != n
    requires e.1.regionName in rs ==> region == rs[e.1.regionName]
    requires e.1.regionName !in rs ==>
      region.name == e.1.regionName && region.color == RegionColour(e.1.regionName) && region.brain == b
    requires ns' == ns + [n] && es' == es + [e] && rs' == rs[e.1.regionName := region]
    requires rn1 == rn[e.1.regionName := if e.1.regionName in rs then rn[e.1.regionName] else []]
    requires rn' == rn1[e.1.regionName := rn1[e.1.regionName] + [n]]
    requires NeuronFrom(n, e, b, rs', inactiveSize, activeSize)
    ensures Plan(ns', rs', rn', b, es', inactiveSize, activeSize)
  {
    var name := e.1.regionName;
    if name in rs {
      assert region.name == name && region.color == RegionColour(name) && region.brain == b;
    }
    RegionNamesSnoc(es, e);
    assert rs'.Keys == RegionNames(es');
    NamesStep(rs, b, name, region, rs');
    forall nm | nm in rs ensures nm in rs' && rs'[nm] == rs[nm] {
    }
    NeuronsStep(ns, rs, rn, b, es, e, n, rs', inactiveSize, activeSize);
    RegionListsStep(ns, rs, rn, b, es, e, n, region, rs', rn1, rn', inactiveSize, activeSize);
    assert |ns'| == |es'|;
  }

  /** The names part of PlanStep: every region is still named by its key. */
  lemma NamesStep(rs: map<string, Region>, b: Brain, name: string, region: Region, rs': map<string, Region>)
    requires forall nm :: nm in rs ==> rs[nm].name == nm && rs[nm].color == RegionColour(nm) && rs[nm].brain == b
    requires region.name == name && region.color == RegionColour(name) && region.brain == b
    requires rs' == rs[name := region]
    ensures forall nm :: nm in rs' ==> rs'[nm].name == nm && rs'[nm].color == RegionColour(nm) && rs'[nm].brain == b
  {
    forall nm | nm in rs' ensures rs'[nm].name == nm && rs'[nm].color == RegionColour(nm) && rs'[nm].brain == b {
      if nm != name {
        assert rs'[nm] == rs[nm];
      }
    }
  }

  /** The neurons part of PlanStep: the new neuron is made from the new entry,
      the old ones still from theirs, and none appears twice. */
  lemma NeuronsStep(ns: seq<Neuron>, rs: map<string, Region>, rn: map<string, seq<Neuron>>, b: Brain,
                    es: seq<(int, NeuronRow)>, e: (int, NeuronRow), n: Neuron, rs': map<string, Region>,
                    inactiveSize: real, activeSize: real)
    requires Plan(ns, rs, rn, b, es, inactiveSize, activeSize)
    requires forall i :: 0 <= i < |ns| ==> ns[i] != n
    requires forall nm :: nm in rs ==> nm in rs' && rs'[nm] == rs[nm]
    requires NeuronFrom(n, e, b, rs', inactiveSize, activeSize)
    ensures forall i :: 0 <= i < |es| + 1 ==> NeuronFrom((ns + [n])[i], (es + [e])[i], b, rs', inactiveSize, activeSize)
    ensures forall i, j :: 0 <= i < j < |ns| + 1 ==> (ns + [n])[i] != (ns + [n])[j]
  {
    var ns', es' := ns + [n], es + [e];
    forall i, j | 0 <= i < j < |ns'| ensures ns'[i] != ns'[j] {
      if j < |ns| {
        assert ns'[i] == ns[i] && ns'[j] == ns[j];
      }
    }
    forall i | 0 <= i < |es'| ensures NeuronFrom(ns'[i], es'[i], b, rs', inactiveSize, activeSize) {
      if i < |es| {
        assert ns'[i] == ns[i] && es'[i] == es[i];
        assert NeuronFrom(ns[i], es[i], b, rs, inactiveSize, activeSize);
      }
    }
  }

  /** The region lists part of PlanStep: only the list of the entry's region
      grows, by the new neuron. */
  lemma RegionListsStep(ns: seq<Neuron>, rs: map<string, Region>, rn: map<string, seq<Neuron>>, b: Brain,
                        es: seq<(int, NeuronRow)>, e: (int, NeuronRow), n: Neuron, region: Region,
                        rs': map<string, Region>, rn1: map<string, seq<Neuron>>, rn': map<string, seq<Neuron>>,
                        inactiveSize: real, activeSize: real)
    requires Plan(ns, rs, rn, b, es, inactiveSize, activeSize)
    requires e.1.regionName in rs ==> region == rs[e.1.regionName]
    requires e.1.regionName !in rs ==> region.name == e.1.regionName
    requires n.region == region
    requires rs' == rs[e.1.regionName := region]
    requires rn1 == rn[e.1.regionName := if e.1.regionName in rs then rn[e.1.regionName] else []]
    requires rn' == rn1[e.1.regionName := rn1[e.1.regionName] + [n]]
    ensures forall nm :: nm in rs' ==> nm in rn' && rn'[nm] == InRegion(ns + [n], rs'[nm])
  {
    var name := e.1.regionName;
    var ns' := ns + [n];
    forall nm | nm in rs' ensures nm in rn' && rn'[nm] == InRegion(ns', rs'[nm]) {
      InRegionSnoc(ns, n, rs'[nm]);
      if nm == name && name !in rs {
        forall i | 0 <= i < |ns| ensures ns[i].region != region {
          assert NeuronFrom(ns[i], es[i], b, rs, inactiveSize, activeSize);
        }
        InRegionNone(ns, region);
      } else if nm != name {
        assert rs'[nm].name == nm;
      }
    }
  }

  /** The region filed under name, made and entered on first sight. */
  method EnterRegion(b: Brain, name: string, ghost rn: map<string, seq<Neuron>>) returns (region: Region)
    requires Mirror(b, b.neurons, b.regions, rn)
    modifies b`regions
    ensures b.regions == old(b.regions)[name := region]
    ensures name in old(b.regions) ==> region == old(b.regions[name])
    ensures name !in old(b.regions) ==>
      fresh(region) && region.name == name && region.color == RegionColour(name) && region.brain == b
    ensures Mirror(b, b.neurons, b.regions, rn[name := if name in old(b.regions) then rn[name] else []])
    ensures forall nm :: nm in b.regions ==> (nm in old(b.regions) && b.regions[nm] == old(b.regions[nm])) || fresh(b.regions[nm])
  {
    if name in b.regions {
      region := b.regions[name];
    } else {
      region := new Region(name, RegionColour(name), b);
      assert Quiet(region);
    }
    ghost var rs := b.regions;
    b.regions := b.regions[name := region];
    ghost var rn1 := rn[name := if name in rs then rn[name] else []];
    forall nm | nm in b.regions ensures nm in rn1 && b.regions[nm].neurons == rn1[nm] && Quiet(b.regions[nm]) {
      var r := b.regions[nm];
      if nm == name && name !in rs {
        assert r.neurons == [] == rn1[nm];
      } else {
        assert r == rs[nm] && rn1[nm] == rn[nm];
        assert old(r.neurons) == rn[nm];
      }
    }
  }

  /** The neuron is appended to the brain and to the region filed under name,
      keeping the brain's bounds tight. */
  method FileNeuron(b: Brain, region: Region, n: Neuron, ghost name: string, ghost rn: map<string, seq<Neuron>>)
    requires Mirror(b, b.neurons, b.regions, rn)
    requires name in b.regions && b.regions[name] == region
    requires forall nm :: nm in b.regions ==> b.regions[nm].name == nm
    requires Pristine(b.neurons) && n.activityList == map[] && !n.isActive
    modifies b`neurons, b`bounds, region`neurons, region`bounds
    ensures Mirror(b, old(b.neurons) + [n], b.regions, rn[name := rn[name] + [n]])
    ensures Pristine(b.neurons)
    ensures old(b.BoundsTight()) ==> b.BoundsTight()
  {
    b.AddNeuron(n);
    region.AddNeuron(n);
  }

  /** One accepted row: the region named by the entry is created on first
      sight, then a new neuron with its own highlight sphere and feature set
      is added to the brain and to that region. */
  method AddEntry(b: Brain, ghost rn: map<string, seq<Neuron>>, ghost es: seq<(int, NeuronRow)>, e: (int, NeuronRow),
                  inactiveSize: real, activeSize: real)
    returns (ghost rn': map<string, seq<Neuron>>)
    requires Plan(b.neurons, b.regions, rn, b, es, inactiveSize, activeSize) && Mirror(b, b.neurons, b.regions, rn)
    requires Pristine(b.neurons) && b.BoundsTight()
    modifies b`neurons, b`bounds, b`regions, b.regions.Values`neurons, b.regions.Values`bounds
    ensures Plan(b.neurons, b.regions, rn', b, es + [e], inactiveSize, activeSize) && Mirror(b, b.neurons, b.regions, rn')
    ensures Pristine(b.neurons) && b.BoundsTight()
    ensures forall nm :: nm in b.regions ==> (nm in old(b.regions) && b.regions[nm] == old(b.regions[nm])) || fresh(b.regions[nm])
  {
    ghost var ns, rs := b.neurons, b.regions;
    var name := e.1.regionName;
    var region := EnterRegion(b, name, rn);
    NamesStep(rs, b, name, region, b.regions);
    ghost var rn1 := rn[name := if name in rs then rn[name] else []];
    var n := PlaceNeuron(b, region, ns, rs, rn1, e, inactiveSize, activeSize);
    rn' := rn1[name := rn1[name] + [n]];
    PlanStep(ns, rs, rn, b, es, e, n, region, b.neurons, b.regions, rn1, rn', es + [e], inactiveSize, activeSize);
  }

  /** The second half of one loader step: the neuron for e is made and filed in its (already entered) region. */
  method PlaceNeuron(b: Brain, region: Region, ghost ns: seq<Neuron>, ghost rs: map<string, Region>,
                     ghost rn1: map<string, seq<Neuron>>, e: (int, NeuronRow), inactiveSize: real, activeSize: real)
    returns (n: Neuron)
    requires b.neurons == ns && b.regions == rs[e.1.regionName := region]
    requires forall nm :: nm in b.regions ==> b.regions[nm].name == nm
    requires Mirror(b, b.neurons, b.regions, rn1)
    requires Pristine(b.neurons) && b.BoundsTight()
    modifies b`neurons, b`bounds, region`neurons, region`bounds
    ensures b.neurons == ns + [n] && b.regions == rs[e.1.regionName := region]
    ensures forall i :: 0 <= i < |ns| ==> ns[i] != n
    ensures NeuronFrom(n, e, b, b.regions, inactiveSize, activeSize)
    ensures Mirror(b, b.neurons, b.regions, rn1[e.1.regionName := rn1[e.1.regionName] + [n]])
    ensures Pristine(b.neurons) && b.BoundsTight()
  {
    n := MakeNeuron(b, region, e, inactiveSize, activeSize);
    FileNeuron(b, region, n, e.1.regionName, rn1);
  }

  /** A fresh neuron for entry e: its own highlight sphere and feature data, no activity, shown inactive. */
  method MakeNeuron(b: Brain, region: Region, e: (int, NeuronRow), inactiveSize: real, activeSize: real)
    returns (n: Neuron)
    ensures fresh(n) && n.activityList == map[] && !n.isActive
    ensures n.neuronIdx == e.0 && n.originalPosition == e.1.position && n.color == RegionColour(e.1.regionName)
    ensures n.subregion == e.1.subregion && n.neuronLabel == e.1.labelText && n.brain == b && n.region == region
    ensures n.inactiveNeuronSize == inactiveSize && n.activeNeuronSize == activeSize
  {
    var sphere := new HighlightSphere();
    var features := new FeatureData();
    n := new Neuron(e.0, e.1.position, RegionColour(e.1.regionName), e.1.subregion, e.1.labelText, b, region,
                    sphere, features, inactiveSize, activeSize, false);
  }


  // ---------------------------------------------------------------- loading a positions file

  const Comma: set<char> := {','}

  /** Every line split at commas. */
  function SplitRows(lines: seq<string>): (rows: seq<seq<string>>)
    ensures |rows| == |lines| && forall i :: 0 <= i < |lines| ==> rows[i] == Split(lines[i], Comma)
  {
    seq(|lines|, i requires 0 <= i < |lines| => Split(lines[i], Comma))
  }

  /** One more element of s taken. */
  lemma PrefixSnoc<T>(s: seq<T>, k: nat)
    requires 0 < k <= |s|
    ensures s[..k] == s[..k - 1] + [s[k - 1]]
  {
  }

  datatype LoadOutcome = Loaded | FileNotFound | EmptyFile | BadHeader

  /** A row without a neuron adds no entry; it advances the line index unless skipped. */
  lemma EntriesSnocNone(ks: seq<RowKind>, k: RowKind, useSWCIndex: bool)
    requires !k.Accepted?
    ensures LineCount(ks + [k]) == LineCount(ks) + (if k == Skipped then 0 else 1)
    ensures Entries(ks + [k], useSWCIndex) == Entries(ks, useSWCIndex)
  {
    assert (ks + [k])[..|ks|] == ks;
  }

  /** An accepted row adds its neuron, with the index the loader gives it, and advances the line index. */
  lemma EntriesSnocAccepted(ks: seq<RowKind>, nr: NeuronRow, useSWCIndex: bool)
    ensures LineCount(ks + [Accepted(nr)]) == LineCount(ks) + 1
    ensures Entries(ks + [Accepted(nr)], useSWCIndex) ==
      Entries(ks, useSWCIndex) + [(if useSWCIndex then nr.swcIndex else LineCount(ks), nr)]
  {
    assert (ks + [Accepted(nr)])[..|ks|] == ks;
  }

  /** One data row of the positions file: skipped when short, counted but
      without a neuron when its position does not parse, else made a neuron. */
  method ReadRow(b: Brain, ghost rn: map<string, seq<Neuron>>, ghost done: seq<RowKind>, kind: RowKind,
                 useSWCIndex: bool, lineIdx: int, inactiveSize: real, activeSize: real)
    returns (ghost rn': map<string, seq<Neuron>>, lineIdx': int)
    requires kind != RowIndexOutOfRange && lineIdx == LineCount(done)
    requires Plan(b.neurons, b.regions, rn, b, Entries(done, useSWCIndex), inactiveSize, activeSize)
    requires Mirror(b, b.neurons, b.regions, rn)
    requires Pristine(b.neurons) && b.BoundsTight()
    modifies b`neurons, b`bounds, b`regions, b.regions.Values`neurons, b.regions.Values`bounds
    ensures lineIdx' == LineCount(done + [kind])
    ensures Plan(b.neurons, b.regions, rn', b, Entries(done + [kind], useSWCIndex), inactiveSize, activeSize)
    ensures Mirror(b, b.neurons, b.regions, rn')
    ensures Pristine(b.neurons) && b.BoundsTight()
    ensures forall nm :: nm in b.regions ==> (nm in old(b.regions) && b.regions[nm] == old(b.regions[nm])) || fresh(b.regions[nm])
  {
    rn', lineIdx' := rn, lineIdx;
    if !kind.Accepted? {
      EntriesSnocNone(done, kind, useSWCIndex);
      if kind == NoPosition {
        lineIdx' := lineIdx + 1;
      }
    } else {
      var nr := kind.row;
      EntriesSnocAccepted(done, nr, useSWCIndex);
      var idx := if useSWCIndex then nr.swcIndex else lineIdx;
      ghost var es := Entries(done, useSWCIndex);
      assert Entries(done + [kind], useSWCIndex) == es + [(idx, nr)];
      rn' := AddEntry(b, rn, es, (idx, nr), inactiveSize, activeSize);
      lineIdx' := lineIdx + 1;
    }
  }

  /** Reads a positions file, given as its lines (None when it does not exist),
      into a new brain: one region per region name, one neuron per accepted row. */
  method LoadAllNeuronData(file: Option<seq<string>>, useSWCIndex: bool, inactiveSize: real, activeSize: real)
    returns (outcome: LoadOutcome, b: Brain?)
    ensures outcome == Loaded <==> b != null
    ensures file.None? ==> outcome == FileNotFound
    ensures file == Some([]) ==> outcome == EmptyFile
    ensures file.Some? && file.value != [] ==> (outcome == BadHeader <==> !HeaderOk(Split(file.value[0], Comma)))
    ensures outcome == Loaded ==>
      file.Some? && file.value != [] && fresh(b) && (forall nm :: nm in b.regions ==> fresh(b.regions[nm]))
      && Built(b, NeuronRows(SplitRows(file.value[1..]), useSWCIndex), inactiveSize, activeSize)
  {
    if file.None? {
      return FileNotFound, null;
    }
    var lines := file.value;
    if lines == [] {
      return EmptyFile, null;
    }
    var headers := Split(lines[0], Comma);
    if !HeaderOk(headers) {
      return BadHeader, null;
    }
    b := new Brain();
    ghost var data := SplitRows(lines[1..]);
    ghost var ks := ClassifyAll(data);
    ghost var rn: map<string, seq<Neuron>> := map[];
    var lineIdx := 0;
    var k := 1;
    while k < |lines|
      invariant 1 <= k <= |lines| && |ks| == |lines| - 1
      invariant lineIdx == LineCount(ks[..k - 1])
      invariant Plan(b.neurons, b.regions, rn, b, Entries(ks[..k - 1], useSWCIndex), inactiveSize, activeSize)
      invariant Mirror(b, b.neurons, b.regions, rn)
      invariant Pristine(b.neurons) && b.BoundsTight()
      invariant forall nm :: nm in b.regions ==> fresh(b.regions[nm])
    {
      PrefixSnoc(ks, k);
      var values := Split(lines[k], Comma);
      assert values == data[k - 1];
      var kind := ClassifyRow(values);
      rn, lineIdx := ReadRow(b, rn, ks[..k - 1], kind, useSWCIndex, lineIdx, inactiveSize, activeSize);
      k := k + 1;
    }
    assert ks[..k - 1] == ks;
    MirrorBuilt(b, rn, NeuronRows(data, useSWCIndex), inactiveSize, activeSize);
    outcome := Loaded;
  }
}
