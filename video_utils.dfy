/** Frame numbers in the names of exported frame images: the first of a fixed,
    ordered list of patterns that matches the cleaned name decides. */
module VideoUtils {
  import opened Text

  /** frame_(\d+), (\d+)_frame, (\d+)$, _(\d+)_, (\d+), in the order tried. */
  const FramePatterns: seq<Pattern> := [
    Pattern("frame_", Literal("")),
    Pattern("", Literal("_frame")),
    Pattern("", EndOfInput),
    Pattern("_", Literal("_")),
    Pattern("", Literal(""))
  ]

  /** The name lowercased, with every ".png" removed. */
  function CleanFrameName(filename: string): string {
    RemoveAll(Lower(filename), ".png")
  }

  /** The digit group of the first pattern that matches, trying them in order. */
  function FirstGroup(name: string, ps: seq<Pattern>): (r: Option<string>)
    ensures r.Some? <==> exists i :: 0 <= i < |ps| && Search(name, ps[i]).Some?
    ensures r.Some? ==> r.value != [] && AllDigits(r.value)
  {
    if ps == [] then None
    else if Search(name, ps[0]).Some? then Search(name, ps[0])
    else
      assert forall i :: 1 <= i < |ps| ==> ps[i] == ps[1..][i - 1];
      FirstGroup(name, ps[1..])
  }

  /** The group FirstGroup returns is that of the first pattern that matches:
      every pattern before it fails. */
  lemma {:induction false} FirstGroupIsFirst(name: string, ps: seq<Pattern>)
    requires FirstGroup(name, ps).Some?
    ensures exists i :: 0 <= i < |ps| && Search(name, ps[i]) == FirstGroup(name, ps)
                        && forall j :: 0 <= j < i ==> Search(name, ps[j]).None?
  {
    if Search(name, ps[0]).Some? {
      assert Search(name, ps[0]) == FirstGroup(name, ps);
    } else {
      FirstGroupIsFirst(name, ps[1..]);
      var i :| 0 <= i < |ps[1..]| && Search(name, ps[1..][i]) == FirstGroup(name, ps[1..])
        && forall j :: 0 <= j < i ==> Search(name, ps[1..][j]).None?;
      assert Search(name, ps[i + 1]) == FirstGroup(name, ps);
      forall j | 0 <= j < i + 1
        ensures Search(name, ps[j]).None?
      {
        if j > 0 { assert ps[j] == ps[1..][j - 1]; }
      }
    }
  }

  /** extract_frame_number: int() of the first group found, None when no
      pattern matches. */
  function ExtractFrameNumber(filename: string): (r: Option<nat>)
    ensures r.Some? ==> exists i :: 0 <= i < |FramePatterns| && Search(CleanFrameName(filename), FramePatterns[i]).Some?
  {
    match FirstGroup(CleanFrameName(filename), FramePatterns)
    case None => None
    case Some(g) => Some(DigitsValue(g))
  }

  /** The last pattern, a bare digit run, matches exactly when there is a digit. */
  lemma AnyDigitsMatch(s: string)
    ensures Search(s, FramePatterns[4]).Some? <==> exists k :: 0 <= k < |s| && IsDigit(s[k])
  {
    var p := FramePatterns[4];
    if exists k :: 0 <= k < |s| && IsDigit(s[k]) {
      var k :| 0 <= k < |s| && IsDigit(s[k]);
      assert HasAt(s, k, p.prefix) && TailAt(s, DigitRunEnd(s, k), p.tail);
      assert MatchesAt(s, p, k);
    }
    if Search(s, p).Some? {
      var k :| 0 <= k <= |s| && MatchesAt(s, p, k);
      assert IsDigit(s[k + |p.prefix|]);
    }
  }

  /** A match of any pattern needs a digit. */
  lemma MatchNeedsDigit(s: string, p: Pattern)
    requires Search(s, p).Some?
    ensures exists k :: 0 <= k < |s| && IsDigit(s[k])
  {
    var k :| 0 <= k <= |s| && MatchesAt(s, p, k);
    assert IsDigit(s[k + |p.prefix|]);
  }

  /** There is no frame number exactly when the cleaned name has no digit. */
  lemma NoFrameNumberIffNoDigit(filename: string)
    ensures ExtractFrameNumber(filename).None? <==>
      forall k :: 0 <= k < |CleanFrameName(filename)| ==> !IsDigit(CleanFrameName(filename)[k])
  {
    var s := CleanFrameName(filename);
    AnyDigitsMatch(s);
    if ExtractFrameNumber(filename).Some? {
      var i :| 0 <= i < |FramePatterns| && Search(s, FramePatterns[i]).Some?;
      MatchNeedsDigit(s, FramePatterns[i]);
    }
  }

  /** The digit group Search returns is a piece of the string. */
  lemma SearchGroupIsPiece(s: string, p: Pattern)
    requires Search(s, p).Some?
    ensures exists i, j :: 0 <= i < j <= |s| && Search(s, p).value == s[i..j]
  {
    var m := SearchFrom(s, p, 0).value;
    var g := m + |p.prefix|;
    var e := DigitRunEnd(s, g);
    assert Search(s, p).value == s[g..e];
    assert 0 <= g < e <= |s|;
  }

  /** A frame number is the value of a run of digits of the cleaned name, and
      it is the group of the first pattern that matches. */
  lemma FrameNumberIsFirstGroup(filename: string)
    requires ExtractFrameNumber(filename).Some?
    ensures var s := CleanFrameName(filename);
      exists i :: 0 <= i < |FramePatterns| && Search(s, FramePatterns[i]).Some?
        && ExtractFrameNumber(filename).value == DigitsValue(Search(s, FramePatterns[i]).value)
        && forall j :: 0 <= j < i ==> Search(s, FramePatterns[j]).None?
    ensures var s := CleanFrameName(filename);
      exists i, j :: 0 <= i < j <= |s| && AllDigits(s[i..j]) && ExtractFrameNumber(filename).value == DigitsValue(s[i..j])
  {
    var s := CleanFrameName(filename);
    FirstGroupIsFirst(s, FramePatterns);
    var i :| 0 <= i < |FramePatterns| && Search(s, FramePatterns[i]) == FirstGroup(s, FramePatterns)
      && forall j :: 0 <= j < i ==> Search(s, FramePatterns[j]).None?;
    SearchGroupIsPiece(s, FramePatterns[i]);
  }
}
