/** The video tool's processor: which frame images of a fish go into its video
    and in what order, what the writer loop writes, and where the video goes.
    Directory listings, image loading and the video writer are inputs. */
module VideoProcessor {
  import opened Text
  import opened VideoUtils
  import opened FrameProcessor

  /** The settings the processor looks up by key: frame_repeat_count,
      interpolation_frames, output_directory, codec and output_fps. */
  datatype Settings = Settings(frameRepeatCount: int, interpolationFrames: int,
                               outputDirectory: string, codec: string, outputFps: int)

  // ---------------------------------------------------------------- the frame list

  /** A name ending in ".png", compared case-insensitively. */
  predicate IsPng(f: string) {
    EndsWith(Lower(f), ".png")
  }

  /** The ".png" names of a directory listing, in listing order. */
  function PngNames(names: seq<string>): (r: seq<string>)
    ensures forall i :: 0 <= i < |r| ==> IsPng(r[i])
  {
    if names == [] then []
    else
      var f := names[|names| - 1];
      PngNames(names[..|names| - 1]) + (if IsPng(f) then [f] else [])
  }

  /** A frame image and its frame number. */
  datatype Pic = Pic(frameNum: nat, name: string)

  /** How frame numbers are read from names. The tool uses ExtractFrameNumber;
      the filter and sort below hold for any such reading. */
  type Numbering = string -> Option<nat>

  /** What the filter loop appends for one name: the name with its frame number,
      when it has one and it lies in [start, end]. */
  function Candidate(f: string, number: Numbering, start: int, end: int): seq<Pic> {
    match number(f)
    case None => []
    case Some(n) => if start <= n <= end then [Pic(n, f)] else []
  }

  /** The list the filter loop builds, in listing order. */
  function Candidates(pics: seq<string>, number: Numbering, start: int, end: int): seq<Pic> {
    if pics == [] then []
    else Candidates(pics[..|pics| - 1], number, start, end) + Candidate(pics[|pics| - 1], number, start, end)
  }

  /** The loop's step: one more name appends what Candidate gives for it. */
  lemma CandidatesSnoc(pics: seq<string>, i: nat, number: Numbering, start: int, end: int)
    requires i < |pics|
    ensures Candidates(pics[..i + 1], number, start, end) == Candidates(pics[..i], number, start, end) + Candidate(pics[i], number, start, end)
  {
    assert pics[..i + 1][..i] == pics[..i];
  }

  predicate SortedByFrame(ps: seq<Pic>) {
    forall i, j :: 0 <= i < j < |ps| ==> ps[i].frameNum <= ps[j].frameNum
  }

  /** Where x goes in s: before the first element with a larger frame number,
      so after every element with the same one. */
  function InsertionPoint(s: seq<Pic>, x: Pic): (k: nat)
    ensures k <= |s|
    ensures forall i :: 0 <= i < k ==> s[i].frameNum <= x.frameNum
    ensures k < |s| ==> s[k].frameNum > x.frameNum
  {
    if s == [] || s[0].frameNum > x.frameNum then 0
    else 1 + InsertionPoint(s[1..], x)
  }

  function Insert(s: seq<Pic>, x: Pic): (r: seq<Pic>)
    ensures multiset(r) == multiset(s) + multiset{x}
  {
    var k := InsertionPoint(s, x);
    assert s == s[..k] + s[k..];
    s[..k] + [x] + s[k..]
  }

  /** Where each element of s ends up once x is inserted. */
  lemma InsertIndex(s: seq<Pic>, x: Pic)
    ensures var k, r := InsertionPoint(s, x), Insert(s, x);
      r[k] == x && (forall i :: 0 <= i < k ==> r[i] == s[i]) && forall i :: k < i < |r| ==> r[i] == s[i - 1]
  {
    var k, r := InsertionPoint(s, x), Insert(s, x);
    assert r == s[..k] + [x] + s[k..];
    forall i | 0 <= i < k
      ensures r[i] == s[i]
    {
    }
    forall i | k < i < |r|
      ensures r[i] == s[i - 1]
    {
    }
  }

  /** Inserting into a sorted list keeps it sorted. */
  lemma InsertSorted(s: seq<Pic>, x: Pic)
    requires SortedByFrame(s)
    ensures SortedByFrame(Insert(s, x))
  {
    var k := InsertionPoint(s, x);
    var r := Insert(s, x);
    InsertIndex(s, x);
    forall i, j | 0 <= i < j < |r|
      ensures r[i].frameNum <= r[j].frameNum
    {
      if i == k {
        assert s[k].frameNum <= s[j - 1].frameNum;
      } else if j == k {
      } else if i < k && k < j {
        assert s[i].frameNum <= x.frameNum;
      }
    }
  }

  /** list.sort with the frame number as key: a stable sort. */
  function SortByFrame(ps: seq<Pic>): (r: seq<Pic>)
    ensures multiset(r) == multiset(ps)
    ensures SortedByFrame(r)
  {
    if ps == [] then []
    else
      assert ps == ps[..|ps| - 1] + [ps[|ps| - 1]];
      InsertSorted(SortByFrame(ps[..|ps| - 1]), ps[|ps| - 1]);
      Insert(SortByFrame(ps[..|ps| - 1]), ps[|ps| - 1])
  }

  function Names(ps: seq<Pic>): (r: seq<string>)
    ensures |r| == |ps| && forall i :: 0 <= i < |ps| ==> r[i] == ps[i].name
  {
    seq(|ps|, i requires 0 <= i < |ps| => ps[i].name)
  }

  /** The frame list of a directory listing, for a given reading of frame numbers. */
  function FrameListBy(names: seq<string>, number: Numbering, start: int, end: int): seq<string> {
    Names(SortByFrame(Candidates(PngNames(names), number, start, end)))
  }

  /** What _get_frame_list returns for a directory listing. */
  function FrameList(names: seq<string>, start: int, end: int): seq<string> {
    FrameListBy(names, ExtractFrameNumber, start, end)
  }

  /** _get_frame_list: the ".png" names are kept, those whose frame number lies
      in [start, end] are collected with it, and the collection is sorted by it. */
  method GetFrameList(names: seq<string>, startTime: int, endTime: int) returns (frames: seq<string>)
    ensures frames == FrameList(names, startTime, endTime)
  {
    var allPics := PngNames(names);
    var filteredPics: seq<Pic> := [];
    var i := 0;
    while i < |allPics|
      invariant 0 <= i <= |allPics|
      invariant filteredPics == Candidates(allPics[..i], ExtractFrameNumber, startTime, endTime)
    {
      var pic := allPics[i];
      var frameNum := ExtractFrameNumber(pic);
      CandidatesSnoc(allPics, i, ExtractFrameNumber, startTime, endTime);
      if frameNum.Some? && startTime <= frameNum.value <= endTime {
        filteredPics := filteredPics + [Pic(frameNum.value, pic)];
      } else {
        assert Candidate(pic, ExtractFrameNumber, startTime, endTime) == [];
      }
      i := i + 1;
    }
    assert allPics[..i] == allPics;
    filteredPics := SortByFrame(filteredPics);
    frames := Names(filteredPics);
  }

  /** A name goes into the frame list: a ".png" name whose frame number lies in
      [start, end]. */
  predicate Qualifies(f: string, number: Numbering, start: int, end: int) {
    IsPng(f) && number(f).Some? && start <= number(f).value <= end
  }

  /** The ".png" filter keeps each ".png" name as often as the listing has it. */
  lemma {:induction false} PngNamesCount(names: seq<string>, f: string)
    ensures multiset(PngNames(names))[f] == if IsPng(f) then multiset(names)[f] else 0
    decreases |names|
  {
    if names != [] {
      var a := names[..|names| - 1];
      PngNamesCount(a, f);
      assert names == a + [names[|names| - 1]];
    }
  }

  /** A pic the filter loop would collect: its frame number is the one read from
      its name, and lies in [start, end]. */
  predicate Wanted(p: Pic, number: Numbering, start: int, end: int) {
    number(p.name) == Some(p.frameNum) && start <= p.frameNum <= end
  }

  /** For one name, the loop collects p once if p is that name, wanted, and
      not at all otherwise. */
  lemma CandidateCount(x: string, number: Numbering, start: int, end: int, p: Pic)
    ensures multiset(Candidate(x, number, start, end))[p] == if Wanted(p, number, start, end) && x == p.name then 1 else 0
  {
    var e := number(x);
    if e.Some? && start <= e.value <= end {
      assert Candidate(x, number, start, end) == [Pic(e.value, x)];
    } else {
      assert Candidate(x, number, start, end) == [];
    }
  }

  /** The filter loop collects each name as often as it is listed, exactly when
      its frame number is in range, and with that frame number. */
  lemma {:induction false} CandidatesCount(pics: seq<string>, number: Numbering, start: int, end: int, p: Pic)
    ensures multiset(Candidates(pics, number, start, end))[p] ==
      if Wanted(p, number, start, end) then multiset(pics)[p.name] else 0
    decreases |pics|
  {
    if pics != [] {
      var a := pics[..|pics| - 1];
      var x := pics[|pics| - 1];
      CandidatesCount(a, number, start, end, p);
      CandidateCount(x, number, start, end, p);
      assert pics == a + [x];
      assert multiset(pics)[p.name] == multiset(a)[p.name] + (if x == p.name then 1 else 0);
      assert multiset(Candidates(pics, number, start, end))[p] ==
        multiset(Candidates(a, number, start, end))[p] + multiset(Candidate(x, number, start, end))[p];
    }
  }

  /** Every frame in the list is a listed ".png" name whose frame number is in
      range. */
  lemma FrameListOnlyQualifying(names: seq<string>, number: Numbering, start: int, end: int, f: string)
    requires f in FrameListBy(names, number, start, end)
    ensures f in names && Qualifies(f, number, start, end)
  {
    var c := Candidates(PngNames(names), number, start, end);
    var s := SortByFrame(c);
    var r := Names(s);
    var i :| 0 <= i < |r| && r[i] == f;
    var p := s[i];
    assert p in multiset(s);
    CandidatesCount(PngNames(names), number, start, end, p);
    PngNamesCount(names, f);
  }

  /** Each name is in the sorted list, with its frame number, as often as it is
      listed when it qualifies, and not at all otherwise. */
  lemma FrameListCount(names: seq<string>, number: Numbering, start: int, end: int, n: nat, f: string)
    requires number(f) == Some(n)
    ensures multiset(SortByFrame(Candidates(PngNames(names), number, start, end)))[Pic(n, f)] ==
      if Qualifies(f, number, start, end) then multiset(names)[f] else 0
  {
    PngNamesCount(names, f);
    CandidatesCount(PngNames(names), number, start, end, Pic(n, f));
  }

  /** Every listed ".png" name whose frame number is in range is in the list. */
  lemma FrameListHasQualifying(names: seq<string>, number: Numbering, start: int, end: int, f: string)
    requires f in names && Qualifies(f, number, start, end)
    ensures f in FrameListBy(names, number, start, end)
  {
    var s := SortByFrame(Candidates(PngNames(names), number, start, end));
    var p := Pic(number(f).value, f);
    FrameListCount(names, number, start, end, p.frameNum, f);
    assert multiset(names)[f] > 0;
    assert p in multiset(s);
    var i :| 0 <= i < |s| && s[i] == p;
    assert Names(s)[i] == f;
  }

  /** The frame list is in non-decreasing order of frame number. */
  lemma FrameListSorted(names: seq<string>, number: Numbering, start: int, end: int)
    ensures forall i :: 0 <= i < |FrameListBy(names, number, start, end)| ==>
      number(FrameListBy(names, number, start, end)[i]).Some?
    ensures forall i, j :: 0 <= i < j < |FrameListBy(names, number, start, end)| ==>
      number(FrameListBy(names, number, start, end)[i]).value <= number(FrameListBy(names, number, start, end)[j]).value
  {
    var c := Candidates(PngNames(names), number, start, end);
    var s := SortByFrame(c);
    forall i | 0 <= i < |s|
      ensures number(s[i].name) == Some(s[i].frameNum)
    {
      assert s[i] in multiset(c);
      CandidatesCount(PngNames(names), number, start, end, s[i]);
    }
  }

  /** The pics with frame number k, in order. */
  function WithFrame(ps: seq<Pic>, k: nat): (r: seq<Pic>)
    ensures forall i :: 0 <= i < |r| ==> r[i].frameNum == k
  {
    if ps == [] then []
    else (if ps[0].frameNum == k then [ps[0]] else []) + WithFrame(ps[1..], k)
  }

  lemma {:induction false} WithFrameAppend(a: seq<Pic>, b: seq<Pic>, k: nat)
    ensures WithFrame(a + b, k) == WithFrame(a, k) + WithFrame(b, k)
  {
    if a != [] {
      WithFrameAppend(a[1..], b, k);
      assert (a + b)[0] == a[0];
      assert (a + b)[1..] == a[1..] + b;
    } else {
      assert a + b == b;
    }
  }

  lemma {:induction false} WithFrameNone(ps: seq<Pic>, k: nat)
    requires forall i :: 0 <= i < |ps| ==> ps[i].frameNum > k
    ensures WithFrame(ps, k) == []
  {
    if ps != [] {
      WithFrameNone(ps[1..], k);
    }
  }

  /** In a sorted list, nothing from the insertion point of x on has the frame
      number of x. */
  lemma WithFrameAfterPoint(s: seq<Pic>, x: Pic)
    requires SortedByFrame(s)
    ensures WithFrame(s[InsertionPoint(s, x)..], x.frameNum) == []
  {
    var i := InsertionPoint(s, x);
    var b := s[i..];
    forall j | 0 <= j < |b|
      ensures b[j].frameNum > x.frameNum
    {
      assert b[j] == s[i + j] && s[i].frameNum <= s[i + j].frameNum;
    }
    WithFrameNone(b, x.frameNum);
  }

  /** Inserting x splits s at its insertion point. */
  lemma WithFrameInsertSplit(s: seq<Pic>, x: Pic, k: nat)
    ensures var i := InsertionPoint(s, x);
      WithFrame(Insert(s, x), k) == WithFrame(s[..i], k) + WithFrame([x], k) + WithFrame(s[i..], k)
    ensures var i := InsertionPoint(s, x);
      WithFrame(s, k) == WithFrame(s[..i], k) + WithFrame(s[i..], k)
  {
    var i := InsertionPoint(s, x);
    var a, b := s[..i], s[i..];
    WithFrameAppend(a + [x], b, k);
    WithFrameAppend(a, [x], k);
    assert s == a + b;
    WithFrameAppend(a, b, k);
  }

  lemma WithFrameSingle(x: Pic, k: nat)
    ensures WithFrame([x], k) == if x.frameNum == k then [x] else []
  {
    assert [x][1..] == [];
  }

  /** Inserting into a sorted list puts x after every pic with its frame number. */
  lemma WithFrameInsertSame(s: seq<Pic>, x: Pic)
    requires SortedByFrame(s)
    ensures WithFrame(Insert(s, x), x.frameNum) == WithFrame(s, x.frameNum) + [x]
  {
    var k := x.frameNum;
    WithFrameInsertSplit(s, x, k);
    WithFrameSingle(x, k);
    WithFrameAfterPoint(s, x);
  }

  /** Inserting x leaves the pics with any other frame number as they were. */
  lemma WithFrameInsertOther(s: seq<Pic>, x: Pic, k: nat)
    requires x.frameNum != k
    ensures WithFrame(Insert(s, x), k) == WithFrame(s, k)
  {
    WithFrameInsertSplit(s, x, k);
    WithFrameSingle(x, k);
    var i := InsertionPoint(s, x);
    assert WithFrame(Insert(s, x), k) == WithFrame(s[..i], k) + WithFrame(s[i..], k);
  }

  /** The sort is stable: the pics with any one frame number keep their order. */
  lemma {:induction false} SortByFrameStable(ps: seq<Pic>, k: nat)
    ensures WithFrame(SortByFrame(ps), k) == WithFrame(ps, k)
  {
    if ps != [] {
      var a := ps[..|ps| - 1];
      var x := ps[|ps| - 1];
      SortByFrameStable(a, k);
      if x.frameNum == k {
        WithFrameInsertSame(SortByFrame(a), x);
      } else {
        WithFrameInsertOther(SortByFrame(a), x, k);
      }
      assert ps == a + [x];
      WithFrameAppend(a, [x], k);
    }
  }

  // ---------------------------------------------------------------- the writer loop

  /** What the writer receives: frame i of the list, or the blend of frames
      from and to with weight alpha on the second. */
  datatype Written = Frame(index: nat) | Blend(from: nat, to: nat, alpha: real)

  /** Frame `index` written `count` times (range of a negative count is empty). */
  function Copies(index: nat, count: int): (r: seq<Written>)
    ensures |r| == Max(count, 0)
  {
    seq(Max(count, 0), _ => Frame(index))
  }

  function Blends(from: nat, to: nat, alphas: seq<real>): (r: seq<Written>)
    ensures |r| == |alphas|
  {
    seq(|alphas|, k requires 0 <= k < |alphas| => Blend(from, to, alphas[k]))
  }

  /** The load of each frame of the list: its shape, or None where loading raises. */
  function LoadAll(load: string -> Option<seq<int>>, inputDir: string, frames: seq<string>): (r: seq<Option<seq<int>>>)
    ensures |r| == |frames|
  {
    seq(|frames|, i requires 0 <= i < |frames| => load(Join(inputDir, frames[i])))
  }

  /** What pass i of the loop writes, given the loads of frames i and i + 1: a
      failed load or a shape mismatch ends the pass where it is raised. */
  function Pass(i: nat, current: Option<seq<int>>, next: Option<seq<int>>, settings: Settings): seq<Written> {
    if current.None? then []
    else if next.None? then [Frame(i)]
    else
      [Frame(i)] + Copies(i + 1, settings.frameRepeatCount)
      + (if current.value != next.value then []
         else Blends(i, i + 1, BlendWeights(settings.interpolationFrames)))
  }

  /** Everything the first `passes` passes write. */
  function WrittenBy(loaded: seq<Option<seq<int>>>, settings: Settings, passes: nat): seq<Written>
    requires passes == 0 || passes < |loaded|
  {
    if passes == 0 then []
    else WrittenBy(loaded, settings, passes - 1) + Pass(passes - 1, loaded[passes - 1], loaded[passes], settings)
  }

  /** One pass of the loop of _process_all_frames, for frame i of the list:
      load it and write it, load frame i + 1 and write it frame_repeat_count
      times, then write the blends of the two; an exception ends the pass where
      it is raised. */
  method WritePass(inputDir: string, frames: seq<string>, i: nat, load: string -> Option<seq<int>>, settings: Settings)
    returns (written: seq<Written>)
    requires i + 1 < |frames|
    ensures written == Pass(i, load(Join(inputDir, frames[i])), load(Join(inputDir, frames[i + 1])), settings)
  {
    var current := load(Join(inputDir, frames[i]));
    if current.None? {
      return [];
    }
    var next := load(Join(inputDir, frames[i + 1]));
    if next.None? {
      return [Frame(i)];
    }
    var repeats := RepeatNext(i, settings.frameRepeatCount);
    written := [Frame(i)] + repeats;
    var interpolated := InterpolateFrames(current.value, next.value, settings.interpolationFrames);
    if interpolated.Some? {
      var blends := BlendAll(i, interpolated.value);
      written := written + blends;
    }
  }

  /** The repetition loop: frame i + 1 written count times. */
  method RepeatNext(i: nat, count: int) returns (written: seq<Written>)
    ensures written == Copies(i + 1, count)
  {
    written := [];
    var k := 0;
    while k < count
      invariant 0 <= k <= Max(count, 0)
      invariant written == Copies(i + 1, k)
    {
      written := written + [Frame(i + 1)];
      k := k + 1;
    }
  }

  /** The loop over the interpolated frames: each blend written in order. */
  method BlendAll(i: nat, alphas: seq<real>) returns (written: seq<Written>)
    ensures written == Blends(i, i + 1, alphas)
  {
    written := [];
    var j := 0;
    while j < |alphas|
      invariant 0 <= j <= |alphas|
      invariant written == Blends(i, i + 1, alphas[..j])
    {
      written := written + [Blend(i, i + 1, alphas[j])];
      j := j + 1;
    }
    assert alphas[..j] == alphas;
  }

  /** _process_all_frames: one pass for each frame but the last, whatever each
      pass raises. It always reports success, and counts what it wrote. */
  method ProcessAllFrames(inputDir: string, frames: seq<string>, load: string -> Option<seq<int>>, settings: Settings)
    returns (success: bool, log: seq<Written>, frameCount: nat)
    ensures success
    ensures log == WrittenBy(LoadAll(load, inputDir, frames), settings, Max(|frames| - 1, 0))
    ensures frameCount == |log|
  {
    ghost var loaded := LoadAll(load, inputDir, frames);
    log := [];
    frameCount := 0;
    var i := 0;
    while i < |frames| - 1
      invariant 0 <= i <= Max(|frames| - 1, 0)
      invariant log == WrittenBy(loaded, settings, i)
      invariant frameCount == |log|
    {
      var written := WritePass(inputDir, frames, i, load, settings);
      assert written == Pass(i, loaded[i], loaded[i + 1], settings);
      log := log + written;
      frameCount := frameCount + |written|;
      i := i + 1;
    }
    assert i == Max(|frames| - 1, 0);
    success := true;
  }

  /** When every frame loads with one shape, each pass writes its frame, the
      repeats and the blends: (n - 1) * (1 + repeats + blends) in all, and
      nothing for a single frame. */
  lemma {:induction false} FrameCountAllLoaded(loaded: seq<Option<seq<int>>>, settings: Settings, passes: nat)
    requires passes < |loaded| && loaded[0].Some?
    requires forall i :: 0 <= i < |loaded| ==> loaded[i] == loaded[0]
    ensures |WrittenBy(loaded, settings, passes)| ==
      passes * (1 + Max(settings.frameRepeatCount, 0) + Max(settings.interpolationFrames, 0))
  {
    if passes > 0 {
      var c := 1 + Max(settings.frameRepeatCount, 0) + Max(settings.interpolationFrames, 0);
      FrameCountAllLoaded(loaded, settings, passes - 1);
      assert loaded[passes - 1] == loaded[passes];
      assert |Pass(passes - 1, loaded[passes - 1], loaded[passes], settings)| == c;
      assert passes * c == (passes - 1) * c + c;
    }
  }

  // ---------------------------------------------------------------- paths and the driver

  /** os.path.join on two POSIX path parts. */
  function Join(a: string, b: string): (r: string)
    ensures EndsWith(r, b)
  {
    if |b| > 0 && b[0] == '/' then b
    else if a == [] || a[|a| - 1] == '/' then
      assert (a + b)[|a + b| - |b|..] == b;
      a + b
    else
      assert (a + "/" + b)[|a + "/" + b| - |b|..] == b;
      a + "/" + b
  }

  /** The file name of a fish's video: "{fish}.{start}.{end}.mp4". */
  function VideoFileName(fishName: string, startTime: int, endTime: int): string {
    fishName + "." + IntToString(startTime) + "." + IntToString(endTime) + ".mp4"
  }

  /** _get_output_path */
  function OutputPath(settings: Settings, fishName: string, startTime: int, endTime: int): string {
    Join(settings.outputDirectory, VideoFileName(fishName, startTime, endTime))
  }

  /** The video lands in the output directory, under its own file name, which
      ends in ".mp4". */
  lemma OutputPathShape(settings: Settings, fishName: string, startTime: int, endTime: int)
    ensures var p := OutputPath(settings, fishName, startTime, endTime);
      EndsWith(p, VideoFileName(fishName, startTime, endTime)) && EndsWith(p, ".mp4")
    ensures var d := settings.outputDirectory;
      d != [] && (fishName == [] || fishName[0] != '/') ==>
        OutputPath(settings, fishName, startTime, endTime)[..|d|] == d
  {
    var n := VideoFileName(fishName, startTime, endTime);
    var p := OutputPath(settings, fishName, startTime, endTime);
    assert n[|n| - 4..] == ".mp4";
    assert p[|p| - 4..] == p[|p| - |n|..][|n| - 4..];
    if fishName == [] {
      assert n[0] == '.';
    } else {
      assert n[0] == fishName[0];
    }
  }

  /** create_video: no frames, a first frame that cannot be loaded, or a writer
      that does not open make it fail with nothing written; otherwise it writes
      what _process_all_frames writes and succeeds. */
  method CreateVideo(fishName: string, inputDir: string, listing: seq<string>, startTime: int, endTime: int,
                     settings: Settings, load: string -> Option<seq<int>>, writerOpens: bool)
    returns (ok: bool, log: seq<Written>)
    ensures var frames := FrameList(listing, startTime, endTime);
      ok <==> frames != [] && load(Join(inputDir, frames[0])).Some? && writerOpens
    ensures var frames := FrameList(listing, startTime, endTime);
      ok ==> log == WrittenBy(LoadAll(load, inputDir, frames), settings, |frames| - 1)
    ensures !ok ==> log == []
  {
    log := [];
    var frames := GetFrameList(listing, startTime, endTime);
    if frames == [] {
      return false, [];
    }
    var firstFrame := load(Join(inputDir, frames[0]));
    if firstFrame.None? {
      return false, [];
    }
    var outputPath := OutputPath(settings, fishName, startTime, endTime);
    if !writerOpens {
      return false, [];
    }
    var success, count;
    success, log, count := ProcessAllFrames(inputDir, frames, load, settings);
    ok := success;
  }
}
