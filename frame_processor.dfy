/** Per-frame processing of the video tool: the crop window a frame is cut to,
    and the blend weights of the frames interpolated between two frames. A
    frame is represented by its height and width; pixels are not modelled. */
module FrameProcessor {
  import opened Text

  /** The four crop parameters (x, y, width, height), as unpacked from crop_params. */
  datatype CropParams = CropParams(x: int, y: int, width: int, height: int)

  /** A window of a frame: rows top..bottom-1 and columns left..right-1. */
  datatype Window = Window(top: int, bottom: int, left: int, right: int)

  /** The whole of an h-by-w frame. */
  function Whole(h: nat, w: nat): Window {
    Window(0, h, 0, w)
  }

  /** A window lying inside an h-by-w frame. */
  predicate Inside(r: Window, h: nat, w: nat) {
    0 <= r.top <= r.bottom <= h && 0 <= r.left <= r.right <= w
  }

  /** A slice index as Python reads it against a sequence of length n: negative
      counts from the end, and the result is clamped into [0, n]. */
  function SliceIndex(i: int, n: nat): (r: nat)
    ensures r <= n
    ensures 0 <= i <= n ==> r == i
    ensures i > n ==> r == n
    ensures i < 0 ==> r == Max(i + n, 0)
  {
    if i < 0 then (if i + n < 0 then 0 else i + n)
    else if i > n then n
    else i
  }

  /** The crop parameters after clamping: x into [0, w-1], y into [0, h-1], and
      the width and height cut so the window ends inside the frame. */
  function ClampCrop(p: CropParams, h: nat, w: nat): (c: CropParams)
    ensures c.x == Max(0, Min(p.x, w - 1)) && c.y == Max(0, Min(p.y, h - 1))
    ensures c.width == Min(p.width, w - c.x) && c.height == Min(p.height, h - c.y)
  {
    var cx := Max(0, Min(p.x, w - 1));
    var cy := Max(0, Min(p.y, h - 1));
    CropParams(cx, cy, Min(p.width, w - cx), Min(p.height, h - cy))
  }

  /** _apply_crop through load_and_process_frame: no crop parameters leave the
      frame whole; otherwise the frame is sliced
      [y : y + height, x : x + width] with the clamped parameters. */
  function ApplyCrop(crop: Option<CropParams>, h: nat, w: nat): (r: Window)
    ensures Inside(r, h, w)
    ensures crop.None? ==> r == Whole(h, w)
  {
    match crop
    case None => Whole(h, w)
    case Some(p) =>
      var c := ClampCrop(p, h, w);
      var top := SliceIndex(c.y, h);
      var left := SliceIndex(c.x, w);
      Window(top, Max(top, SliceIndex(c.y + c.height, h)), left, Max(left, SliceIndex(c.x + c.width, w)))
  }

  /** The clamped position lies in the frame (when the frame is not empty), and the
      clamped window never reaches past its right or bottom edge. */
  lemma ClampCropInside(p: CropParams, h: nat, w: nat)
    ensures var c := ClampCrop(p, h, w);
      0 <= c.x && (w >= 1 ==> c.x <= w - 1) && 0 <= c.y && (h >= 1 ==> c.y <= h - 1)
    ensures var c := ClampCrop(p, h, w);
      c.x + c.width <= w && c.y + c.height <= h
  {
  }

  /** With non-negative sizes on a non-empty frame, the crop is exactly the clamped
      window: it starts at the clamped position and has the clamped size. */
  lemma ApplyCropExact(p: CropParams, h: nat, w: nat)
    requires p.width >= 0 && p.height >= 0 && h >= 1 && w >= 1
    ensures var c := ClampCrop(p, h, w);
      ApplyCrop(Some(p), h, w) == Window(c.y, c.y + c.height, c.x, c.x + c.width)
  {
  }

  /** A crop inside the frame is kept as given. */
  lemma ApplyCropKeepsFit(p: CropParams, h: nat, w: nat)
    requires 0 <= p.x && 0 <= p.y && 0 <= p.width && 0 <= p.height
    requires p.x + p.width <= w && p.y + p.height <= h && p.x < w && p.y < h
    ensures ApplyCrop(Some(p), h, w) == Window(p.y, p.y + p.height, p.x, p.x + p.width)
  {
  }

  /** The blend weights of interpolate_frames: i / (n + 1) for i = 1 .. n, and none
      when n <= 0. */
  function BlendWeights(n: int): (r: seq<real>)
    ensures |r| == Max(n, 0)
  {
    if n <= 0 then []
    else seq(n, i requires 0 <= i < n => (i + 1) as real / (n + 1) as real)
  }

  /** The weights lie strictly between 0 and 1 and strictly increase. */
  lemma BlendWeightsIncrease(n: int)
    ensures forall i :: 0 <= i < |BlendWeights(n)| ==> 0.0 < BlendWeights(n)[i] < 1.0
    ensures forall i, j :: 0 <= i < j < |BlendWeights(n)| ==> BlendWeights(n)[i] < BlendWeights(n)[j]
  {
    var r := BlendWeights(n);
    if n > 0 {
      var d := (n + 1) as real;
      forall i | 0 <= i < |r|
        ensures 0.0 < r[i] < 1.0
      {
        WeightBetween((i + 1) as real, d);
      }
      forall i, j | 0 <= i < j < |r|
        ensures r[i] < r[j]
      {
        WeightGrows((i + 1) as real, (j + 1) as real, d);
      }
    }
  }

  lemma WeightBetween(a: real, d: real)
    requires 0.0 < a < d
    ensures 0.0 < a / d < 1.0
  {
    WeightGrows(a, d, d);
    assert d / d == 1.0;
  }

  lemma WeightGrows(a: real, b: real, d: real)
    requires a < b && 0.0 < d
    ensures a / d < b / d
  {
    assert b / d - a / d == (b - a) / d;
  }

  /** interpolate_frames, on the frames' shapes: a shape mismatch raises
      (None); otherwise one blend per weight, in order. */
  method InterpolateFrames(shape1: seq<int>, shape2: seq<int>, numFrames: int) returns (r: Option<seq<real>>)
    ensures r.None? <==> shape1 != shape2
    ensures r.Some? ==> r.value == BlendWeights(numFrames)
  {
    if shape1 != shape2 {
      return None;
    }
    var frames: seq<real> := [];
    var i := 1;
    while i <= numFrames
      invariant 1 <= i <= Max(numFrames, 0) + 1
      invariant |frames| == i - 1
      invariant forall k :: 0 <= k < i - 1 ==> frames[k] == BlendWeights(numFrames)[k]
    {
      var alpha := i as real / (numFrames + 1) as real;
      frames := frames + [alpha];
      i := i + 1;
    }
    return Some(frames);
  }
}
