/** The video tool's configuration: the processing defaults, and a crop box that
    is fitted to the size of the images it will cut. */
module Config {
  import opened Text

  /** The processing settings and their defaults. */
  class VideoConfig {
    var frameRepeatCount: int
    var interpolationFrames: int
    var outputFps: int
    var codec: string
    var parentDirectory: string
    var outputDirectory: string

    constructor ()
      ensures frameRepeatCount == 5 && interpolationFrames == 2 && outputFps == 60
      ensures codec == "mp4v"
      ensures parentDirectory == "SignalDataFrames" && outputDirectory == "Videos"
    {
      frameRepeatCount := 5;
      interpolationFrames := 2;
      outputFps := 60;
      codec := "mp4v";
      parentDirectory := "SignalDataFrames";
      outputDirectory := "Videos";
    }
  }

  /** A crop box: its top-left corner and its size. */
  datatype CropBox = CropBox(x: int, y: int, width: int, height: int)

  /** The box fitted to an h-by-w image: no box when its corner lies at or past
      the right or bottom edge; otherwise, when it overflows either edge, its
      width and height are cut to what remains of the image. */
  function Fit(b: CropBox, h: int, w: int): (r: Option<CropBox>)
    ensures r.None? <==> b.x >= w || b.y >= h
    ensures r.Some? ==> r.value.x == b.x && r.value.y == b.y
    ensures r.Some? ==> r.value.x + r.value.width <= w && r.value.y + r.value.height <= h
  {
    if b.x >= w || b.y >= h then None
    else if b.x + b.width > w || b.y + b.height > h then
      Some(b.(width := Min(b.width, w - b.x), height := Min(b.height, h - b.y)))
    else Some(b)
  }

  /** A box that already fits is left as it is. */
  lemma FitKeepsFitting(b: CropBox, h: int, w: int)
    requires b.x < w && b.y < h && b.x + b.width <= w && b.y + b.height <= h
    ensures Fit(b, h, w) == Some(b)
  {
  }

  /** The size only ever shrinks. */
  lemma FitShrinks(b: CropBox, h: int, w: int)
    requires Fit(b, h, w).Some?
    ensures Fit(b, h, w).value.width <= b.width && Fit(b, h, w).value.height <= b.height
  {
  }

  /** Fitting twice against the same image is fitting once. */
  lemma FitIdempotent(b: CropBox, h: int, w: int)
    requires Fit(b, h, w).Some?
    ensures Fit(Fit(b, h, w).value, h, w) == Fit(b, h, w)
  {
    FitKeepsFitting(Fit(b, h, w).value, h, w);
  }

  /** A crop region whose size validate_against_image adjusts in place. */
  class CropConfig {
    var x: int
    var y: int
    var width: int
    var height: int

    constructor (x: int, y: int, width: int, height: int)
      ensures this.x == x && this.y == y && this.width == width && this.height == height
    {
      this.x := x;
      this.y := y;
      this.width := width;
      this.height := height;
    }

    function Box(): CropBox
      reads this
    {
      CropBox(x, y, width, height)
    }

    /** to_list: the four values, in the order x, y, width, height. */
    function ToList(): (r: seq<int>)
      reads this
      ensures |r| == 4
    {
      [x, y, width, height]
    }

    /** validate_against_image against an image of height h and width w: raises
        (None, nothing changed) when the corner is outside the image; otherwise
        the box becomes Fit of the old box, and the adjusted values are returned. */
    method ValidateAgainstImage(h: int, w: int) returns (r: Option<seq<int>>)
      modifies this`width, this`height
      ensures r.None? <==> x >= w || y >= h
      ensures r.None? ==> width == old(width) && height == old(height)
      ensures r.Some? ==> Some(Box()) == Fit(old(Box()), h, w) && r.value == ToList()
      ensures r.Some? ==> x + width <= w && y + height <= h
    {
      if x >= w || y >= h {
        return None;
      }
      if x + width > w || y + height > h {
        width := Min(width, w - x);
        height := Min(height, h - y);
      }
      return Some([x, y, width, height]);
    }
  }
}
