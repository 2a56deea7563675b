/** Frame synthesis: for every angle of the schedule, rotate the source, centre
    it on a transparent square canvas, flatten onto white and reduce to a
    palette. Pixel operations are abstracted: a raster is its size, its colour
    mode and a description of what has been drawn on it. */
module Frames {
  import opened Results
  import opened Geometry
  import opened Angles

  /** Colour modes a raster passes through. */
  datatype Mode = RGBA | RGB | Palette

  /** What a raster shows: nothing yet, or an image of the given size rotated
      by `angle` degrees and placed with its top-left corner at `at`. */
  datatype Content = Blank | Placed(angle: Degrees, image: Size, at: Offset)

  datatype Raster = Raster(size: Size, mode: Mode, content: Content)

  /** The image library's expanding rotation, seen only through the size of
      the image it returns for a source size and an angle in degrees. */
  type Rotator = (Size, Degrees) -> Size

  /** The library rotates by the angle's value: two representations of the
      same number of degrees give the same image. */
  ghost predicate ValueOnly(rotate: Rotator) {
    forall s, a, b :: SameAngle(a, b) ==> rotate(s, a) == rotate(s, b)
  }

  /** A fresh raster of the given mode and size with nothing drawn on it. */
  function NewRaster(mode: Mode, size: Size): Raster
  {
    Raster(size, mode, Blank)
  }

  /** Pasting an image onto a base, masked by the image's own alpha: the base
      keeps its size and mode and now shows the pasted picture. */
  function Paste(base: Raster, picture: Content): Raster
  {
    base.(content := picture)
  }

  /** Conversion to another colour mode (no dithering) keeps size and content. */
  function Convert(r: Raster, mode: Mode): Raster
  {
    r.(mode := mode)
  }

  /** One output frame for the applied angle `turn`: the source rotated by
      `turn`, centred on a side x side canvas, flattened and palette-reduced.
      The frame has the canvas size whatever size the rotation returns. */
  function RenderFrame(src: Size, rotate: Rotator, side: nat, turn: Degrees): (f: Raster)
    ensures f.size == Size(side, side) && f.mode == Palette
    ensures f.content.Placed? && f.content.angle == turn
    ensures f.content.image == rotate(src, turn)
    ensures f.content.at == CenterOffset(side, rotate(src, turn))
  {
    var rotated := rotate(src, turn);
    var canvas := NewRaster(RGBA, Size(side, side));
    var canvas := Paste(canvas, Placed(turn, rotated, CenterOffset(side, rotated)));
    var flat := NewRaster(RGB, canvas.size);
    var flat := Paste(flat, canvas.content);
    Convert(flat, Palette)
  }

  /** Frame k of n: rendered at direction times the k-th scheduled angle on the
      canvas sized by the source's diagonal. */
  function FrameAt(src: Size, rotate: Rotator, n: nat, direction: Direction, k: nat): Raster
    requires k < n
  {
    RenderFrame(src, rotate, CanvasSide(src), direction.Apply(Angle(k, n)))
  }

  /** The frame loop. A negative count is refused by the schedule; otherwise
      exactly one frame per scheduled angle, in angle order, each of the
      canvas size and in palette mode. */
  method CreateRotatingFrames(src: Size, numFrames: int, direction: Direction, rotate: Rotator)
    returns (r: Result<seq<Raster>>)
    ensures r.Err? <==> numFrames < 0
    ensures r.Err? ==> r.error == NegativeFrameCount
    ensures r.Ok? ==> |r.value| == numFrames
    ensures r.Ok? ==> forall k :: 0 <= k < |r.value| ==>
      r.value[k] == FrameAt(src, rotate, |r.value|, direction, k)
    ensures r.Ok? ==> forall k :: 0 <= k < |r.value| ==>
      r.value[k].size == Canvas(src) && r.value[k].mode == Palette
  {
    var side := CanvasSide(src);
    var angles :- Schedule(numFrames);
    var frames: seq<Raster> := [];
    var i := 0;
    while i < |angles|
      invariant 0 <= i <= |angles| == numFrames
      invariant |frames| == i
      invariant forall k :: 0 <= k < i ==> frames[k] == FrameAt(src, rotate, numFrames, direction, k)
    {
      var frame := RenderFrame(src, rotate, side, direction.Apply(angles[i]));
      assert frame == FrameAt(src, rotate, numFrames, direction, i) by {
        assert angles[i] == Angle(i, numFrames);
      }
      frames := frames + [frame];
      i := i + 1;
    }
    return Ok(frames);
  }

  /** Every frame of a run has the same size, the square canvas, and every
      frame's applied angle is direction times its scheduled angle. */
  lemma FramesUniform(src: Size, rotate: Rotator, n: nat, direction: Direction, j: nat, k: nat)
    requires j < n && k < n
    ensures FrameAt(src, rotate, n, direction, j).size == FrameAt(src, rotate, n, direction, k).size
    ensures FrameAt(src, rotate, n, direction, k).size.width == FrameAt(src, rotate, n, direction, k).size.height
    ensures FrameAt(src, rotate, n, direction, k).content.angle == direction.Apply(Schedule(n).value[k])
  {
  }

  /** Frame 0 is never rotated, whatever the direction and the frame count:
      its applied angle is 0, and when the rotation depends only on the angle's
      value, it shows the source exactly as the rotation by 0 returns it, in
      every run. */
  lemma FirstFrameUnrotated(src: Size, rotate: Rotator, n: nat, direction: Direction)
    requires n > 0
    ensures FrameAt(src, rotate, n, direction, 0).content.angle.Value() == 0.0
    ensures ValueOnly(rotate) ==>
      FrameAt(src, rotate, n, direction, 0).content.image == rotate(src, Degrees(0, 1))
  {
    var a := direction.Apply(Angle(0, n));
    assert a.num == 0 && a.den == n;
    ApplySigned(Angle(0, n));
    if ValueOnly(rotate) {
      assert SameAngle(a, Degrees(0, 1));
      assert rotate(src, a) == rotate(src, Degrees(0, 1));
    }
  }

  /** The two directions turn each frame by opposite angles and otherwise
      draw on the same canvas. */
  lemma DirectionsMirror(src: Size, rotate: Rotator, n: nat, k: nat)
    requires k < n
    ensures FrameAt(src, rotate, n, Clockwise, k).content.angle.Value()
         == -FrameAt(src, rotate, n, CounterClockwise, k).content.angle.Value()
    ensures FrameAt(src, rotate, n, Clockwise, k).size == FrameAt(src, rotate, n, CounterClockwise, k).size
  {
    ApplySigned(Angle(k, n));
  }

  /** When the rotation returns an image no larger than the canvas, that image
      is placed wholly inside the frame. */
  lemma FrameContentInside(src: Size, rotate: Rotator, n: nat, direction: Direction, k: nat)
    requires k < n
    ensures var f := FrameAt(src, rotate, n, direction, k);
      f.content.image.width <= f.size.width && f.content.image.height <= f.size.height ==>
      && 0 <= f.content.at.x && f.content.at.x + f.content.image.width <= f.size.width
      && 0 <= f.content.at.y && f.content.at.y + f.content.image.height <= f.size.height
  {
  }

  /** A 100 x 100 image with four clockwise frames: the canvas is 142 x 142,
      the applied angles are 0, -90, -180 and -270 degrees, and if rotating by
      0 leaves the size unchanged, frame 0 has a 21-pixel margin on each side. */
  lemma HundredSquareScenario(rotate: Rotator)
    ensures forall k :: 0 <= k < 4 ==> FrameAt(Size(100, 100), rotate, 4, Clockwise, k).size == Size(142, 142)
    ensures ValueOnly(rotate) && rotate(Size(100, 100), Degrees(0, 1)) == Size(100, 100) ==>
      FrameAt(Size(100, 100), rotate, 4, Clockwise, 0).content.at == Offset(21, 21)
    ensures forall k :: 0 <= k < 4 ==>
      FrameAt(Size(100, 100), rotate, 4, Clockwise, k).content.angle.Value() == -90.0 * (k as real)
  {
    HundredSquareCanvas();
    FirstFrameUnrotated(Size(100, 100), rotate, 4, Clockwise);
    forall k | 0 <= k < 4
      ensures FrameAt(Size(100, 100), rotate, 4, Clockwise, k).content.angle.Value() == -90.0 * (k as real)
    {
      QuarterTurns(k);
    }
  }
}
