/** The computational part of the upload handler: the direction field picks
    the sign of the rotation, the frames are synthesised, the first frame and
    the rest are handed to the encoder together, and the same path is used
    for writing the animation and for showing it. Upload storage, format
    sniffing, decoding and the encoder itself stay outside the model: the
    handler starts from the decoded image's size. */
module Request {
  import opened Results
  import opened Geometry
  import opened Angles
  import opened Frames
  import opened Naming

  /** Form value that selects the clockwise animation; it is also the default. */
  const ClockwiseValue: string := "clockwise"

  /** The direction field of the form: clockwise when it is absent or exactly
      "clockwise", counter-clockwise for any other value, whatever its case. */
  function ParseDirection(field: Option<string>): (d: Direction)
    ensures d == Clockwise <==> field == None || field == Some(ClockwiseValue)
    ensures d == CounterClockwise <==> field.Some? && field.value != ClockwiseValue
  {
    var value := match field
      case None => ClockwiseValue
      case Some(v) => v;
    if value == ClockwiseValue then Clockwise else CounterClockwise
  }

  /** The sign the handler multiplies angles by is -1 exactly for an absent or
      "clockwise" field and +1 otherwise. */
  lemma DirectionSign(field: Option<string>)
    ensures ParseDirection(field).Sign() == -1 <==> field == None || field == Some(ClockwiseValue)
    ensures ParseDirection(field).Sign() == 1 <==> field.Some? && field.value != ClockwiseValue
  {
  }

  /** The frames the encoder receives: the first frame, saved with the rest
      appended after it. An empty frame list has no first frame and fails. */
  function Animation(frames: seq<Raster>): (r: Result<seq<Raster>>)
    ensures r.Err? <==> frames == []
    ensures r.Err? ==> r.error == NoFrames
    ensures r.Ok? ==> r.value == frames
  {
    if frames == [] then Err(NoFrames)
    else Ok([frames[0]] + frames[1..])
  }

  /** What a successful request produces: the animation's frames, the path it
      is saved to and the path the page is given. */
  datatype Response = Response(frames: seq<Raster>, savedTo: string, shown: string)

  /** Handles one upload whose image decoded to size `src`. A negative frame
      count fails in the angle schedule and a zero count fails when the first
      frame is taken; otherwise the response carries one frame per angle,
      rotated in the direction the form chose, and the page is shown the very
      path the animation was saved to. */
  method HandleUpload(filename: string, directionField: Option<string>, numFrames: int,
                      src: Size, rotate: Rotator)
    returns (r: Result<Response>)
    ensures numFrames < 0 ==> r == Err(NegativeFrameCount)
    ensures numFrames == 0 ==> r == Err(NoFrames)
    ensures r.Ok? <==> numFrames > 0
    ensures r.Ok? ==> |r.value.frames| == numFrames
    ensures r.Ok? ==> forall k :: 0 <= k < numFrames ==>
      r.value.frames[k] == FrameAt(src, rotate, numFrames, ParseDirection(directionField), k)
    ensures r.Ok? ==> r.value.savedTo == r.value.shown == TemplatePath(filename)
  {
    var direction := ParseDirection(directionField);
    var frames :- CreateRotatingFrames(src, numFrames, direction, rotate);
    var savedTo := WrittenPath(filename);
    var animation :- Animation(frames);
    TemplatePathIsWrittenPath(filename);
    return Ok(Response(animation, savedTo, TemplatePath(filename)));
  }
}
