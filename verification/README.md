# Rotating image animation — Dafny model

A model of the frame synthesiser of a small web service that turns one
uploaded image into a looping animated GIF of that image spinning about its
centre, and of the pieces of its upload handler that decide the rotation
direction and name the output file.

For each of `num_frames` angles evenly spaced over one turn, the service
rotates the source (expanding the bounds), pastes it centred on a transparent
square canvas whose side is the source's diagonal rounded up, flattens that
canvas onto white and reduces it to a palette without dithering. The frames
are then written as `rotating_<stem>.gif` under `static/gifs`, and the page is
given that path.

The model keeps the integer and sequence bookkeeping around the image
library's pixel operations and proves it:

- `Geometry` — image sizes, the exact integer square root rounded down
  (`FloorSqrt`) and up (`CeilSqrt`), the canvas side, and the floor-divided
  centring offset.
- `Angles` — the angle schedule of `linspace(0, 360, n, endpoint=False)` with
  angles as exact rationals (`Degrees`), and the rotation `Direction` that
  signs them.
- `Frames` — rasters reduced to size, colour mode and a description of what
  is drawn on them; the per-frame pipeline (`RenderFrame`) and the frame loop
  (`CreateRotatingFrames`), with the image library's rotation passed in as a
  function from (size, angle) to the rotated size.
- `Naming` — POSIX `os.path.splitext` and `os.path.join`, the animation's file
  name and the two paths the handler builds.
- `Request` — the direction form field, the "first frame plus the rest"
  hand-off to the encoder, and the request flow from a decoded image to the
  response.
- `Results` — `Option` for form values and a `Result` with the two errors
  the modelled part of a request can end in.

Two edge cases of the frame count end in errors. A negative count makes
`linspace` raise, and a zero count leaves an empty frame list whose first
element the handler then takes. `Schedule` and `CreateRotatingFrames` return
`NegativeFrameCount` for a negative count and accept zero. `Animation` returns
`NoFrames` for the empty frame list, and `HandleUpload` passes that error on.

The handler turns the direction field into the number -1 or +1 and multiplies
each angle by it. The model names the two choices `Clockwise` and
`CounterClockwise`, and `Direction.Sign` gives exactly those two numbers.

Some members are plain definitions of source lines and carry no contract of
their own; the lemmas about them are in the table below:

- `Angles.Angle` is the k-th value of the `linspace` at app.py:28.
- `Direction.Sign` is the -1 / +1 of app.py:48.
- `Geometry.CenterOffset` is the offset pair of app.py:32.
- `Frames.FrameAt` is one pass of the loop body, app.py:29-38.
- `Naming.Stem` is the `splitext(...)[0]` of app.py:76.
- `Naming.GifName` and `Naming.WrittenPath` are the name and the joined path
  of app.py:77.
- `Naming.TemplatePath` is the path spelled out at app.py:91.

`Naming.ParseGifName` is not in the program and has a contract of its own. It
is the inverse of the naming at app.py:77: it recognises exactly the names
"rotating_" + s + ".gif" and returns s. `Naming.GifNameRoundTrip` uses it to
prove that the name determines the stem.

## Model

| member | source | states |
|---|---|---|
| Geometry.FloorSqrt | app.py:24 | the result r is the integer square root rounded down: r*r <= n < (r+1)*(r+1) |
| Geometry.CeilSqrt | app.py:24 | the result d is the least natural whose square reaches n: n <= d*d, and (d-1)*(d-1) < n when d > 0 |
| Geometry.CeilSqrtUnique | app.py:24 | any natural with the least-square-reaching-n property equals CeilSqrt(n), so ceil(sqrt(n)) is pinned down exactly |
| Geometry.DiagonalBounds | app.py:24-25 | the rounded-up diagonal is at least the width, at least the height, and at most width + height |
| Geometry.CanvasSide | app.py:24-25 | the canvas side is the least integer whose square reaches width^2 + height^2, and it lies between max(width, height) and width + height |
| Geometry.Canvas | app.py:25 | the canvas is square and its side is the canvas side of the source |
| Geometry.CenterStart | app.py:32 | the offset x is (d - r) floor-divided by 2: 2x <= d - r < 2x + 2; x >= 0 exactly when r <= d; a fitting span ends inside the canvas and its right margin equals the left one or exceeds it by one |
| Geometry.CenteredFits | app.py:32-33 | a rotated image no larger than the canvas, pasted at the centring offset, has non-negative offsets and ends within the canvas on both axes |
| Geometry.HundredSquareCanvas | app.py:24-32 | a 100 x 100 image gets a 142 x 142 canvas and, unrotated, the offset (21, 21) |
| Angles.Schedule | app.py:28 | a negative count is an error; otherwise exactly n angles, the k-th being k*360/n degrees |
| Angles.ScheduleShape | app.py:28 | for n >= 1 the first angle is 0, consecutive angles differ by exactly 360/n, the angles strictly increase, all lie in [0, 360), 360 itself never occurs, and one more step after the last angle completes the turn |
| Angles.SmallSchedules | app.py:28 | four frames give 0, 90, 180 and 270 degrees; one frame gives only 0; zero frames give an empty schedule |
| Angles.Direction.Apply | app.py:29 | the applied angle keeps the scheduled angle's denominator and its value is the direction's sign times the scheduled angle's value |
| Angles.ApplySigned | app.py:29 | clockwise and counter-clockwise apply opposite angles, and the zero angle is applied as zero in both directions |
| Frames.RenderFrame | app.py:29-38 | a frame is side x side and in palette mode whatever size the rotation returns, and shows the source rotated by the applied angle at the centring offset of the rotated size |
| Frames.CreateRotatingFrames | app.py:23-39 | a negative count fails; otherwise exactly one frame per scheduled angle, in schedule order (frame k is the k-th angle signed by the direction), each the canvas size and in palette mode |
| Frames.FramesUniform | app.py:27-39 | all frames of one run share one square size, and frame k's applied angle is the direction applied to the k-th scheduled angle |
| Frames.FirstFrameUnrotated | app.py:28-29 | frame 0 is rotated by zero degrees in either direction; when the rotation depends only on the angle's value, frame 0 shows the source as rotation by 0 returns it, the same image for every frame count |
| Frames.DirectionsMirror | app.py:29 | the clockwise and counter-clockwise frame k are rotated by opposite angles on canvases of the same size |
| Frames.FrameContentInside | app.py:29-33 | when the rotation returns an image no larger than the canvas, that image lies entirely inside the frame |
| Frames.HundredSquareScenario | app.py:23-39 | a 100 x 100 image with four clockwise frames: every frame is 142 x 142, frame k is rotated by -90k degrees, and frame 0 has a 21-pixel margin on each side when the rotation depends only on the angle's value and rotation by 0 keeps the size |
| Naming.LastIndexOf | app.py:76 | the result is -1 or an index holding the character, and no later index holds it |
| Naming.SplitExt | app.py:76 | root and extension concatenate back to the file name; the extension is empty, or a dot followed by neither dots nor separators, taken from a root whose base name is not all dots |
| Naming.SplitExtOfJoin | app.py:76 | splitting undoes appending an extension to a root whose base name is not all dots |
| Naming.StemExample | app.py:76 | "archive.tar.gz" has the stem "archive.tar": only the last extension is removed |
| Naming.StemWithoutExtension | app.py:76 | a leading dot does not start an extension (".bashrc" stays whole) and a name without a dot is its own stem |
| Naming.JoinPath | app.py:77 | the joined path always ends with the second component; it starts with the first unless the second is absolute; the two are separated by exactly one '/' when neither supplies it |
| Naming.TemplatePathIsWrittenPath | app.py:77-91 | the path given to the page is the path the animation is saved to under the gif folder of line 10 |
| Naming.GifNameRoundTrip | app.py:76-77 | the animation name determines the stem it was made from: reading it back gives that stem |
| Naming.SamePathIffSameStem | app.py:76-77 | two uploads are saved to the same path exactly when their stems agree, so "cat.png" and "cat.jpg" overwrite each other |
| Request.ParseDirection | app.py:48 | clockwise exactly when the field is absent or equal to "clockwise"; counter-clockwise for every other value |
| Request.DirectionSign | app.py:48 | the sign is -1 exactly for an absent or "clockwise" field and +1 for any other value |
| Request.Animation | app.py:78-81 | the first frame followed by the appended rest is the whole frame list in order; an empty list fails |
| Request.HandleUpload | app.py:44-91 | a negative frame count fails in the schedule and a zero count fails on the missing first frame; otherwise one frame per angle in the chosen direction, saved to and shown at the same path |

## Left out

- Pixel work of the image library (rotate, masked paste, alpha split and
  flatten, palette conversion): rasters are reduced to their size, mode and a
  description of what is drawn, and the rotation is a parameter returning a
  size. Bicubic resampling and colour quantisation are not modelled.
- Frames.NewRaster, Frames.Paste and Frames.Convert: these define the raster
  abstraction of the library calls at app.py:31-38 (a new raster, a masked
  paste that keeps the base's size and mode, a mode conversion that keeps
  size and picture). They are assumptions about the library, not verified
  properties of it.
- The rotation is a parameter that receives the angle as a fraction. The
  library receives the angle's value. Where the image matters, lemmas assume
  `ValueOnly`: equal values give equal images.
- FirstFrameUnrotated: the claim about frame 0's image holds for rotations
  that depend only on the angle's value (`ValueOnly`). The library's rotation
  receives only that value, but the model does not derive this from the library.
- The bounds of the expanding rotation: the library's rule is not visible, so
  `FrameContentInside` assumes the rotated image is no larger than the canvas
  instead of deriving it from the angle.
- Floating point: the square root and `ceil` are modelled as the exact integer
  ceiling square root, and the `linspace` angles as exact rationals. Rounding
  of either is not modelled.
- Frames.CreateRotatingFrames: takes a `Direction` rather than any number;
  the handler only ever passes -1 or +1, and `Sign()` yields exactly these.
- Format sniffing (`is_image`) and decoding to RGBA: external libraries; the
  handler starts from the decoded image's size.
- GIF encoding: the frame duration (`speed`), loop count and disposal mode are
  passed to the encoder, which is not modelled beyond the order of the frames
  it is given.
- Web plumbing: routes, form parsing with `int(...)` and its defaults, saving
  and removing the upload, existence checks, flash messages, template
  rendering, serving the stored animations, logging, progress bars, folder
  creation and server start-up.
- Naming: only POSIX path rules are modelled (no alternative separator).
