/** The numbers behind the canvas pages: canvas sizing, the calibration
    controls (offsets and clamped scales), the saved calibration, and the
    rectangles the drawing code hands to the canvas. Canvas sizes are whole
    pixels; everything drawn is an exact rational. */
module Layout {
  import opened Common

  datatype Offset = Offset(x: real, y: real)

  const Origin := Offset(0.0, 0.0)

  datatype Rect = Rect(x: real, y: real, w: real, h: real)

  // ------------------------------------------------------------ shared controls

  /** `moveImage(dx, dy)`. */
  function Move(o: Offset, dx: real, dy: real): (r: Offset)
    ensures r.x - o.x == dx && r.y - o.y == dy
  {
    Offset(o.x + dx, o.y + dy)
  }

  /** Moving back by the same amounts returns to the starting offset, and
      two moves add up. */
  lemma MoveInverse(o: Offset, dx: real, dy: real, ex: real, ey: real)
    ensures Move(Move(o, dx, dy), -dx, -dy) == o
    ensures Move(Move(o, dx, dy), ex, ey) == Move(o, dx + ex, dy + ey)
  {
  }

  const MinImageScale: real := 0.05

  /** `zoomImage(delta)`: the step is applied unless it would take the scale
      below the floor, which is then used instead. */
  function ZoomImage(scale: real, delta: real): (r: real)
    ensures r >= MinImageScale
    ensures scale + delta >= MinImageScale ==> r == scale + delta
    ensures scale + delta < MinImageScale ==> r == MinImageScale
  {
    MaxReal(MinImageScale, scale + delta)
  }

  /** The lower-body image under the upper body: natural size times the scale,
      centred horizontally and hung from half the canvas height, then offset. */
  function LowerBodyRect(cw: real, ch: real, iw: real, ih: real, o: Offset, scale: real): (r: Rect)
    ensures r.w == iw * scale && r.h == ih * scale
    ensures r.x + r.w / 2.0 == cw / 2.0 + o.x
    ensures r.y == ch / 2.0 + o.y
  {
    var w := iw * scale;
    Rect((cw - w) / 2.0 + o.x, ch / 2.0 + o.y, w, ih * scale)
  }

  /** Any non-empty sequence of zooms ends at or above the floor. */
  lemma {:induction false} ZoomsKeepFloor(scale: real, deltas: seq<real>)
    requires scale >= MinImageScale || |deltas| > 0
    ensures Zooms(scale, deltas) >= MinImageScale
    decreases |deltas|
  {
    if |deltas| > 0 {
      ZoomsKeepFloor(ZoomImage(scale, deltas[0]), deltas[1..]);
    }
  }

  function Zooms(scale: real, deltas: seq<real>): real
    decreases |deltas|
  {
    if |deltas| == 0 then scale else Zooms(ZoomImage(scale, deltas[0]), deltas[1..])
  }

  // ------------------------------------------------------------ the avatar canvas

  /** The calibration the avatar page keeps. */
  datatype Calibration = Calibration(videoOffset: Offset, legsOffset: Offset, legsScale: real, videoScale: real)

  const InitialCalibration := Calibration(Origin, Origin, 1.0, 1.0)

  /** `resize`: the parent's width, or 480 without a parent; the height is the
      width times 1.5, truncated to whole pixels. */
  function ResizeCanvas(parentWidth: Option<nat>): (r: (nat, nat))
    ensures parentWidth.None? ==> r.0 == 480
    ensures parentWidth.Some? ==> r.0 == parentWidth.value
    ensures 2 * r.1 <= 3 * r.0 < 2 * r.1 + 2
  {
    var w := parentWidth.GetOr(480);
    (w, (3 * w) / 2)
  }

  const MinVideoScale: real := 0.5
  const MaxVideoScale: real := 2.0

  /** The Shift+wheel zoom: a step of 0.1, downwards when the wheel moves
      down, clamped to 0.5..2; without Shift the scale is left alone. */
  function Wheel(scale: real, shift: bool, deltaY: real): (r: real)
    ensures !shift ==> r == scale
    ensures shift ==> MinVideoScale <= r <= MaxVideoScale
    ensures shift && MinVideoScale <= scale + (if deltaY > 0.0 then -0.1 else 0.1) <= MaxVideoScale ==>
              r == scale + (if deltaY > 0.0 then -0.1 else 0.1)
  {
    if shift then
      var delta := if deltaY > 0.0 then -0.1 else 0.1;
      MaxReal(MinVideoScale, MinReal(scale + delta, MaxVideoScale))
    else scale
  }

  const MinLegsScale: real := 0.2
  const MaxLegsScale: real := 3.0

  /** The legs zoom buttons. */
  function LegsZoom(scale: real, zoomIn: bool): (r: real)
    ensures zoomIn ==> r <= MaxLegsScale && (scale + 0.1 <= MaxLegsScale ==> r == scale + 0.1)
    ensures !zoomIn ==> r >= MinLegsScale && (scale - 0.1 >= MinLegsScale ==> r == scale - 0.1)
    ensures MinLegsScale <= scale <= MaxLegsScale ==> MinLegsScale <= r <= MaxLegsScale
  {
    if zoomIn then MinReal(scale + 0.1, MaxLegsScale) else MaxReal(scale - 0.1, MinLegsScale)
  }

  function LegsZooms(scale: real, presses: seq<bool>): real
    decreases |presses|
  {
    if |presses| == 0 then scale else LegsZooms(LegsZoom(scale, presses[0]), presses[1..])
  }

  /** Starting inside 0.2..3 the legs scale stays inside, whatever is pressed. */
  lemma {:induction false} LegsScaleStaysInRange(scale: real, presses: seq<bool>)
    requires MinLegsScale <= scale <= MaxLegsScale
    ensures MinLegsScale <= LegsZooms(scale, presses) <= MaxLegsScale
    decreases |presses|
  {
    if |presses| > 0 {
      LegsScaleStaysInRange(LegsZoom(scale, presses[0]), presses[1..]);
    }
  }

  datatype Arrow = Up | Left | Right | Down

  const ArrowStep: real := 10.0

  /** An arrow button moves the legs by ten pixels along one axis; up and left
      are negative. */
  function ArrowMove(o: Offset, a: Arrow): (r: Offset)
    ensures a in {Up, Down} ==> r.x == o.x && AbsReal(r.y - o.y) == ArrowStep
    ensures a in {Left, Right} ==> r.y == o.y && AbsReal(r.x - o.x) == ArrowStep
    ensures (a == Up || a == Left) <==> r.x + r.y < o.x + o.y
  {
    match a
    case Up => o.(y := o.y - ArrowStep)
    case Down => o.(y := o.y + ArrowStep)
    case Left => o.(x := o.x - ArrowStep)
    case Right => o.(x := o.x + ArrowStep)
  }

  function AbsReal(x: real): real {
    if x < 0.0 then -x else x
  }

  /** The stored calibration: each field may be absent. */
  datatype SavedConfig = SavedConfig(videoOffset: Option<Offset>, legsOffset: Option<Offset>,
                                     legsScale: Option<real>, videoScale: Option<real>)

  /** `config.field || fallback` for a number: absent and zero both fall back. */
  function NumberOr(v: Option<real>, fallback: real): real {
    if v.Some? && v.value != 0.0 then v.value else fallback
  }

  /** Loading: `fetched` is `None` when the request or its parsing threw or
      the parsed body is falsy (`null`), and then nothing changes; otherwise
      each field is taken from the body or defaults (offsets to the origin,
      scales to 1). A missing or unreadable file makes the route answer with
      an error object, which is truthy: that is `Some` with every field absent,
      so all four fields return to their defaults. */
  function LoadConfig(c: Calibration, fetched: Option<SavedConfig>): (r: Calibration)
    ensures fetched.None? ==> r == c
    ensures fetched.Some? ==>
              && r.videoOffset == fetched.value.videoOffset.GetOr(Origin)
              && r.legsOffset == fetched.value.legsOffset.GetOr(Origin)
              && (fetched.value.legsScale.Some? && fetched.value.legsScale.value != 0.0 ==>
                    r.legsScale == fetched.value.legsScale.value)
              && (fetched.value.legsScale.None? || fetched.value.legsScale == Some(0.0) ==> r.legsScale == 1.0)
              && (fetched.value.videoScale.Some? && fetched.value.videoScale.value != 0.0 ==>
                    r.videoScale == fetched.value.videoScale.value)
              && (fetched.value.videoScale.None? || fetched.value.videoScale == Some(0.0) ==> r.videoScale == 1.0)
  {
    match fetched
    case None => c
    case Some(f) =>
      Calibration(f.videoOffset.GetOr(Origin), f.legsOffset.GetOr(Origin),
                  NumberOr(f.legsScale, 1.0), NumberOr(f.videoScale, 1.0))
  }

  /** Saving writes all four fields. */
  function SaveConfig(c: Calibration): (r: SavedConfig)
    ensures r.videoOffset.Some? && r.legsOffset.Some? && r.legsScale.Some? && r.videoScale.Some?
  {
    SavedConfig(Some(c.videoOffset), Some(c.legsOffset), Some(c.legsScale), Some(c.videoScale))
  }

  /** Saving then loading restores the calibration, unless a scale is zero:
      a saved zero scale comes back as 1. */
  lemma SaveLoadRoundTrip(c: Calibration, any: Calibration)
    ensures c.legsScale != 0.0 && c.videoScale != 0.0 ==> LoadConfig(any, Some(SaveConfig(c))) == c
    ensures c.legsScale == 0.0 ==> LoadConfig(any, Some(SaveConfig(c))).legsScale == 1.0
  {
  }

  /** What one animation frame of the avatar canvas does. */
  datatype Frame = Waiting | Drawn(video: Rect, legs: Rect, blend: Rect)

  const BlendHeight: real := 20.0

  /** The upper-body video: the canvas width times the zoom, at the video's
      aspect ratio, shrunk to the canvas height when too tall. It is always
      drawn at the top-left corner. */
  function VideoRect(cw: real, ch: real, videoScale: real, vw: real, vh: real): (r: Rect)
    requires vw > 0.0 && vh > 0.0 && ch >= 0.0
    ensures r.x == 0.0 && r.y == 0.0
    ensures r.h <= ch
    ensures r.w * vh == r.h * vw
    ensures (cw * videoScale) * vh / vw <= ch ==> r.w == cw * videoScale
    ensures (cw * videoScale) * vh / vw > ch ==> r.h == ch
  {
    var aspect := vw / vh;
    var w := cw * videoScale;
    var h := w / aspect;
    assert h == w * vh / vw;
    if h > ch then Rect(0.0, 0.0, ch * aspect, ch)
    else
      assert (w / aspect) * vw == w * vh;
      Rect(0.0, 0.0, w, h)
  }

  /** The legs image before its own zoom: it fills the height left under the
      video at the image's aspect ratio, narrowed to the canvas width when too
      wide, centred and then offset. */
  function LegsRect(cw: real, ch: real, videoH: real, o: Offset, nw: real, nh: real): (r: Rect)
    requires nw > 0.0 && nh > 0.0 && cw >= 0.0
    ensures r.w <= cw
    ensures videoH <= ch ==> r.h >= 0.0
    ensures r.w * nh == r.h * nw
    ensures r.x + r.w / 2.0 == cw / 2.0 + o.x
    ensures r.y == videoH + o.y
  {
    var aspect := nw / nh;
    var h := ch - videoH;
    var w := h * aspect;
    assert w * nh == h * nw;
    if w > cw then
      assert (cw / aspect) * nw == cw * nh;
      Rect((cw - cw) / 2.0 + o.x, videoH + o.y, cw, cw / aspect)
    else Rect((cw - w) / 2.0 + o.x, videoH + o.y, w, h)
  }

  /** `draw`: while the video has no size or the legs image is not loaded the
      frame only reschedules; otherwise it lays out the video, the zoomed legs
      and the 20-pixel blend band just above them. The video offset is unused. */
  function DrawFrame(cw: real, ch: real, vw: nat, vh: nat, imageComplete: bool, nw: nat, nh: nat,
                     c: Calibration): (f: Frame)
    requires ch >= 0.0 && cw >= 0.0 && (nw > 0 ==> nh > 0)
    ensures f.Waiting? <==> vw == 0 || vh == 0 || !imageComplete || nw == 0
    ensures f.Drawn? ==>
              && f.video == VideoRect(cw, ch, c.videoScale, vw as real, vh as real)
              && f.legs.y == f.video.h + c.legsOffset.y
              && (var l := LegsRect(cw, ch, f.video.h, c.legsOffset, nw as real, nh as real);
                  f.legs == Rect(l.x, l.y, l.w * c.legsScale, l.h * c.legsScale))
              && f.legs.h * nw as real == f.legs.w * nh as real
              && f.blend.y + BlendHeight == f.legs.y && f.blend.h == BlendHeight
              && f.blend.x == f.legs.x && f.blend.w == f.legs.w
  {
    if vw == 0 || vh == 0 || !imageComplete || nw == 0 then Waiting
    else
      var video := VideoRect(cw, ch, c.videoScale, vw as real, vh as real);
      var legs := LegsRect(cw, ch, video.h, c.legsOffset, nw as real, nh as real);
      var zoomed := Rect(legs.x, legs.y, legs.w * c.legsScale, legs.h * c.legsScale);
      ZoomKeepsAspect(legs.w, legs.h, c.legsScale, nw as real, nh as real);
      Drawn(video, zoomed, Rect(legs.x, legs.y - BlendHeight, zoomed.w, BlendHeight))
  }

  lemma ZoomKeepsAspect(w: real, h: real, s: real, nw: real, nh: real)
    requires w * nh == h * nw
    ensures (h * s) * nw == (w * s) * nh
  {
    assert (h * s) * nw == (h * nw) * s;
    assert (w * s) * nh == (w * nh) * s;
  }

  // ------------------------------------------------------------ contain fit

  /** The image scaled to fit inside the window: the full width when the image
      is relatively wider than the window, otherwise the full height; centred. */
  function ContainFit(cw: real, ch: real, nw: real, nh: real): (r: Rect)
    requires cw > 0.0 && ch > 0.0 && nw > 0.0 && nh > 0.0
    ensures 0.0 < r.w <= cw && 0.0 < r.h <= ch
    ensures r.w == cw || r.h == ch
    ensures r.w * nh == r.h * nw
    ensures r.x == (cw - r.w) / 2.0 >= 0.0 && r.y == (ch - r.h) / 2.0 >= 0.0
    ensures nw / nh > cw / ch ==> r.w == cw
    ensures nw / nh <= cw / ch ==> r.h == ch
  {
    var imgAspect := nw / nh;
    var canvasAspect := cw / ch;
    if imgAspect > canvasAspect then
      var h := cw / imgAspect;
      WiderFits(cw, ch, nw, nh);
      Rect((cw - cw) / 2.0, (ch - h) / 2.0, cw, h)
    else
      var w := ch * imgAspect;
      TallerFits(cw, ch, nw, nh);
      Rect((cw - w) / 2.0, (ch - ch) / 2.0, w, ch)
  }

  lemma WiderFits(cw: real, ch: real, nw: real, nh: real)
    requires cw > 0.0 && ch > 0.0 && nw > 0.0 && nh > 0.0 && nw / nh > cw / ch
    ensures 0.0 < cw / (nw / nh) <= ch && cw * nh == (cw / (nw / nh)) * nw
  {
    var a := nw / nh;
    assert a * nh == nw;
    assert cw / a == cw * nh / nw;
    assert nw * ch > cw * nh by {
      assert (nw / nh) * (nh * ch) > (cw / ch) * (nh * ch);
    }
  }

  lemma TallerFits(cw: real, ch: real, nw: real, nh: real)
    requires cw > 0.0 && ch > 0.0 && nw > 0.0 && nh > 0.0 && nw / nh <= cw / ch
    ensures 0.0 < ch * (nw / nh) <= cw && (ch * (nw / nh)) * nh == ch * nw
  {
    assert (nw / nh) * nh == nw;
    assert (nw / nh) * ch <= (cw / ch) * ch;
  }

  // ------------------------------------------------------------ the simulation page

  /** `handleResize`: at most 480 wide with a 16-pixel margin each side, and
      the height 1.5 times the width, rounded down. */
  function SimulationCanvas(innerWidth: int): (r: (int, int))
    ensures r.0 <= 480 && r.0 <= innerWidth - 32
    ensures r.0 == 480 || r.0 == innerWidth - 32
    ensures 2 * r.1 <= 3 * r.0 < 2 * r.1 + 2
  {
    var w := MinInt(innerWidth - 32, 480);
    (w, (3 * w) / 2)
  }

  /** The simulation frame: the video stretched over the top half, the
      lower-body image placed under it. */
  function SimulationFrame(cw: real, ch: real, iw: real, ih: real, o: Offset, scale: real): (r: (Rect, Rect))
    ensures r.0 == Rect(0.0, 0.0, cw, ch / 2.0)
    ensures r.1.y == r.0.y + r.0.h + o.y
    ensures r.1 == LowerBodyRect(cw, ch, iw, ih, o, scale)
  {
    (Rect(0.0, 0.0, cw, ch / 2.0), LowerBodyRect(cw, ch, iw, ih, o, scale))
  }
}
