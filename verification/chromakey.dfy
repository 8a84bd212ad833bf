/** The green-screen passes over a frame's RGBA bytes. The avatar page keys
    pixels by hue, saturation and brightness and fades them by how green they
    are; the plain video wrapper keys pixels by three fixed thresholds and
    clears them. Both write only alpha bytes. */
module ChromaKey {
  import opened Common
  import opened Layout

  type Byte = x: int | 0 <= x < 256

  /** A frame's pixel bytes, four per pixel: red, green, blue, alpha. */
  type Pixels = seq<Byte>

  function Max3(a: int, b: int, c: int): int {
    MaxInt(a, MaxInt(b, c))
  }

  function Min3(a: int, b: int, c: int): int {
    MinInt(a, MinInt(b, c))
  }

  /** JavaScript's `%` on numbers: the remainder of the quotient truncated
      toward zero, so it takes the sign of the dividend. */
  function TruncRem(x: real, m: real): real
    requires m > 0.0
  {
    var q := x / m;
    var t := if q >= 0.0 then q.Floor else -((-q).Floor);
    x - m * t as real
  }

  /** Between -1 and 1 the `% 6` in the red sector changes nothing. */
  lemma TruncRemSmall(x: real)
    requires -1.0 <= x <= 1.0
    ensures TruncRem(x, 6.0) == x
  {
    var q := x / 6.0;
    if q >= 0.0 {
      assert 0.0 <= q < 1.0;
      assert q.Floor == 0;
    } else {
      assert 0.0 < -q < 1.0;
      assert (-q).Floor == 0;
    }
  }

  lemma RatioBounds(x: real, d: real)
    requires d > 0.0 && -d <= x <= d
    ensures -1.0 <= x / d <= 1.0
  {
    assert (x / d) * d == x;
  }

  lemma FractionBounds(x: real, d: real)
    requires d > 0.0 && 0.0 <= x <= d
    ensures 0.0 <= x / d <= 1.0 && (x / d == 0.0 <==> x == 0.0)
  {
    assert (x / d) * d == x;
  }

  /** Byte offsets within a pixel that starts at `i`. */
  lemma PixelOffsets(i: int)
    requires i % 4 == 0
    ensures i % 4 != 3 && (i + 1) % 4 != 3 && (i + 2) % 4 != 3 && (i + 3) % 4 == 3 && (i + 4) % 4 == 0
  {
  }

  // ------------------------------------------------------------ HSV

  /** The hue in sixths of a turn before the red sector is wrapped: the red
      sector lies in -1..1, green in 1..3 and blue in 3..5. */
  function Sector(r: Byte, g: Byte, b: Byte): (x: real)
    requires Max3(r, g, b) != Min3(r, g, b)
    ensures Max3(r, g, b) == r ==> -1.0 <= x <= 1.0
    ensures Max3(r, g, b) != r && Max3(r, g, b) == g ==> 1.0 <= x <= 3.0
    ensures Max3(r, g, b) != r && Max3(r, g, b) != g ==> 3.0 <= x <= 5.0
  {
    var mx := Max3(r, g, b);
    var delta := (mx - Min3(r, g, b)) as real;
    if mx == r then
      RatioBounds((g - b) as real, delta);
      TruncRemSmall((g - b) as real / delta);
      TruncRem((g - b) as real / delta, 6.0)
    else if mx == g then
      RatioBounds((b - r) as real, delta);
      (b - r) as real / delta + 2.0
    else
      RatioBounds((r - g) as real, delta);
      (r - g) as real / delta + 4.0
  }

  /** The hue in degrees by the six-sector rule: 0 for greys, red around 0,
      green around 120, blue around 240, negatives wrapped by 360. */
  function Hue(r: Byte, g: Byte, b: Byte): (h: real)
    ensures 0.0 <= h < 360.0
    ensures Max3(r, g, b) == Min3(r, g, b) ==> h == 0.0
    ensures Max3(r, g, b) != Min3(r, g, b) && Max3(r, g, b) != r && Max3(r, g, b) == g ==> 60.0 <= h <= 180.0
    ensures Max3(r, g, b) != Min3(r, g, b) && Max3(r, g, b) == r ==> h <= 60.0 || 300.0 <= h
  {
    if Max3(r, g, b) == Min3(r, g, b) then 0.0
    else
      var h := Sector(r, g, b) * 60.0;
      if h < 0.0 then h + 360.0 else h
  }

  /** Saturation: 0 for black, otherwise the spread over the maximum. */
  function Saturation(r: Byte, g: Byte, b: Byte): (s: real)
    ensures 0.0 <= s <= 1.0
    ensures s == 0.0 <==> Max3(r, g, b) == Min3(r, g, b)
  {
    var mx := Max3(r, g, b);
    if mx == 0 then 0.0
    else
      FractionBounds((mx - Min3(r, g, b)) as real, mx as real);
      (mx - Min3(r, g, b)) as real / mx as real
  }

  /** Brightness: the maximum over 255. */
  function Brightness(r: Byte, g: Byte, b: Byte): (v: real)
    ensures 0.0 <= v <= 1.0
    ensures v == 0.0 <==> r == 0 && g == 0 && b == 0
  {
    Max3(r, g, b) as real / 255.0
  }

  /** The classifier's settings. */
  datatype KeyOptions = KeyOptions(minHue: real, maxHue: real, minSaturation: real, threshold: real)

  /** The settings the avatar page uses. */
  const AvatarOptions := KeyOptions(60.0, 180.0, 0.1, 1.0)

  const MinBrightness: real := 0.15

  /** A pixel is keyed when its hue lies in the window, it is saturated and
      bright enough, and green beats red and blue by the threshold factor. */
  predicate IsKeyed(o: KeyOptions, r: Byte, g: Byte, b: Byte): (k: bool)
    ensures k ==> o.minHue <= o.maxHue && Max3(r, g, b) as real > 38.25
    ensures k && o.minSaturation >= 0.0 ==> Max3(r, g, b) != Min3(r, g, b)
  {
    var h := Hue(r, g, b);
    && o.minHue <= h <= o.maxHue
    && Saturation(r, g, b) > o.minSaturation
    && Brightness(r, g, b) > MinBrightness
    && GreenBeats(o.threshold, r, g, b)
  }

  /** Green exceeds red and blue, each scaled by the threshold factor. */
  predicate GreenBeats(t: real, r: Byte, g: Byte, b: Byte) {
    g as real > r as real * t && g as real > b as real * t
  }

  /** With a threshold factor of at least 1, a keyed pixel is strictly
      greener than it is red or blue. */
  lemma KeyedGreenDominant(o: KeyOptions, r: Byte, g: Byte, b: Byte)
    requires IsKeyed(o, r, g, b) && o.threshold >= 1.0
    ensures g > r && g > b
  {
    assert GreenBeats(o.threshold, r, g, b) by {
      assert IsKeyed(o, r, g, b);
    }
    GreenDominant(o.threshold, r, g, b);
  }

  lemma GreenDominant(t: real, r: Byte, g: Byte, b: Byte)
    requires GreenBeats(t, r, g, b) && t >= 1.0
    ensures g > r && g > b
  {
    BeatsScaled(r, g, t);
    BeatsScaled(b, g, t);
  }

  /** A byte that beats another scaled by a factor of at least 1 beats it
      outright. */
  lemma BeatsScaled(x: Byte, y: Byte, t: real)
    requires 1.0 <= t && y as real > x as real * t
    ensures y > x
  {
    var xr := x as real;
    assert xr * t == xr + xr * (t - 1.0);
    assert xr * (t - 1.0) >= 0.0;
  }

  /** Black is never keyed, and with a non-negative saturation floor no grey
      is either. */
  lemma GreysNeverKeyed(o: KeyOptions, c: Byte)
    ensures !IsKeyed(o, 0, 0, 0)
    ensures o.minSaturation >= 0.0 ==> !IsKeyed(o, c, c, c)
  {
    assert Saturation(c, c, c) == 0.0;
  }

  /** How much green exceeds the larger of red and blue, relative to green
      (a zero green divides by 1). */
  function Greenness(r: Byte, g: Byte, b: Byte): real {
    (g - MaxInt(r, b)) as real / (if g == 0 then 1 else g) as real
  }

  /** `Math.round`: half-way values round up. */
  function Round(x: real): int {
    (x + 0.5).Floor
  }

  /** A store into a clamped byte array: out-of-range values saturate. */
  function ClampByte(n: int): Byte {
    if n < 0 then 0 else if n > 255 then 255 else n
  }

  const AlphaCutoff: real := 0.2

  /** The alpha written for a keyed pixel: fully transparent when very green,
      otherwise 255 times `1 - 4 * greenness`, rounded, so never between 1
      and 50. It is zero exactly when the greenness exceeds 0.2. */
  function KeyedAlpha(r: Byte, g: Byte, b: Byte): (a: Byte)
    ensures a == 0 || 51 <= a
    ensures a == 0 <==> Greenness(r, g, b) > 0.2
  {
    var alpha := MaxReal(0.0, 1.0 - Greenness(r, g, b) * 4.0);
    if alpha < AlphaCutoff then 0
    else
      assert alpha * 255.0 >= 51.0;
      ClampByte(Round(alpha * 255.0))
  }

  /** With a threshold of at least 1, green is the strict maximum of a pixel
      that passes the two threshold tests (as every keyed pixel does), so the
      faded alpha never needs clamping. */
  lemma NoClampNeeded(threshold: real, r: Byte, g: Byte, b: Byte)
    requires threshold >= 1.0
    requires g as real > r as real * threshold && g as real > b as real * threshold
    ensures 0.0 < Greenness(r, g, b) <= 1.0
    ensures 0 <= Round(MaxReal(0.0, 1.0 - Greenness(r, g, b) * 4.0) * 255.0) <= 255
  {
    BeatsScaled(r, g, threshold);
    BeatsScaled(b, g, threshold);
    var x := Greenness(r, g, b);
    assert 0.0 < x <= 1.0 by {
      FractionBounds((g - MaxInt(r, b)) as real, g as real);
    }
    var alpha := MaxReal(0.0, 1.0 - x * 4.0);
    assert 0.0 <= alpha <= 1.0;
    RoundBounds(alpha * 255.0);
  }

  lemma RoundBounds(x: real)
    requires 0.0 <= x <= 255.0
    ensures 0 <= Round(x) <= 255
  {
  }

  /** With the avatar page's settings pure green vanishes and white is kept. */
  lemma AvatarOptionsExample()
    ensures IsKeyed(AvatarOptions, 0, 255, 0) && KeyedAlpha(0, 255, 0) == 0
    ensures !IsKeyed(AvatarOptions, 255, 255, 255)
  {
    assert Hue(0, 255, 0) == 120.0;
    assert Greenness(0, 255, 0) == 1.0;
  }

  /** Byte `j` closes a whole pixel that the classifier keys. */
  predicate KeyedEnd(o: KeyOptions, data: Pixels, j: int) {
    3 <= j < |data| && j % 4 == 3 && IsKeyed(o, data[j - 3], data[j - 2], data[j - 1])
  }

  /** The byte the pass leaves at `j`. */
  function KeyedByte(o: KeyOptions, data: Pixels, j: int): Byte
    requires 0 <= j < |data|
  {
    if KeyedEnd(o, data, j) then KeyedAlpha(data[j - 3], data[j - 2], data[j - 1]) else data[j]
  }

  /** The loop of `applyChromaKey` over the pixel bytes. A trailing partial
      pixel is never keyed. Colour bytes and the alpha of unkeyed pixels are
      untouched, so the result is a fixed point: running the pass again
      changes nothing. */
  method KeyPass(o: KeyOptions, data: Pixels) returns (out: Pixels)
    ensures |out| == |data|
    ensures forall j :: 0 <= j < |data| ==> out[j] == KeyedByte(o, data, j)
    ensures forall j :: 0 <= j < |data| && j % 4 != 3 ==> out[j] == data[j]
    ensures forall j :: 0 <= j < |out| ==> KeyedByte(o, out, j) == out[j]
  {
    out := data;
    var i := 0;
    while i < |out|
      invariant 0 <= i && i % 4 == 0 && |out| == |data|
      invariant forall j :: 0 <= j < |data| ==> out[j] == (if j < i then KeyedByte(o, data, j) else data[j])
    {
      PixelOffsets(i);
      if i + 3 < |out| && IsKeyed(o, out[i], out[i + 1], out[i + 2]) {
        out := out[i + 3 := KeyedAlpha(out[i], out[i + 1], out[i + 2])];
      }
      i := i + 4;
    }
    KeyPassFixed(o, data, out);
  }

  /** The colour bytes of the pixel whose alpha is at `j`. */
  lemma ColourOffsets(j: int)
    requires j % 4 == 3
    ensures (j - 3) % 4 != 3 && (j - 2) % 4 != 3 && (j - 1) % 4 != 3
  {
  }

  /** The keyed bytes are a fixed point of the pass. */
  lemma KeyPassFixed(o: KeyOptions, data: Pixels, out: Pixels)
    requires |out| == |data|
    requires forall j :: 0 <= j < |data| ==> out[j] == KeyedByte(o, data, j)
    ensures forall j :: 0 <= j < |out| ==> KeyedByte(o, out, j) == out[j]
  {
    forall j | 0 <= j < |out| ensures KeyedByte(o, out, j) == out[j] {
      if j % 4 == 3 && 3 <= j {
        ColourOffsets(j);
        assert out[j - 3] == data[j - 3] by {
          assert !KeyedEnd(o, data, j - 3);
        }
        assert out[j - 2] == data[j - 2] by {
          assert !KeyedEnd(o, data, j - 2);
        }
        assert out[j - 1] == data[j - 1] by {
          assert !KeyedEnd(o, data, j - 1);
        }
      }
    }
  }

  /** The video element as the pass sees it. */
  datatype Video = Video(readyState: nat, videoWidth: nat, videoHeight: nat)

  datatype Canvas = Canvas(width: nat, height: nat, pixels: Pixels)

  /** `readyState` 2 means the current frame is available. */
  const HaveCurrentData: nat := 2

  /** `applyChromaKey`: without a drawing context or a current frame the
      canvas is left alone; otherwise it takes the video's size and holds the
      keyed version of `drawn`, the pixels read back after the lower-body image
      and the video frame were drawn. */
  method ApplyChromaKey(hasContext: bool, video: Video, canvas: Canvas, drawn: Pixels, o: KeyOptions)
    returns (c: Canvas)
    ensures !hasContext || video.readyState < HaveCurrentData ==> c == canvas
    ensures hasContext && video.readyState >= HaveCurrentData ==>
              && c.width == video.videoWidth && c.height == video.videoHeight
              && |c.pixels| == |drawn|
              && forall j :: 0 <= j < |drawn| ==> c.pixels[j] == KeyedByte(o, drawn, j)
  {
    if !hasContext || video.readyState < HaveCurrentData {
      return canvas;
    }
    var keyed := KeyPass(o, drawn);
    c := Canvas(video.videoWidth, video.videoHeight, keyed);
  }

  /** Where the lower-body image goes on the avatar canvas, which takes the
      video's size: the image at its natural size times the zoom, its centre
      on the canvas's vertical midline moved by the offset, its top edge at
      half the canvas height moved by the offset. This is the simulation
      page's rule. */
  function LowerBodyPlacement(video: Video, iw: real, ih: real, o: Offset, scale: real): (r: Rect)
    ensures r.w == iw * scale && r.h == ih * scale
    ensures r.x + r.w / 2.0 == video.videoWidth as real / 2.0 + o.x
    ensures r.y == video.videoHeight as real / 2.0 + o.y
    ensures r == LowerBodyRect(video.videoWidth as real, video.videoHeight as real, iw, ih, o, scale)
  {
    LowerBodyRect(video.videoWidth as real, video.videoHeight as real, iw, ih, o, scale)
  }

  // ------------------------------------------------------------ the video wrapper

  const GreenThreshold: int := 90

  /** `isCloseToGreen`. */
  predicate IsCloseToGreen(r: Byte, g: Byte, b: Byte) {
    g > GreenThreshold && r < GreenThreshold && b < GreenThreshold
  }

  /** Byte `j` closes a whole pixel that is close to green. */
  predicate GreenEnd(data: Pixels, j: int) {
    3 <= j < |data| && j % 4 == 3 && IsCloseToGreen(data[j - 3], data[j - 2], data[j - 1])
  }

  /** The wrapper's pass: the alpha of every close-to-green pixel becomes 0 and
      no other byte changes; passing the result again changes nothing. */
  method GreenPass(data: Pixels) returns (out: Pixels)
    ensures |out| == |data|
    ensures forall j :: 0 <= j < |data| ==> (GreenEnd(data, j) ==> out[j] == 0)
    ensures forall j :: 0 <= j < |data| ==> (!GreenEnd(data, j) ==> out[j] == data[j])
    ensures forall j :: 0 <= j < |out| ==> (GreenEnd(out, j) <==> GreenEnd(data, j))
  {
    out := data;
    var i := 0;
    while i < |out|
      invariant 0 <= i && i % 4 == 0 && |out| == |data|
      invariant forall j :: 0 <= j < |data| ==> out[j] == (if j < i && GreenEnd(data, j) then 0 else data[j])
    {
      PixelOffsets(i);
      if i + 3 < |out| && IsCloseToGreen(out[i], out[i + 1], out[i + 2]) {
        out := out[i + 3 := 0];
      }
      i := i + 4;
    }
    GreenEndsKept(data, out);
  }

  /** Clearing the alpha bytes of green pixels leaves the colour bytes alone,
      so the same pixels count as green afterwards. */
  lemma GreenEndsKept(data: Pixels, out: Pixels)
    requires |out| == |data|
    requires forall j :: 0 <= j < |data| ==> out[j] == (if GreenEnd(data, j) then 0 else data[j])
    ensures forall j :: 0 <= j < |out| ==> (GreenEnd(out, j) <==> GreenEnd(data, j))
  {
    forall j | 0 <= j < |out| ensures GreenEnd(out, j) <==> GreenEnd(data, j) {
      if j % 4 == 3 && 3 <= j {
        ColourOffsets(j);
        assert out[j - 3] == data[j - 3] by {
          assert !GreenEnd(data, j - 3);
        }
        assert out[j - 2] == data[j - 2] by {
          assert !GreenEnd(data, j - 2);
        }
        assert out[j - 1] == data[j - 1] by {
          assert !GreenEnd(data, j - 1);
        }
      }
    }
  }

  /** What starting the wrapper's render loop leads to. */
  datatype RenderResult = NotStarted | Stopped | Rendered(canvas: Canvas)

  /** The render effect's first frame: it starts only with background removal
      on, the stream active and both references set; a frame stops the loop
      when the canvas, the video or the context is missing; otherwise the
      canvas takes the video's size and the green pixels are cleared. */
  method RenderFrame(removeBg: bool, streamActive: bool, hasRefs: bool,
                     hasCanvas: bool, hasVideo: bool, hasContext: bool,
                     video: Video, drawn: Pixels) returns (r: RenderResult)
    ensures r.NotStarted? <==> !(removeBg && streamActive && hasRefs)
    ensures r.Rendered? <==> removeBg && streamActive && hasRefs && hasCanvas && hasVideo && hasContext
    ensures r.Rendered? ==>
              && r.canvas.width == video.videoWidth && r.canvas.height == video.videoHeight
              && |r.canvas.pixels| == |drawn|
              && forall j :: 0 <= j < |drawn| ==> r.canvas.pixels[j] == (if GreenEnd(drawn, j) then 0 else drawn[j])
  {
    if !(removeBg && streamActive && hasRefs) {
      return NotStarted;
    }
    if !hasCanvas || !hasVideo || !hasContext {
      return Stopped;
    }
    var keyed := GreenPass(drawn);
    r := Rendered(Canvas(video.videoWidth, video.videoHeight, keyed));
  }
}
