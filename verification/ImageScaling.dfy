/** Fitting an image into a bound, and the single pass that scales JPEG rows. */
module ImageScaling {
  import opened Wrappers

  const TWO32 := 0x1_0000_0000
  const TWO64 := 0x1_0000_0000_0000_0000

  type U32 = x: int | 0 <= x < TWO32
  type U64 = x: int | 0 <= x < TWO64

  /** A cast of a 64-bit value to 32 bits. */
  function Cast32(x: U64): U32 {
    x % TWO32
  }

  datatype ImageError = BadScale | InvalidArgument | InvalidSize | DecoderFailed | NotFound

  // ----- arithmetic of floors -----

  lemma DivBounds(a: nat, b: nat)
    requires b > 0
    ensures b * (a / b) <= a < b * (a / b) + b
  {
  }

  /** floor(a / b) is the only quotient in its place. */
  lemma DivUnique(a: nat, b: nat, q: nat)
    requires b > 0 && b * q <= a < b * q + b
    ensures a / b == q
  {
    DivBounds(a, b);
    if a / b < q {
      MulMonotone(b, a / b + 1, q);
    } else if q < a / b {
      MulMonotone(b, q + 1, a / b);
    }
  }

  lemma MulMonotone(b: nat, x: nat, y: nat)
    requires x <= y
    ensures b * x <= b * y
  {
  }

  lemma MulBelow(x: U32, y: U32)
    ensures 0 <= x * y < TWO64
  {
    MulNat(x, y);
    MulMonotone(x, y, TWO32 - 1);
    MulMonotone(TWO32 - 1, x, TWO32 - 1);
    MulCommutes(x, TWO32 - 1);
  }

  lemma MulNat(x: nat, y: nat)
    ensures x * y >= 0
  {
  }

  lemma MulCommutes(x: int, y: int)
    ensures x * y == y * x
  {
  }

  lemma DivAtMost(a: nat, b: nat, m: nat)
    requires b > 0 && a <= b * m
    ensures a / b <= m
  {
    DivBounds(a, b);
    if m < a / b {
      MulMonotone(b, m + 1, a / b);
    }
  }

  // ----- fitting -----

  predicate Fits(sw: U32, sh: U32, mw: U32, mh: U32) {
    sw <= mw && sh <= mh
  }

  /** `h` is the height that `w` columns call for, rounded down, but at least one pixel. */
  predicate HeightMatches(sw: nat, sh: nat, w: nat, h: nat) {
    h * sw <= w * sh < h * sw + sw || (h == 1 && w * sh < sw)
  }

  /** When the height for the full width is too large, the width for the full height is not. */
  lemma OneSideFits(sw: U32, sh: U32, mw: U32, mh: U32)
    requires sw > 0 && sh > 0 && mw > 0 && mh > 0 && mw * sh / sw > mh
    ensures mh * sw / sh <= mw && mh * sw < mw * sh
  {
    DivBounds(mw * sh, sw);
    MulMonotone(sw, mh + 1, mw * sh / sw);
    DivAtMost(mh * sw, sh, mw);
  }

  lemma DivAtLeast(a: nat, b: nat, m: nat)
    requires b > 0 && b * m <= a
    ensures m <= a / b
  {
    DivBounds(a, b);
    if a / b < m {
      MulMonotone(b, a / b + 1, m);
    }
  }

  /** The side that is cut to its bound was longer than its bound. */
  lemma CutSides(sw: U32, sh: U32, mw: U32, mh: U32)
    requires sw > 0 && sh > 0 && mw > 0 && mh > 0 && !Fits(sw, sh, mw, mh)
    ensures mw * sh / sw <= mh ==> mw < sw && mw * sh / sw <= sh
    ensures mw * sh / sw > mh ==> mh < sh && mh * sw / sh <= sw
  {
    if mw < sw {
      MulMonotone(sh, mw, sw);
      DivAtMost(mw * sh, sw, sh);
    } else {
      MulMonotone(sh, sw, mw);
      DivAtLeast(mw * sh, sw, sh);
    }
    if mh < sh {
      MulMonotone(sw, mh, sh);
      DivAtMost(mh * sw, sh, sw);
    }
  }

  lemma FloorMatches(sw: U32, sh: U32, w: U32, q: nat)
    requires sw > 0 && sh > 0 && w > 0 && q == w * sh / sw
    ensures HeightMatches(sw, sh, w, if q > 0 then q else 1)
  {
    DivBounds(w * sh, sw);
    MulPositive(w, sh);
    assert sw * q == q * sw;
  }

  lemma MulPositive(x: nat, y: nat)
    requires x > 0 && y > 0
    ensures x * y > 0
  {
  }

  /** The size that a nonempty image is given within nonempty bounds: full width if the height then fits. */
  predicate Fitted(sw: U32, sh: U32, mw: U32, mh: U32, w: U32, h: U32) {
    && 0 < w <= mw && 0 < h <= mh && w <= sw && h <= sh
    && (if Fits(sw, sh, mw, mh) then w == sw && h == sh
        else if mw * sh < mh * sw + sw then w == mw && HeightMatches(sw, sh, w, h)
        else h == mh && HeightMatches(sh, sw, h, w))
  }

  predicate AllPositive(sw: U32, sh: U32, mw: U32, mh: U32) {
    sw > 0 && sh > 0 && mw > 0 && mh > 0
  }

  lemma QuotientBelow(a: nat, b: nat, m: nat)
    requires b > 0
    ensures a / b <= m <==> a < m * b + b
  {
    DivBounds(a, b);
    MulCommutes(m, b);
    if a / b <= m {
      MulMonotone(b, a / b, m);
    } else {
      MulMonotone(b, m + 1, a / b);
    }
  }

  lemma FitByWidth(sw: U32, sh: U32, mw: U32, mh: U32)
    requires AllPositive(sw, sh, mw, mh) && !Fits(sw, sh, mw, mh) && DivideProduct(mw, sh, sw) <= mh
    ensures var q := DivideProduct(mw, sh, sw);
      q < TWO32 && Fitted(sw, sh, mw, mh, mw, if q > 0 then q else 1)
  {
    hide HeightMatches;
    CutSides(sw, sh, mw, mh);
    FloorMatches(sw, sh, mw, DivideProduct(mw, sh, sw));
    QuotientBelow(mw * sh, sw, mh);
  }

  lemma FitByHeight(sw: U32, sh: U32, mw: U32, mh: U32)
    requires AllPositive(sw, sh, mw, mh) && !Fits(sw, sh, mw, mh) && DivideProduct(mw, sh, sw) > mh
    ensures var q := DivideProduct(mh, sw, sh);
      q < TWO32 && Fitted(sw, sh, mw, mh, if q > 0 then q else 1, mh)
  {
    hide HeightMatches;
    CutSides(sw, sh, mw, mh);
    OneSideFits(sw, sh, mw, mh);
    FloorMatches(sh, sw, mh, DivideProduct(mh, sw, sh));
    QuotientBelow(mw * sh, sw, mh);
  }

  /**
   solar_os_stbi_fit_dimensions: nothing to do for empty or small images;
   otherwise the image shrinks to within both bounds, touching one of them,
   the other side is within a pixel of the exact ratio, and no cast truncates.
   */
  method FitDimensions(sw: U32, sh: U32, mw: U32, mh: U32) returns (w: U32, h: U32)
    ensures AllPositive(sw, sh, mw, mh) ==> Fitted(sw, sh, mw, mh, w, h)
    ensures !AllPositive(sw, sh, mw, mh) ==> w == sw && h == sh
  {
    hide DivideProduct, HeightMatches;
    w, h := sw, sh;
    if sw == 0 || sh == 0 || mw == 0 || mh == 0 || Fits(sw, sh, mw, mh) {
      return;
    }
    var heightForWidth: U64 := DivideProduct(mw, sh, sw);
    if heightForWidth <= mh {
      FitByWidth(sw, sh, mw, mh);
      w := mw;
      h := if heightForWidth > 0 then Cast32(heightForWidth) else 1;
      return;
    }
    FitByHeight(sw, sh, mw, mh);
    var widthForHeight: U64 := DivideProduct(mh, sw, sh);
    w := if widthForHeight > 0 then Cast32(widthForHeight) else 1;
    h := mh;
    if w == 0 || h == 0 {
      assert false;  // the source's last corrections have nothing to correct
    }
  }

  lemma QuotientFits(n: U64, c: U32)
    requires c > 0
    ensures 0 <= n / c < TWO64
  {
    MulMonotone(n, 1, c);
    DivAtMost(n, c, n);
  }

  /** The scaled length a * b / c; the product of two 32-bit numbers fits 64 bits. */
  function DivideProduct(a: U32, b: U32, c: U32): U64
    requires c > 0
  {
    MulBelow(a, b);
    QuotientFits(a * b, c);
    a * b / c
  }

  // ----- the JPEG row loop -----

  datatype Rgb = Rgb(red: bv8, green: bv8, blue: bv8)

  /** A decoded image: rows of equal length. */
  datatype Image = Image(width: U32, rows: seq<seq<Rgb>>)
  {
    ghost predicate Valid() {
      && |rows| < TWO32
      && (forall y :: 0 <= y < |rows| ==> |rows[y]| == width)
    }
  }

  /** The source line, or column, that line i of an output of `out` lines shows. */
  function SourceOf(i: nat, source: nat, out: nat): nat
    requires out > 0
  {
    i * source / out
  }

  lemma SourceInRange(i: nat, source: nat, out: nat)
    requires i < out
    ensures source > 0 ==> SourceOf(i, source, out) < source
    ensures i * source <= out * source
  {
    DivBounds(i * source, out);
    MulMonotone(source, i, out - 1);
    if source > 0 && SourceOf(i, source, out) >= source {
      MulMonotone(out, source, SourceOf(i, source, out));
    }
  }

  /** Shrinking never shows a source line twice, so one pass over the source can serve all. */
  lemma SourceAdvances(i: nat, source: nat, out: nat)
    requires 0 < out <= source
    ensures SourceOf(i, source, out) < SourceOf(i + 1, source, out)
  {
    DivBounds(i * source, out);
    DivBounds((i + 1) * source, out);
    assert (i + 1) * source == i * source + source;
    if SourceOf(i + 1, source, out) <= SourceOf(i, source, out) {
      MulMonotone(out, SourceOf(i + 1, source, out), SourceOf(i, source, out));
    }
  }

  predicate ScaleAllowed(image: Image, w: U32, h: U32) {
    image.width != 0 && |image.rows| != 0 && w != 0 && h != 0 && w <= image.width && h <= |image.rows|
  }

  /** Pixel n of the output in row-major order. */
  function SampleAt(image: Image, w: U32, h: U32, n: nat): Rgb
    requires image.Valid() && ScaleAllowed(image, w, h) && n < h * w
  {
    RowOf(n, w, h);
    SourceInRange(n / w, |image.rows|, h);
    SourceInRange(n % w, image.width, w);
    image.rows[SourceOf(n / w, |image.rows|, h)][SourceOf(n % w, image.width, w)]
  }

  lemma RowOf(n: nat, w: nat, h: nat)
    requires w > 0 && n < h * w
    ensures n / w < h
  {
    DivBounds(n, w);
    if h <= n / w {
      MulMonotone(w, h, n / w);
    }
  }

  lemma PixelIndex(x: nat, y: nat, w: nat, h: nat)
    requires x < w && y < h
    ensures y * w + x < h * w
    ensures (y * w + x) / w == y && (y * w + x) % w == x
    ensures (y + 1) * w == y * w + w
  {
    MulMonotone(w, y + 1, h);
    DivUnique(y * w + x, w, y);
  }

  lemma NextRow(y: nat, w: nat, h: nat)
    requires y < h
    ensures 0 <= y * w && y * w + w == (y + 1) * w <= h * w
  {
    MulMonotone(w, y + 1, h);
  }

  ghost predicate Sampled(image: Image, w: U32, h: U32, output: seq<Rgb>, count: nat)
    requires image.Valid() && ScaleAllowed(image, w, h) && count <= |output| == h * w
  {
    forall n :: 0 <= n < count ==> output[n] == SampleAt(image, w, h, n)
  }

  lemma SampleInRow(image: Image, w: U32, h: U32, x: nat, y: nat)
    requires image.Valid() && ScaleAllowed(image, w, h) && x < w && y < h
    ensures y * w + x < h * w
    ensures SourceOf(y, |image.rows|, h) < |image.rows| && SourceOf(x, image.width, w) < image.width
    ensures SampleAt(image, w, h, y * w + x)
         == image.rows[SourceOf(y, |image.rows|, h)][SourceOf(x, image.width, w)]
  {
    PixelIndex(x, y, w, h);
    SourceInRange(x, image.width, w);
    SourceInRange(y, |image.rows|, h);
  }

  lemma SampledNext(image: Image, w: U32, h: U32, before: seq<Rgb>, count: nat, pixel: Rgb)
    requires image.Valid() && ScaleAllowed(image, w, h) && count < |before| == h * w
    requires Sampled(image, w, h, before, count) && pixel == SampleAt(image, w, h, count)
    ensures Sampled(image, w, h, before[count := pixel], count + 1)
  {
  }

  /** Line q of the source is where line i of the output lies in it, rounded down. */
  predicate RoundsDown(q: nat, i: nat, source: nat, out: nat) {
    q * out <= i * source < q * out + out
  }

  /** The pixel in column x and row y of the output is the one the source has there in proportion. */
  ghost predicate Shows(image: Image, w: U32, h: U32, output: seq<Rgb>, x: nat, y: nat)
    requires image.Valid()
  {
    exists sx: nat, sy: nat ::
      && sy < |image.rows| && sx < image.width
      && RoundsDown(sy, y, |image.rows|, h) && RoundsDown(sx, x, image.width, w)
      && 0 <= y * w + x < |output| && output[y * w + x] == image.rows[sy][sx]
  }

  /** The image scaled to w columns and h rows. */
  ghost predicate Scaled(image: Image, w: U32, h: U32, output: seq<Rgb>)
    requires image.Valid()
  {
    |output| == h * w && forall x: nat, y: nat :: x < w && y < h ==> Shows(image, w, h, output, x, y)
  }

  lemma SourceRoundsDown(i: nat, source: nat, out: nat)
    requires out > 0
    ensures RoundsDown(SourceOf(i, source, out), i, source, out)
  {
    DivBounds(i * source, out);
    MulCommutes(SourceOf(i, source, out), out);
  }

  lemma SampledIsScaled(image: Image, w: U32, h: U32, output: seq<Rgb>)
    requires image.Valid() && ScaleAllowed(image, w, h) && |output| == h * w && Sampled(image, w, h, output, h * w)
    ensures Scaled(image, w, h, output)
  {
    hide SourceOf, RoundsDown, SampleAt;
    forall x: nat, y: nat | x < w && y < h
      ensures Shows(image, w, h, output, x, y)
    {
      SampleInRow(image, w, h, x, y);
      MulNat(y, w);
      var sx, sy := SourceOf(x, image.width, w), SourceOf(y, |image.rows|, h);
      SourceRoundsDown(x, image.width, w);
      SourceRoundsDown(y, |image.rows|, h);
      assert output[y * w + x] == image.rows[sy][sx];
    }
  }

  /** The columns of one output row, from position `base` on. */
  method CopyRow(image: Image, w: U32, h: U32, y: U32, base: nat, output: array<Rgb>)
    requires image.Valid() && ScaleAllowed(image, w, h) && y < h && output.Length == h * w
    requires base == y * w && base + w <= output.Length
    requires Sampled(image, w, h, output[..], base)
    modifies output
    ensures Sampled(image, w, h, output[..], base + w)
  {
    SourceInRange(y, |image.rows|, h);
    var row := image.rows[SourceOf(y, |image.rows|, h)];
    for x := 0 to w
      invariant Sampled(image, w, h, output[..], base + x)
    {
      SampleInRow(image, w, h, x, y);
      ghost var before := output[..];
      var pixel := row[SourceOf(x, image.width, w)];
      SampledNext(image, w, h, before, base + x, pixel);
      output[base + x] := pixel;
      assert output[..] == before[base + x := pixel];
    }
  }

  /**
   The row loop of solar_os_stbi_load_jpeg_rgb_scaled: it succeeds for every
   allowed size, and every output pixel is the source pixel at the rounded-down
   proportional position. The check for missing rows at the end never fires.
   */
  method ScaleRows(image: Image, w: U32, h: U32) returns (r: Result<seq<Rgb>, ImageError>)
    requires image.Valid()
    ensures !ScaleAllowed(image, w, h) ==> r == Failure(BadScale)
    ensures ScaleAllowed(image, w, h) ==> r.Success? && Scaled(image, w, h, r.value)
  {
    if !ScaleAllowed(image, w, h) {
      return Failure(BadScale);
    }
    var output := new Rgb[h * w];
    var outputY: U32 := 0;
    var sourceY: U32 := 0;
    while sourceY < |image.rows| && outputY < h
      invariant sourceY <= |image.rows| && outputY <= h
      invariant sourceY <= SourceOf(outputY, |image.rows|, h)
      invariant outputY * w <= h * w && Sampled(image, w, h, output[..], outputY * w)
      decreases |image.rows| - sourceY
    {
      MulBelow(outputY, |image.rows|);
      var wanted := SourceOf(outputY, |image.rows|, h);
      if wanted == sourceY {
        NextRow(outputY, w, h);
        CopyRow(image, w, h, outputY, outputY * w, output);
        SourceAdvances(outputY, |image.rows|, h);
        outputY := outputY + 1;
      }
      sourceY := sourceY + 1;
    }
    if outputY < h {
      SourceInRange(outputY, |image.rows|, h);
    }
    if outputY != h {
      assert false;
    }
    SampledIsScaled(image, w, h, output[..]);
    r := Success(output[..]);
  }

  /** The image has pixels, and no more of them than the limits allow. */
  predicate Loadable(image: Image, maxPixels: U32) {
    image.width > 0 && |image.rows| > 0 && !SizeRefused(image.width * |image.rows|, maxPixels)
  }

  /**
   solar_os_stb_decode_jpeg_rgb_scaled behind a decoder: the chosen size is the
   image fitted into the bounds, the row loop can always serve it, and nothing
   is refused but images without pixels and images or results that are too large.
   */
  method DecodeJpegScaled(image: Image, maxPixels: U32, mw: U32, mh: U32)
    returns (r: Result<seq<Rgb>, ImageError>, w: U32, h: U32)
    requires image.Valid()
    ensures mw == 0 || mh == 0 ==> r == Failure(InvalidArgument) && w == h == 0
    ensures mw > 0 && mh > 0 && !Loadable(image, maxPixels) ==> r == Failure(InvalidSize) && w == h == 0
    ensures mw > 0 && mh > 0 && Loadable(image, maxPixels) ==>
      && Fitted(image.width, |image.rows|, mw, mh, w, h) && ScaleAllowed(image, w, h)
      && if w * h > SIZE_MAX / 3 then r == Failure(InvalidSize)
         else r.Success? && Scaled(image, w, h, r.value)
  {
    w, h := 0, 0;
    if mw == 0 || mh == 0 {
      return Failure(InvalidArgument), 0, 0;
    }
    if image.width == 0 || |image.rows| == 0 || SizeRefused(image.width * |image.rows|, maxPixels) {
      return Failure(InvalidSize), 0, 0;
    }
    w, h := FitDimensions(image.width, |image.rows|, mw, mh);
    MulBelow(w, h);
    if w == 0 || h == 0 || w * h > SIZE_MAX / 3 {
      return Failure(InvalidSize), w, h;
    }
    r := ScaleRows(image, w, h);
  }

  const SIZE_MAX := TWO32 - 1

  predicate SizeRefused(pixels: nat, limit: U32)
    ensures SizeRefused(pixels, limit) <==> pixels >= 0x1_0000_0000 || 0 < limit < pixels
  {
    pixels > SIZE_MAX || (limit != 0 && pixels > limit)
  }
}
