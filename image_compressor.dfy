/**
 * The image compressor's target-size search: decode, clamp the long edge to
 * 1920 pixels, re-encode with falling quality, then shrink the canvas until
 * the encoded image fits in 100 KiB, and finally place it on an A4 PDF page
 * when the PDF format is chosen.
 *
 * Quality, scale factors and PDF geometry are exact reals. The canvas
 * encoder is a parameter: it is given the MIME type, the canvas size and the
 * quality, and answers with the encoded size or with no blob at all.
 */
module ImageCompressor {
  import opened Wrappers

  // ---------------------------------------------------------------------
  // Output formats
  // ---------------------------------------------------------------------

  datatype Format = Jpg | Png | Webp | Pdf

  /** The MIME type the canvas is encoded with; PDF output is previewed as WebP. */
  function MimeForImage(f: Format): string {
    match f
    case Jpg => "image/jpeg"
    case Png => "image/png"
    case _ => "image/webp"
  }

  /** The file extension of the download link. */
  function Extension(f: Format): string {
    match f
    case Jpg => "jpg"
    case Png => "png"
    case Webp => "webp"
    case Pdf => "pdf"
  }

  /** Reads an extension back as a format. */
  function FormatOfExtension(e: string): Option<Format> {
    if e == "jpg" then Some(Jpg)
    else if e == "png" then Some(Png)
    else if e == "webp" then Some(Webp)
    else if e == "pdf" then Some(Pdf)
    else None
  }

  /** Every format has its own extension, and the extension names it again. */
  lemma ExtensionRoundTrip(f: Format)
    ensures FormatOfExtension(Extension(f)) == Some(f)
  {
  }

  /**
   * The canvas MIME type agrees with the extension for the three image
   * formats, and only WebP and PDF share the WebP encoder.
   */
  lemma MimeMatchesExtension(f: Format)
    ensures f != Pdf ==> MimeForImage(f) == "image/" + (if f == Jpg then "jpeg" else Extension(f))
    ensures MimeForImage(f) == "image/webp" <==> f == Webp || f == Pdf
  {
  }

  const DownloadPrefix := "compressed-"
  const DefaultStem := "image"

  /** The download attribute: the prefix, the source file's name (or "image"), a dot and the extension. */
  function DownloadName(sourceName: string, f: Format): string {
    DownloadPrefix + (if sourceName == "" then DefaultStem else sourceName) + "." + Extension(f)
  }

  /** The download name splits back into its prefix, the stem and the extension. */
  lemma DownloadNameParts(sourceName: string, f: Format)
    ensures var r := DownloadName(sourceName, f);
            var stem := if sourceName == "" then DefaultStem else sourceName;
            |r| == |DownloadPrefix| + |stem| + 1 + |Extension(f)|
            && r[..|DownloadPrefix|] == DownloadPrefix
            && r[|DownloadPrefix|..|DownloadPrefix| + |stem|] == stem
            && r[|r| - |Extension(f)| - 1] == '.'
            && r[|r| - |Extension(f)|..] == Extension(f)
  {
    var stem := if sourceName == "" then DefaultStem else sourceName;
    var r := DownloadName(sourceName, f);
    assert r == DownloadPrefix + stem + ("." + Extension(f));
  }

  // ---------------------------------------------------------------------
  // Real arithmetic helpers
  // ---------------------------------------------------------------------

  function MinR(a: real, b: real): real { if a <= b then a else b }

  function MaxR(a: real, b: real): real { if a >= b then a else b }

  /** JavaScript's Math.round: the nearest integer, halves rounded up. */
  function Round(x: real): (r: int)
    ensures r as real <= x + 0.5 < r as real + 1.0
  {
    (x + 0.5).Floor
  }

  lemma QuotientAntitone(c: real, x: real, y: real)
    requires c >= 0.0 && 0.0 < x <= y
    ensures c / y <= c / x
  {
    var a, b := c / x, c / y;
    assert a * x == c;
    assert b * y == c;
    assert b >= 0.0;
    assert b * x <= b * y;
  }

  lemma ScaleBy(y: real, x: real, c: real)
    requires 0.0 <= y <= x && 0.0 < x && c >= 0.0
    ensures x * (c / x) == c
    ensures 0.0 <= y * (c / x) <= c
  {
    var q := c / x;
    assert x * q == c;
    assert q >= 0.0;
    assert y * q <= x * q;
  }

  // ---------------------------------------------------------------------
  // Long-edge clamp
  // ---------------------------------------------------------------------

  datatype Size = Size(width: int, height: int)

  const MaxDim := 1920

  /** Math.min(MAX_DIM / width, MAX_DIM / height), where a zero edge gives Infinity and drops out. */
  function ClampScale(w: int, h: int): real
    requires w >= 0 && h >= 0 && (w > MaxDim || h > MaxDim)
  {
    if h == 0 then MaxDim as real / w as real
    else if w == 0 then MaxDim as real / h as real
    else MinR(MaxDim as real / w as real, MaxDim as real / h as real)
  }

  /** Scales both edges so that neither exceeds MaxDim, rounding each; small images are untouched. */
  function ClampToMaxDim(s: Size): Size
    requires s.width >= 0 && s.height >= 0
  {
    if s.width > MaxDim || s.height > MaxDim then
      var scale := ClampScale(s.width, s.height);
      Size(Round(s.width as real * scale), Round(s.height as real * scale))
    else
      s
  }

  /** When the longer edge is w > MaxDim, the scale is MaxDim / w. */
  lemma ClampScaleLonger(w: int, h: int)
    requires 0 <= h <= w && w > MaxDim
    ensures ClampScale(w, h) == MaxDim as real / w as real
  {
    if h > 0 {
      QuotientAntitone(MaxDim as real, h as real, w as real);
    }
  }

  lemma RoundInRange(x: real)
    requires 0.0 <= x <= MaxDim as real
    ensures 0 <= Round(x) <= MaxDim
    ensures x == MaxDim as real ==> Round(x) == MaxDim
  {
  }

  /** With w the longer edge, the scaled edges round to MaxDim and to at most MaxDim. */
  lemma RoundScaled(w: int, h: int)
    requires 0 <= h <= w && w > MaxDim
    ensures Round(w as real * (MaxDim as real / w as real)) == MaxDim
    ensures 0 <= Round(h as real * (MaxDim as real / w as real)) <= MaxDim
  {
    ScaleBy(h as real, w as real, MaxDim as real);
    RoundInRange(w as real * (MaxDim as real / w as real));
    RoundInRange(h as real * (MaxDim as real / w as real));
  }

  lemma ClampScaleSwap(w: int, h: int)
    requires w >= 0 && h >= 0 && (w > MaxDim || h > MaxDim)
    ensures ClampScale(w, h) == ClampScale(h, w)
  {
  }

  /** A landscape image above MaxDim: the width becomes MaxDim. */
  lemma ClampWide(w: int, h: int)
    requires 0 <= h <= w && w > MaxDim
    ensures ClampToMaxDim(Size(w, h)).width == MaxDim
    ensures 0 <= ClampToMaxDim(Size(w, h)).height <= MaxDim
  {
    ClampScaleLonger(w, h);
    RoundScaled(w, h);
  }

  /** A portrait image above MaxDim: the height becomes MaxDim. */
  lemma ClampTall(w: int, h: int)
    requires 0 <= w <= h && h > MaxDim
    ensures ClampToMaxDim(Size(w, h)).height == MaxDim
    ensures 0 <= ClampToMaxDim(Size(w, h)).width <= MaxDim
  {
    ClampScaleSwap(w, h);
    ClampScaleLonger(h, w);
    RoundScaled(h, w);
  }

  /**
   * An image larger than MaxDim on either edge ends with its longer edge at
   * exactly MaxDim and neither edge above it; a smaller one keeps its size.
   */
  lemma ClampToMaxDimBounds(s: Size)
    requires s.width >= 0 && s.height >= 0
    ensures s.width <= MaxDim && s.height <= MaxDim ==> ClampToMaxDim(s) == s
    ensures var r := ClampToMaxDim(s);
            0 <= r.width <= MaxDim && 0 <= r.height <= MaxDim
    ensures s.width > MaxDim || s.height > MaxDim ==>
              var r := ClampToMaxDim(s);
              (s.width >= s.height ==> r.width == MaxDim) && (s.height >= s.width ==> r.height == MaxDim)
  {
    if s.width > MaxDim || s.height > MaxDim {
      assert s == Size(s.width, s.height);
      if s.width >= s.height {
        ClampWide(s.width, s.height);
      }
      if s.height >= s.width {
        ClampTall(s.width, s.height);
      }
    }
  }

  // ---------------------------------------------------------------------
  // Encoding
  // ---------------------------------------------------------------------

  /** The canvas encoder: MIME type, canvas width and height, quality; the blob's size, or none. */
  type Encoder = (string, int, int, real) -> Option<nat>

  /** canvas.toBlob: a canvas with no pixels always yields no blob. */
  function ToBlob(encode: Encoder, mime: string, w: int, h: int, q: real): (r: Option<nat>)
    ensures r.Some? ==> w > 0 && h > 0
  {
    if w <= 0 || h <= 0 then None else encode(mime, w, h, q)
  }

  const MaxTargetBytes := 100 * 1024

  const InitialQuality := 0.92
  const QualityFloor := 0.45
  const QualityDecrement := 0.07
  const ShrinkQualityFloor := 0.4
  const ShrinkQualityDecrement := 0.03
  const InitialScaleFactor := 0.92
  const ScaleFactorFloor := 0.8
  const ScaleFactorDecrement := 0.02
  const MinShrinkDim := 600

  predicate OverBudget(blob: Option<nat>) {
    blob.Some? && blob.value > MaxTargetBytes
  }

  function QualityStep(q: real): real { MaxR(QualityFloor, q - QualityDecrement) }

  function ShrinkQuality(q: real): real { MaxR(ShrinkQualityFloor, q - ShrinkQualityDecrement) }

  function NextScaleFactor(sf: real): real { MaxR(ScaleFactorFloor, sf - ScaleFactorDecrement) }

  // ---------------------------------------------------------------------
  // The search, as a trace of encode attempts
  // ---------------------------------------------------------------------

  /** Which line of the search produced an attempt; a downscale records the scale factor it used. */
  datatype Stage = Initial | QualityRetry | Downscale(factor: real)

  /** One call of the encoder: the canvas size and quality it saw, and what it returned. */
  datatype Attempt = Attempt(stage: Stage, width: int, height: int, quality: real, blob: Option<nat>)

  predicate Encoded(encode: Encoder, mime: string, a: Attempt) {
    a.blob == ToBlob(encode, mime, a.width, a.height, a.quality)
  }

  predicate AllEncoded(encode: Encoder, mime: string, t: seq<Attempt>) {
    forall i :: 0 <= i < |t| ==> Encoded(encode, mime, t[i])
  }

  predicate Large(a: Attempt) {
    a.width > MinShrinkDim || a.height > MinShrinkDim
  }

  /** The quality loop may run: it has not been left yet and quality is above its floor. */
  predicate MayRetry(a: Attempt) {
    !a.stage.Downscale? && a.quality > QualityFloor
  }

  /** The quality loop is over (or was never needed) and the canvas is still large. */
  predicate MayShrink(a: Attempt) {
    (a.stage.Downscale? || a.quality <= QualityFloor) && Large(a)
  }

  function FactorAfter(a: Attempt): real {
    if a.stage.Downscale? then NextScaleFactor(a.stage.factor) else InitialScaleFactor
  }

  predicate QualityRetryStep(a: Attempt, b: Attempt) {
    MayRetry(a)
    && b.stage == QualityRetry && b.width == a.width && b.height == a.height
    && b.quality == QualityStep(a.quality)
  }

  predicate DownscaleStep(a: Attempt, b: Attempt) {
    var sf := FactorAfter(a);
    MayShrink(a)
    && b.stage == Downscale(sf)
    && b.width == Round(a.width as real * sf) && b.height == Round(a.height as real * sf)
    && b.quality == ShrinkQuality(a.quality)
  }

  /** The search goes from a to b: a is over budget and b is the retry or the downscale that follows. */
  predicate Step(a: Attempt, b: Attempt) {
    OverBudget(a.blob) && (QualityRetryStep(a, b) || DownscaleStep(a, b))
  }

  /** No further step applies: the search ends at a. */
  predicate Stopped(a: Attempt) {
    !(OverBudget(a.blob) && (MayRetry(a) || MayShrink(a)))
  }

  /** A trace that starts with the first encode of the clamped canvas and follows Step throughout. */
  predicate Search(t: seq<Attempt>, start: Size) {
    |t| >= 1
    && t[0].stage == Initial && t[0].width == start.width && t[0].height == start.height
    && t[0].quality == InitialQuality
    && forall i :: 0 <= i < |t| - 1 ==> Step(t[i], t[i + 1])
  }

  lemma SearchSnoc(t: seq<Attempt>, start: Size, b: Attempt)
    requires Search(t, start) && Step(t[|t| - 1], b)
    ensures Search(t + [b], start)
  {
    var t' := t + [b];
    forall i | 0 <= i < |t'| - 1
      ensures Step(t'[i], t'[i + 1])
    {
      if i < |t| - 1 {
        assert t'[i] == t[i] && t'[i + 1] == t[i + 1];
      } else {
        assert t'[i] == t[|t| - 1] && t'[i + 1] == b;
      }
    }
  }

  lemma EncodedSnoc(encode: Encoder, mime: string, t: seq<Attempt>, b: Attempt)
    requires AllEncoded(encode, mime, t) && Encoded(encode, mime, b)
    ensures AllEncoded(encode, mime, t + [b])
  {
    var t' := t + [b];
    forall i | 0 <= i < |t'|
      ensures Encoded(encode, mime, t'[i])
    {
      if i < |t| {
        assert t'[i] == t[i];
      }
    }
  }

  // ---------------------------------------------------------------------
  // Properties of every search trace
  // ---------------------------------------------------------------------

  /** The JPEG-quality sequence of the quality loop: 0.92, 0.85, ... down to 0.45. */
  function QualityAfter(k: nat): real {
    MaxR(QualityFloor, InitialQuality - QualityDecrement * k as real)
  }

  lemma QualityAfterStep(k: nat)
    ensures QualityStep(QualityAfter(k)) == QualityAfter(k + 1)
    ensures QualityAfter(k) > QualityFloor ==> k <= 6
  {
  }

  /**
   * The quality loop: an attempt made before any downscale is the k-th
   * quality retry of the unchanged canvas, with quality QualityAfter(k), and
   * there are at most seven retries.
   */
  lemma {:induction false} BeforeDownscale(t: seq<Attempt>, start: Size, i: nat)
    requires Search(t, start) && i < |t| && !t[i].stage.Downscale?
    ensures i <= 7 && t[i].quality == QualityAfter(i)
    ensures t[i].width == start.width && t[i].height == start.height
    ensures t[i].stage == Initial <==> i == 0
  {
    if i > 0 {
      assert Step(t[i - 1], t[i]);
      assert QualityRetryStep(t[i - 1], t[i]);
      BeforeDownscale(t, start, i - 1);
      QualityAfterStep(i - 1);
    }
  }

  /** Once the search downscales it keeps downscaling: every later attempt is a downscale. */
  lemma {:induction false} DownscaleStays(t: seq<Attempt>, start: Size, i: nat, j: nat)
    requires Search(t, start) && i <= j < |t| && t[i].stage.Downscale?
    ensures t[j].stage.Downscale?
  {
    if j > i {
      DownscaleStays(t, start, i, j - 1);
      assert Step(t[j - 1], t[j]);
    }
  }

  /**
   * A downscale uses a scale factor in [0.8, 0.92], at a quality no higher
   * than the quality floor and no lower than 0.4.
   */
  lemma {:induction false} DownscaleBounds(t: seq<Attempt>, start: Size, i: nat)
    requires Search(t, start) && i < |t| && t[i].stage.Downscale?
    ensures ScaleFactorFloor <= t[i].stage.factor <= InitialScaleFactor
    ensures ShrinkQualityFloor <= t[i].quality <= QualityFloor
  {
    assert i > 0;
    assert Step(t[i - 1], t[i]);
    assert DownscaleStep(t[i - 1], t[i]);
    if t[i - 1].stage.Downscale? {
      DownscaleBounds(t, start, i - 1);
    } else {
      BeforeDownscale(t, start, i - 1);
    }
  }

  /** Quality stays within [0.4, 0.92] and never rises. */
  lemma QualityBounds(t: seq<Attempt>, start: Size, i: nat)
    requires Search(t, start) && i < |t|
    ensures ShrinkQualityFloor <= t[i].quality <= InitialQuality
    ensures i > 0 ==> t[i].quality <= t[i - 1].quality
  {
    if t[i].stage.Downscale? {
      DownscaleBounds(t, start, i);
    } else {
      BeforeDownscale(t, start, i);
    }
    if i > 0 {
      assert Step(t[i - 1], t[i]);
      if t[i - 1].stage.Downscale? {
        DownscaleBounds(t, start, i - 1);
      } else {
        BeforeDownscale(t, start, i - 1);
      }
    }
  }

  /** round(w * sf) for a factor in [0.8, 0.92] never grows an edge, and shrinks one above 600. */
  lemma ShrinkEdge(w: int, sf: real)
    requires w >= 0 && ScaleFactorFloor <= sf <= InitialScaleFactor
    ensures 0 <= Round(w as real * sf) <= w
    ensures w > MinShrinkDim ==> Round(w as real * sf) < w
  {
    var x := w as real;
    assert 0.0 <= x * sf;
    assert x * sf <= x * InitialScaleFactor by {
      assert x * (InitialScaleFactor - sf) >= 0.0;
    }
  }

  /** One step never grows the canvas. */
  lemma StepEdges(a: Attempt, b: Attempt)
    requires Step(a, b) && a.width >= 0 && a.height >= 0
    requires b.stage.Downscale? ==> ScaleFactorFloor <= b.stage.factor <= InitialScaleFactor
    ensures 0 <= b.width <= a.width && 0 <= b.height <= a.height
  {
    if b.stage.Downscale? {
      ShrinkEdge(a.width, b.stage.factor);
      ShrinkEdge(a.height, b.stage.factor);
    }
  }

  /** The canvas never grows, and it never goes below zero. */
  lemma {:induction false} EdgesShrink(t: seq<Attempt>, start: Size, i: nat)
    requires Search(t, start) && start.width >= 0 && start.height >= 0 && i < |t|
    ensures 0 <= t[i].width <= start.width && 0 <= t[i].height <= start.height
    ensures i > 0 ==> t[i].width <= t[i - 1].width && t[i].height <= t[i - 1].height
  {
    if i > 0 {
      EdgesShrink(t, start, i - 1);
      assert Step(t[i - 1], t[i]);
      if t[i].stage.Downscale? {
        DownscaleBounds(t, start, i);
      }
      StepEdges(t[i - 1], t[i]);
    }
  }

  /** A first encode already within budget ends the search: one encode, canvas unchanged. */
  lemma FirstWithinBudget(t: seq<Attempt>, start: Size)
    requires Search(t, start)
    ensures !OverBudget(t[0].blob) ==> |t| == 1
  {
    if |t| > 1 {
      assert Step(t[0], t[1]);
    }
  }

  /** A canvas that starts with both edges at most 600 is never downscaled. */
  lemma {:induction false} SmallNeverDownscaled(t: seq<Attempt>, start: Size, i: nat)
    requires Search(t, start) && start.width <= MinShrinkDim && start.height <= MinShrinkDim
    requires i < |t|
    ensures !t[i].stage.Downscale?
  {
    if i > 0 {
      SmallNeverDownscaled(t, start, i - 1);
      BeforeDownscale(t, start, i - 1);
      assert Step(t[i - 1], t[i]);
      assert !MayShrink(t[i - 1]);
    }
  }

  /**
   * A search that ends over budget has given up: quality is at its floor
   * or below and neither edge exceeds 600.
   */
  lemma GaveUp(t: seq<Attempt>, start: Size)
    requires Search(t, start) && Stopped(t[|t| - 1]) && OverBudget(t[|t| - 1].blob)
    ensures t[|t| - 1].quality <= QualityFloor
    ensures t[|t| - 1].width <= MinShrinkDim && t[|t| - 1].height <= MinShrinkDim
  {
    if t[|t| - 1].stage.Downscale? {
      DownscaleBounds(t, start, |t| - 1);
    }
  }

  /** From a given attempt, the step taken is determined by the encoder. */
  lemma StepUnique(encode: Encoder, mime: string, a: Attempt, b: Attempt, c: Attempt)
    requires Step(a, b) && Step(a, c) && Encoded(encode, mime, b) && Encoded(encode, mime, c)
    ensures b == c
  {
  }

  /**
   * The trace semantics pins the search down: two stopped traces of the same
   * encoder from the same canvas are equal.
   */
  lemma SearchUnique(encode: Encoder, mime: string, t: seq<Attempt>, u: seq<Attempt>, start: Size)
    requires Search(t, start) && AllEncoded(encode, mime, t) && Stopped(t[|t| - 1])
    requires Search(u, start) && AllEncoded(encode, mime, u) && Stopped(u[|u| - 1])
    ensures t == u
  {
    var n := if |t| <= |u| then |t| else |u|;
    SamePrefix(encode, mime, t, u, start, n - 1);
    assert t[n - 1] == u[n - 1] by {
      assert t[n - 1] == t[..n][n - 1] && u[n - 1] == u[..n][n - 1];
    }
    MovesOn(t, start, n - 1);
    MovesOn(u, start, n - 1);
    assert |t| == |u|;
    assert t == t[..n] && u == u[..n];
  }

  /** Every attempt but the last is followed by a step, so only the last one is stopped. */
  lemma MovesOn(t: seq<Attempt>, start: Size, k: nat)
    requires Search(t, start) && k < |t|
    ensures k < |t| - 1 ==> !Stopped(t[k])
  {
    if k < |t| - 1 {
      assert Step(t[k], t[k + 1]);
    }
  }

  lemma {:induction false} SamePrefix(encode: Encoder, mime: string, t: seq<Attempt>, u: seq<Attempt>, start: Size, k: nat)
    requires Search(t, start) && AllEncoded(encode, mime, t)
    requires Search(u, start) && AllEncoded(encode, mime, u)
    requires k < |t| && k < |u|
    ensures t[..k + 1] == u[..k + 1]
  {
    if k == 0 {
      assert Encoded(encode, mime, t[0]) && Encoded(encode, mime, u[0]);
    } else {
      SamePrefix(encode, mime, t, u, start, k - 1);
      assert t[k - 1] == u[k - 1] by {
        assert t[k - 1] == t[..k][k - 1] && u[k - 1] == u[..k][k - 1];
      }
      assert Step(t[k - 1], t[k]) && Step(u[k - 1], u[k]);
      StepUnique(encode, mime, t[k - 1], t[k], u[k]);
      assert t[..k + 1] == t[..k] + [t[k]];
      assert u[..k + 1] == u[..k] + [u[k]];
    }
  }

  // ---------------------------------------------------------------------
  // PDF placement
  // ---------------------------------------------------------------------

  /** jsPDF's A4 page in points. */
  const A4Width := 595.28
  const A4Height := 841.89

  const PageFill := 0.95
  const PdfJpegFloor := 0.75

  /** The quality of the JPEG embedded in the PDF. */
  function PdfJpegQuality(q: real): (r: real)
    ensures r >= PdfJpegFloor && r >= q
    ensures r == PdfJpegFloor || r == q
  {
    MaxR(PdfJpegFloor, q)
  }

  datatype Placement = Placement(x: real, y: real, drawWidth: real, drawHeight: real)

  function PdfScale(pw: real, ph: real, iw: int, ih: int): real
    requires pw > 0.0 && ph > 0.0 && iw > 0 && ih > 0
  {
    MinR(pw * PageFill / iw as real, ph * PageFill / ih as real)
  }

  /** Scales the image to 95% of the page on its tighter axis and centres it. */
  function PdfPlacement(pw: real, ph: real, iw: int, ih: int): Placement
    requires pw > 0.0 && ph > 0.0 && iw > 0 && ih > 0
  {
    var s := PdfScale(pw, ph, iw, ih);
    var dw := iw as real * s;
    var dh := ih as real * s;
    Placement((pw - dw) / 2.0, (ph - dh) / 2.0, dw, dh)
  }

  /**
   * The image fills 95% of the page on one axis, no more than that on the
   * other, keeps its aspect ratio, and is centred.
   */
  lemma PdfPlacementFits(pw: real, ph: real, iw: int, ih: int)
    requires pw > 0.0 && ph > 0.0 && iw > 0 && ih > 0
    ensures var p := PdfPlacement(pw, ph, iw, ih);
            0.0 < p.drawWidth <= PageFill * pw && 0.0 < p.drawHeight <= PageFill * ph
            && (p.drawWidth == PageFill * pw || p.drawHeight == PageFill * ph)
    ensures var p := PdfPlacement(pw, ph, iw, ih);
            p.drawWidth * ih as real == p.drawHeight * iw as real
    ensures var p := PdfPlacement(pw, ph, iw, ih);
            2.0 * p.x + p.drawWidth == pw && 2.0 * p.y + p.drawHeight == ph
            && p.x >= (1.0 - PageFill) / 2.0 * pw && p.y >= (1.0 - PageFill) / 2.0 * ph
  {
    var w, h := iw as real, ih as real;
    var a, b := pw * PageFill, ph * PageFill;
    var s := PdfScale(pw, ph, iw, ih);
    assert s > 0.0;
    if a / w <= b / h {
      assert s == a / w;
      assert w * s == a;
      assert h * s <= b by {
        assert h * (b / h) == b;
        assert h * s <= h * (b / h);
      }
    } else {
      assert s == b / h;
      assert h * s == b;
      assert w * s <= a by {
        assert w * (a / w) == a;
        assert w * s <= w * (a / w);
      }
    }
    assert (w * s) * h == (h * s) * w;
  }

  // ---------------------------------------------------------------------
  // compressImage
  // ---------------------------------------------------------------------

  datatype CompressError = DecodeFailed | CanvasUnsupported | CompressionFailed

  datatype Download =
    | ImageDownload(size: nat)
    | PdfDownload(jpegQuality: real, placement: Placement, size: nat)

  /** The preview blob's size and the file offered for download, with the final canvas state. */
  datatype Compressed = Compressed(width: int, height: int, quality: real, previewSize: nat, download: Download)

  /** What the last attempt delivers: its blob as the preview and, for PDF, a page built by jsPDF. */
  function Deliver(format: Format, a: Attempt, pdfBytes: (real, Placement) -> nat): Compressed
    requires a.blob.Some? && a.width > 0 && a.height > 0
  {
    Compressed(a.width, a.height, a.quality, a.blob.value,
      if format == Pdf then
        var q := PdfJpegQuality(a.quality);
        var p := PdfPlacement(A4Width, A4Height, a.width, a.height);
        PdfDownload(q, p, pdfBytes(q, p))
      else
        ImageDownload(a.blob.value))
  }

  /**
   * The quality loop: from the first encode of the clamped canvas, re-encode
   * with lower quality while the blob is over budget and quality is above
   * its floor. The canvas is not touched.
   */
  method QualityLoop(encode: Encoder, mime: string, start: Size) returns (attempts: seq<Attempt>)
    ensures Search(attempts, start) && AllEncoded(encode, mime, attempts)
    ensures var last := attempts[|attempts| - 1];
            !last.stage.Downscale? && (!OverBudget(last.blob) || last.quality <= QualityFloor)
  {
    var quality := InitialQuality;
    var blob := ToBlob(encode, mime, start.width, start.height, quality);
    attempts := [Attempt(Initial, start.width, start.height, quality, blob)];
    var k := 0;
    while OverBudget(blob) && quality > QualityFloor
      invariant 0 <= k <= 7 && quality == QualityAfter(k)
      invariant Search(attempts, start) && AllEncoded(encode, mime, attempts)
      invariant attempts[|attempts| - 1]
                == Attempt(if k == 0 then Initial else QualityRetry, start.width, start.height, quality, blob)
      decreases 7 - k
    {
      QualityAfterStep(k);
      quality := QualityStep(quality);
      blob := ToBlob(encode, mime, start.width, start.height, quality);
      var next := Attempt(QualityRetry, start.width, start.height, quality, blob);
      SearchSnoc(attempts, start, next);
      EncodedSnoc(encode, mime, attempts, next);
      attempts := attempts + [next];
      k := k + 1;
    }
  }

  /**
   * The resolution loop: while the blob is over budget and an edge exceeds
   * 600, shrink both edges by the scale factor, lower quality and
   * re-encode; the scale factor itself falls towards its floor.
   */
  method ResolutionLoop(encode: Encoder, mime: string, start: Size, trace: seq<Attempt>)
    returns (attempts: seq<Attempt>)
    requires Search(trace, start) && AllEncoded(encode, mime, trace)
    requires start.width >= 0 && start.height >= 0
    requires var last := trace[|trace| - 1];
             !last.stage.Downscale? && (!OverBudget(last.blob) || last.quality <= QualityFloor)
    ensures Search(attempts, start) && AllEncoded(encode, mime, attempts)
    ensures |trace| <= |attempts| && attempts[..|trace|] == trace
    ensures Stopped(attempts[|attempts| - 1])
  {
    attempts := trace;
    var last := trace[|trace| - 1];
    EdgesShrink(trace, start, |trace| - 1);
    var width, height, quality, blob := last.width, last.height, last.quality, last.blob;
    var scaleFactor := InitialScaleFactor;
    while OverBudget(blob) && (width > MinShrinkDim || height > MinShrinkDim)
      invariant Search(attempts, start) && AllEncoded(encode, mime, attempts)
      invariant attempts[|attempts| - 1] == last
      invariant |trace| <= |attempts| && attempts[..|trace|] == trace
      invariant last == Attempt(last.stage, width, height, quality, blob)
      invariant 0 <= width && 0 <= height
      invariant scaleFactor == FactorAfter(last)
      invariant ScaleFactorFloor <= scaleFactor <= InitialScaleFactor
      invariant !last.stage.Downscale? ==> !OverBudget(blob) || quality <= QualityFloor
      decreases width + height
    {
      var next := Redraw(encode, mime, last, scaleFactor);
      ShrinkExtends(encode, mime, attempts, start, next);
      attempts := attempts + [next];
      last := next;
      width, height, quality, blob := next.width, next.height, next.quality, next.blob;
      scaleFactor := NextScaleFactor(scaleFactor);
    }
  }

  /**
   * One pass of the resolution loop's body: resize the canvas by the scale
   * factor, lower quality and encode again.
   */
  method Redraw(encode: Encoder, mime: string, last: Attempt, scaleFactor: real) returns (next: Attempt)
    requires OverBudget(last.blob) && MayShrink(last) && last.width >= 0 && last.height >= 0
    requires scaleFactor == FactorAfter(last) && ScaleFactorFloor <= scaleFactor <= InitialScaleFactor
    ensures DownscaleStep(last, next) && Encoded(encode, mime, next)
    ensures 0 <= next.width && 0 <= next.height && next.width + next.height < last.width + last.height
  {
    ShrinkCanvas(last.width, last.height, scaleFactor);
    var width := Round(last.width as real * scaleFactor);
    var height := Round(last.height as real * scaleFactor);
    var quality := ShrinkQuality(last.quality);
    var blob := ToBlob(encode, mime, width, height, quality);
    next := Attempt(Downscale(scaleFactor), width, height, quality, blob);
  }

  /** A downscale attempt built from the last attempt of a trace extends the trace. */
  lemma ShrinkExtends(encode: Encoder, mime: string, t: seq<Attempt>, start: Size, next: Attempt)
    requires Search(t, start) && AllEncoded(encode, mime, t)
    requires OverBudget(t[|t| - 1].blob) && MayShrink(t[|t| - 1])
    requires DownscaleStep(t[|t| - 1], next) && Encoded(encode, mime, next)
    ensures Search(t + [next], start) && AllEncoded(encode, mime, t + [next])
  {
    SearchSnoc(t, start, next);
    EncodedSnoc(encode, mime, t, next);
  }

  /** Both edges shrink by one factor: neither grows, and one above 600 shrinks. */
  lemma ShrinkCanvas(w: int, h: int, sf: real)
    requires w >= 0 && h >= 0 && (w > MinShrinkDim || h > MinShrinkDim)
    requires ScaleFactorFloor <= sf <= InitialScaleFactor
    ensures 0 <= Round(w as real * sf) && 0 <= Round(h as real * sf)
    ensures Round(w as real * sf) + Round(h as real * sf) < w + h
  {
    ShrinkEdge(w, sf);
    ShrinkEdge(h, sf);
  }

  /**
   * compressImage. `source` is the decoded image size (none when decoding
   * fails), `hasContext` whether the canvas offers a 2D context, `encode` the
   * canvas encoder and `pdfBytes` the size jsPDF produces for a JPEG quality
   * and a placement. Besides the outcome it returns every encode attempt.
   */
  method CompressImage(source: Option<Size>, hasContext: bool, format: Format,
                       encode: Encoder, pdfBytes: (real, Placement) -> nat)
    returns (result: Result<Compressed, CompressError>, attempts: seq<Attempt>)
    requires source.Some? ==> source.value.width >= 0 && source.value.height >= 0
    ensures source.None? ==> result == Failure(DecodeFailed) && attempts == []
    ensures source.Some? && !hasContext ==> result == Failure(CanvasUnsupported) && attempts == []
    ensures source.Some? && hasContext ==>
              Search(attempts, ClampToMaxDim(source.value))
              && AllEncoded(encode, MimeForImage(format), attempts)
              && Stopped(attempts[|attempts| - 1])
    ensures source.Some? && hasContext ==>
              (result.Success? <==> attempts[|attempts| - 1].blob.Some?)
              && (result.Failure? ==> result.error == CompressionFailed)
    ensures result.Success? ==>
              |attempts| >= 1 && attempts[|attempts| - 1].blob.Some?
              && result.value == Deliver(format, attempts[|attempts| - 1], pdfBytes)
  {
    if source.None? {
      return Failure(DecodeFailed), [];
    }
    if !hasContext {
      return Failure(CanvasUnsupported), [];
    }
    var start := ClampToMaxDim(source.value);
    ClampToMaxDimBounds(source.value);
    var mime := MimeForImage(format);
    attempts := QualityLoop(encode, mime, start);
    attempts := ResolutionLoop(encode, mime, start, attempts);
    var last := attempts[|attempts| - 1];
    assert Encoded(encode, mime, last);
    if last.blob.None? {
      return Failure(CompressionFailed), attempts;
    }
    result := Success(Deliver(format, last, pdfBytes));
  }
}
