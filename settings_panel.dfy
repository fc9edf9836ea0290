/**
 * The settings panel's update rules (components/SettingsPanel.tsx). Each
 * handler builds the next settings with `{ ...settings, ...updates }`; here it
 * is a function from the current settings (and the parsed input) to the next.
 * The width and height text buffers are widget state and are not modelled.
 */
module SettingsPanel {
  import opened Types
  import ImageProcessing

  /** JavaScript's `Math.round`: the nearest integer, halves rounded up. */
  function Round(x: real): (r: int)
    ensures x - 0.5 < r as real <= x + 0.5
  {
    (x + 0.5).Floor
  }

  /** Rounding an integer gives it back. */
  lemma RoundInt(n: int)
    ensures Round(n as real) == n
  {
  }

  /**
   * The width field changed; `parsed` is `parseInt(value, 10)`, `None` for NaN.
   * `None` as the result means `onSettingsChange` is not called.
   */
  function HandleWidthChange(settings: ResizeSettings, originalWidth: int, originalHeight: int, parsed: Option<int>)
    : (r: Option<ResizeSettings>)
    ensures r.None? <==> parsed.None?
    ensures r.Some? ==> r.value == settings.(width := parsed.value, height := r.value.height)
    ensures r.Some? && settings.maintainAspectRatio && originalWidth > 0 ==>
      r.value.height == Round(parsed.value as real * (originalHeight as real / originalWidth as real))
    ensures r.Some? && !(settings.maintainAspectRatio && originalWidth > 0) ==>
      r.value.height == settings.height
  {
    match parsed
    case None => None
    case Some(w) =>
      if settings.maintainAspectRatio && originalWidth > 0 then
        Some(settings.(width := w, height := Round(w as real * (originalHeight as real / originalWidth as real))))
      else
        Some(settings.(width := w))
  }

  /** The height field changed; the mirror image of HandleWidthChange. */
  function HandleHeightChange(settings: ResizeSettings, originalWidth: int, originalHeight: int, parsed: Option<int>)
    : (r: Option<ResizeSettings>)
    ensures r.None? <==> parsed.None?
    ensures r.Some? ==> r.value == settings.(height := parsed.value, width := r.value.width)
    ensures r.Some? && settings.maintainAspectRatio && originalHeight > 0 ==>
      r.value.width == Round(parsed.value as real * (originalWidth as real / originalHeight as real))
    ensures r.Some? && !(settings.maintainAspectRatio && originalHeight > 0) ==>
      r.value.width == settings.width
  {
    match parsed
    case None => None
    case Some(h) =>
      if settings.maintainAspectRatio && originalHeight > 0 then
        Some(settings.(height := h, width := Round(h as real * (originalWidth as real / originalHeight as real))))
      else
        Some(settings.(height := h))
  }

  // Arithmetic helpers. The rounding proofs keep real and integer reasoning
  // apart: a purely real core, then a linear step back to the integers.

  lemma PositiveProduct(a: real, b: real)
    requires a > 0.0 && b > 0.0
    ensures a * b > 0.0
  {
  }

  lemma NonnegativeProduct(a: real, b: real)
    requires a >= 0.0 && b >= 0.0
    ensures a * b >= 0.0
  {
  }

  lemma RealOfProduct(a: int, b: int)
    ensures (a * b) as real == a as real * b as real
  {
  }

  /** An error in (-1/2, 1/2] scaled by a non-negative factor f stays in [-f/2, f/2]. */
  lemma ScaledHalfError(e: real, f: real)
    requires -0.5 < e <= 0.5 && f >= 0.0
    ensures -f <= 2.0 * (e * f) <= f
  {
    NonnegativeProduct(e + 0.5, f);
    NonnegativeProduct(0.5 - e, f);
    assert (e + 0.5) * f == e * f + 0.5 * f;
    assert (0.5 - e) * f == 0.5 * f - e * f;
  }

  /** The real-valued core of RoundedProportion. */
  lemma RoundedProportionReal(h: real, n: real, num: real, d: real)
    requires d > 0.0
    requires n * (num / d) - 0.5 < h <= n * (num / d) + 0.5
    ensures -d < 2.0 * (h * d - n * num) <= d
  {
    var x := n * (num / d);
    var e := h - x;
    assert x * d == n * num;
    assert e * d == h * d - n * num;
    PositiveProduct(e + 0.5, d);
    NonnegativeProduct(0.5 - e, d);
    assert (e + 0.5) * d == e * d + 0.5 * d;
    assert (0.5 - e) * d == 0.5 * d - e * d;
    assert e * d > -0.5 * d;
    assert 2.0 * (e * d) > -d;
  }

  lemma IntFromReal(p: int, a: real, den: int)
    requires p as real == a
    requires -(den as real) < 2.0 * a <= den as real
    ensures -den < 2 * p <= den
  {
  }

  /**
   * Rounding n * (num / den) to the nearest integer h leaves h * den within
   * half of den of n * num.
   */
  lemma RoundedProportion(h: int, n: int, num: int, den: int)
    requires den > 0
    requires h == Round(n as real * (num as real / den as real))
    ensures -den < 2 * (h * den - n * num) <= den
  {
    RoundedProportionReal(h as real, n as real, num as real, den as real);
    RealOfProduct(h, den);
    RealOfProduct(n, num);
    IntFromReal(h * den - n * num, h as real * den as real - n as real * num as real, den);
  }

  /**
   * With the lock on, a width edit keeps the original aspect ratio up to
   * rounding: h * originalWidth is within half of originalWidth of
   * w * originalHeight.
   */
  lemma WidthEditKeepsAspectRatio(settings: ResizeSettings, originalWidth: int, originalHeight: int, w: int)
    requires settings.maintainAspectRatio && originalWidth > 0
    ensures var r := HandleWidthChange(settings, originalWidth, originalHeight, Some(w)).value;
      -originalWidth < 2 * (r.height * originalWidth - w * originalHeight) <= originalWidth
  {
    var r := HandleWidthChange(settings, originalWidth, originalHeight, Some(w)).value;
    RoundedProportion(r.height, w, originalHeight, originalWidth);
  }

  /** With the lock on, a height edit keeps the aspect ratio up to rounding. */
  lemma HeightEditKeepsAspectRatio(settings: ResizeSettings, originalWidth: int, originalHeight: int, h: int)
    requires settings.maintainAspectRatio && originalHeight > 0
    ensures var r := HandleHeightChange(settings, originalWidth, originalHeight, Some(h)).value;
      -originalHeight < 2 * (r.width * originalHeight - h * originalWidth) <= originalHeight
  {
    var r := HandleHeightChange(settings, originalWidth, originalHeight, Some(h)).value;
    RoundedProportion(r.width, h, originalWidth, originalHeight);
  }

  /** With the lock on, typing the original width back restores the original height. */
  lemma OriginalWidthRestoresHeight(settings: ResizeSettings, originalWidth: int, originalHeight: int)
    requires settings.maintainAspectRatio && originalWidth > 0
    ensures var r := HandleWidthChange(settings, originalWidth, originalHeight, Some(originalWidth)).value;
      r.width == originalWidth && r.height == originalHeight
  {
    var ow, oh := originalWidth as real, originalHeight as real;
    assert ow * (oh / ow) == oh;
    RoundInt(originalHeight);
  }

  /** With the lock on, typing the original height back restores the original width. */
  lemma OriginalHeightRestoresWidth(settings: ResizeSettings, originalWidth: int, originalHeight: int)
    requires settings.maintainAspectRatio && originalHeight > 0
    ensures var r := HandleHeightChange(settings, originalWidth, originalHeight, Some(originalHeight)).value;
      r.width == originalWidth && r.height == originalHeight
  {
    var ow, oh := originalWidth as real, originalHeight as real;
    assert oh * (ow / oh) == ow;
    RoundInt(originalWidth);
  }

  /** The lock button. */
  function ToggleAspectRatio(settings: ResizeSettings): (r: ResizeSettings)
    ensures r.maintainAspectRatio != settings.maintainAspectRatio
    ensures r.(maintainAspectRatio := settings.maintainAspectRatio) == settings
  {
    settings.(maintainAspectRatio := !settings.maintainAspectRatio)
  }

  lemma ToggleTwiceIsIdentity(settings: ResizeSettings)
    ensures ToggleAspectRatio(ToggleAspectRatio(settings)) == settings
  {
  }

  /** The scales offered as quick buttons. */
  const QuickScales: seq<real> := [0.25, 0.5, 0.75]

  /** A 25/50/75% button: both dimensions from the original ones. */
  function HandleQuickScale(settings: ResizeSettings, originalWidth: int, originalHeight: int, scale: real)
    : (r: ResizeSettings)
    ensures r == settings.(width := r.width, height := r.height)
    ensures originalWidth as real * scale - 0.5 < r.width as real <= originalWidth as real * scale + 0.5
    ensures originalHeight as real * scale - 0.5 < r.height as real <= originalHeight as real * scale + 0.5
  {
    settings.(width := Round(originalWidth as real * scale), height := Round(originalHeight as real * scale))
  }

  /** The Reset button: the original dimensions. */
  function HandleReset(settings: ResizeSettings, originalWidth: int, originalHeight: int): (r: ResizeSettings)
    ensures r.width == originalWidth && r.height == originalHeight
    ensures r.(width := settings.width, height := settings.height) == settings
  {
    settings.(width := originalWidth, height := originalHeight)
  }

  /** Reset is the 100% scale. */
  lemma ResetIsFullScale(settings: ResizeSettings, originalWidth: int, originalHeight: int)
    ensures HandleReset(settings, originalWidth, originalHeight)
         == HandleQuickScale(settings, originalWidth, originalHeight, 1.0)
  {
    RoundInt(originalWidth);
    RoundInt(originalHeight);
  }

  lemma ScaledWithin(original: int, scale: real)
    requires original >= 0 && 0.0 <= scale <= 1.0
    ensures 0 <= Round(original as real * scale) <= original
  {
    var o := original as real;
    NonnegativeProduct(o, scale);
    NonnegativeProduct(o, 1.0 - scale);
    assert o * (1.0 - scale) == o - o * scale;
  }

  /** A quick scale in [0, 1] never enlarges and never goes negative. */
  lemma QuickScaleWithinOriginal(settings: ResizeSettings, originalWidth: int, originalHeight: int, scale: real)
    requires originalWidth >= 0 && originalHeight >= 0 && 0.0 <= scale <= 1.0
    ensures var r := HandleQuickScale(settings, originalWidth, originalHeight, scale);
      0 <= r.width <= originalWidth && 0 <= r.height <= originalHeight
  {
    ScaledWithin(originalWidth, scale);
    ScaledWithin(originalHeight, scale);
  }

  /** The real-valued core of QuickScaleKeepsAspectRatio. */
  lemma ScaledPairReal(w: real, h: real, ow: real, oh: real, scale: real)
    requires ow >= 0.0 && oh >= 0.0
    requires ow * scale - 0.5 < w <= ow * scale + 0.5
    requires oh * scale - 0.5 < h <= oh * scale + 0.5
    ensures -(ow + oh) <= 2.0 * (w * oh - h * ow) <= ow + oh
  {
    var ew, eh := w - ow * scale, h - oh * scale;
    ScaledHalfError(ew, oh);
    ScaledHalfError(eh, ow);
    assert (ow * scale) * oh == (oh * scale) * ow;
    assert w * oh - h * ow == ew * oh - eh * ow;
  }

  lemma IntFromRealPair(p: int, a: real, bound: int)
    requires p as real == a
    requires -(bound as real) <= 2.0 * a <= bound as real
    ensures -bound <= 2 * p <= bound
  {
  }

  /**
   * A quick scale keeps the aspect ratio up to rounding: the cross products
   * w * originalHeight and h * originalWidth differ by at most half the sum of
   * the original dimensions.
   */
  lemma QuickScaleKeepsAspectRatio(settings: ResizeSettings, originalWidth: int, originalHeight: int, scale: real)
    requires originalWidth >= 0 && originalHeight >= 0
    ensures var r := HandleQuickScale(settings, originalWidth, originalHeight, scale);
      -(originalWidth + originalHeight) <= 2 * (r.width * originalHeight - r.height * originalWidth)
        <= originalWidth + originalHeight
  {
    var r := HandleQuickScale(settings, originalWidth, originalHeight, scale);
    var ow, oh := originalWidth as real, originalHeight as real;
    ScaledPairReal(r.width as real, r.height as real, ow, oh, scale);
    RealOfProduct(r.width, originalHeight);
    RealOfProduct(r.height, originalWidth);
    IntFromRealPair(r.width * originalHeight - r.height * originalWidth,
      r.width as real * oh - r.height as real * ow, originalWidth + originalHeight);
  }

  /** The 50% button halves even dimensions exactly. */
  lemma HalfOfEven(settings: ResizeSettings, halfWidth: int, halfHeight: int)
    ensures var r := HandleQuickScale(settings, 2 * halfWidth, 2 * halfHeight, QuickScales[1]);
      r.width == halfWidth && r.height == halfHeight
  {
    RoundInt(halfWidth);
    RoundInt(halfHeight);
  }

  /** A format button. */
  function HandleFormatSelect(settings: ResizeSettings, format: ImageFormat): (r: ResizeSettings)
    ensures r.format == format
    ensures r.(format := settings.format) == settings
  {
    settings.(format := format)
  }

  /** Only the last format chosen matters. */
  lemma FormatSelectLastWins(settings: ResizeSettings, first: ImageFormat, second: ImageFormat)
    ensures HandleFormatSelect(HandleFormatSelect(settings, first), second) == HandleFormatSelect(settings, second)
  {
  }

  /** The quality slider; `quality` is the already parsed `parseFloat` value. */
  function HandleQualityChange(settings: ResizeSettings, quality: real): (r: ResizeSettings)
    ensures r.quality == quality
    ensures r.(quality := settings.quality) == settings
  {
    settings.(quality := quality)
  }

  /** The quality slider is disabled: JPEG with a positive target. */
  predicate QualitySliderDisabled(settings: ResizeSettings) {
    settings.targetFileSizeKB.Some? && settings.targetFileSizeKB.value > 0 && settings.format == Jpeg
  }

  /** The target-size field is disabled for every format but JPEG. */
  predicate TargetInputDisabled(settings: ResizeSettings) {
    settings.format != Jpeg
  }

  /** The Clear button is shown when the target is truthy: present and non-zero. */
  predicate ClearButtonShown(settings: ResizeSettings) {
    settings.targetFileSizeKB.Some? && settings.targetFileSizeKB.value != 0
  }

  /**
   * The slider is disabled exactly when the pipeline searches under JPEG: the
   * slider's value is then only the search's first guess. Under WEBP the search
   * can run with the slider enabled.
   */
  lemma SliderDisabledIffJpegSearch(settings: ResizeSettings)
    ensures QualitySliderDisabled(settings) <==>
      ImageProcessing.SearchesForSize(settings) && settings.format == Jpeg
    ensures settings.format == Webp ==> !QualitySliderDisabled(settings)
  {
  }

  /**
   * The target field is editable only under JPEG, whatever else is set; when it
   * is disabled the slider is enabled.
   */
  lemma TargetInputEditableOnlyUnderJpeg(settings: ResizeSettings, format: ImageFormat)
    ensures TargetInputDisabled(HandleFormatSelect(settings, format)) <==> format != Jpeg
    ensures TargetInputDisabled(settings) ==> !QualitySliderDisabled(settings)
  {
  }

  /**
   * Clear is offered whenever the pipeline searches, right after any non-zero
   * target is typed (negative ones included), and never once pressed.
   */
  lemma ClearShownWhileTargetSet(settings: ResizeSettings, kb: int)
    ensures ImageProcessing.SearchesForSize(settings) ==> ClearButtonShown(settings)
    ensures ClearButtonShown(HandleTargetSizeInput(settings, Entered(Some(kb)))) <==> kb != 0
    ensures !ClearButtonShown(HandleTargetSizeInput(settings, Entered(None)))
    ensures !ClearButtonShown(HandleClear(settings))
  {
  }

  /**
   * The text of the target-size field: empty, or non-empty with its
   * `parseInt` value (`None` for NaN; a stored NaN is falsy and fails `> 0`,
   * so every reader of the field treats it as null).
   */
  datatype SizeText = Blank | Entered(parsed: Option<int>)

  /** The target-size field changed. */
  function HandleTargetSizeInput(settings: ResizeSettings, text: SizeText): (r: ResizeSettings)
    ensures r == settings.(targetFileSizeKB := r.targetFileSizeKB)
    ensures text.Blank? ==> r.targetFileSizeKB.None?
    ensures text.Entered? ==> r.targetFileSizeKB == text.parsed
  {
    match text
    case Blank => settings.(targetFileSizeKB := None)
    case Entered(parsed) => settings.(targetFileSizeKB := parsed)
  }

  /** The Clear button. */
  function HandleClear(settings: ResizeSettings): (r: ResizeSettings)
    ensures r.targetFileSizeKB.None?
    ensures r.(targetFileSizeKB := settings.targetFileSizeKB) == settings
  {
    settings.(targetFileSizeKB := None)
  }

  /** Emptying the field is the same as pressing Clear. */
  lemma BlankInputIsClear(settings: ResizeSettings)
    ensures HandleTargetSizeInput(settings, Blank) == HandleClear(settings)
  {
  }

  /** Clear undoes any target typed since, and disables the search. */
  lemma ClearUndoesInput(settings: ResizeSettings, text: SizeText)
    ensures HandleClear(HandleTargetSizeInput(settings, text)) == HandleClear(settings)
    ensures !ImageProcessing.SearchesForSize(HandleClear(settings))
    ensures !QualitySliderDisabled(HandleClear(settings)) && !ClearButtonShown(HandleClear(settings))
  {
  }

  /** A positive target typed under a lossy format switches the pipeline to the search. */
  lemma TargetInputStartsSearch(settings: ResizeSettings, kb: int)
    requires settings.format != Png && kb > 0
    ensures ImageProcessing.SearchesForSize(HandleTargetSizeInput(settings, Entered(Some(kb))))
  {
  }

  /** A disabled quality slider means the pipeline searches and the target field is enabled. */
  lemma DisabledSliderMeansSearch(settings: ResizeSettings)
    ensures QualitySliderDisabled(settings) ==>
      ImageProcessing.SearchesForSize(settings) && !TargetInputDisabled(settings)
  {
  }

  /**
   * A target set under JPEG survives a switch to WEBP: there the target field
   * is disabled and the quality slider enabled, yet the pipeline still
   * searches. PNG never searches.
   */
  lemma TargetSurvivesFormatSwitch(settings: ResizeSettings)
    requires settings.format == Jpeg && settings.targetFileSizeKB.Some? && settings.targetFileSizeKB.value > 0
    ensures var webp := HandleFormatSelect(settings, Webp);
      && webp.targetFileSizeKB == settings.targetFileSizeKB
      && TargetInputDisabled(webp)
      && !QualitySliderDisabled(webp)
      && ImageProcessing.SearchesForSize(webp)
    ensures !ImageProcessing.SearchesForSize(HandleFormatSelect(settings, Png))
  {
  }
}
