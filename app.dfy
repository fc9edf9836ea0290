/**
 * The page-level rules of App.tsx: the settings chosen when an image is
 * loaded, and the name under which the result is downloaded.
 */
module App {
  import opened Types
  import Constants
  import ImageProcessing
  import SettingsPanel

  /** `String.prototype.lastIndexOf` for one character: -1 when absent. */
  function LastIndexOf(s: string, c: char): (r: int)
    ensures -1 <= r < |s|
    ensures r >= 0 ==> s[r] == c
    ensures forall j | r < j < |s| :: s[j] != c
  {
    if |s| == 0 then -1
    else if s[|s| - 1] == c then |s| - 1
    else LastIndexOf(s[..|s| - 1], c)
  }

  /** An index argument of `substring`, clamped into [0, n]. */
  function ClampIndex(i: int, n: nat): (r: nat)
    ensures r <= n
    ensures 0 <= i <= n ==> r == i
  {
    if i < 0 then 0 else if i > n then n else i
  }

  /** `String.prototype.substring`: clamp both ends, then swap them if reversed. */
  function Substring(s: string, start: int, end: int): (r: string)
    ensures |r| <= |s|
    ensures 0 <= start <= end <= |s| ==> r == s[start..end]
    ensures start == 0 && end < 0 ==> r == ""
  {
    var a, b := ClampIndex(start, |s|), ClampIndex(end, |s|);
    if a <= b then s[a..b] else s[b..a]
  }

  /** `name.substring(0, name.lastIndexOf('.')) || name`. */
  function BaseName(name: string): (r: string)
    ensures forall k | 0 < k < |name| && name[k] == '.' && (forall j | k < j < |name| :: name[j] != '.') ::
      r == name[..k]
    ensures (forall k | 0 < k < |name| :: name[k] != '.') ==> r == name
  {
    var prefix := Substring(name, 0, LastIndexOf(name, '.'));
    if prefix == "" then name else prefix
  }

  /**
   * The file extension for a format: `jpg` unless PNG or WEBP. Apart from JPEG
   * it is the MIME subtype.
   */
  function Extension(format: ImageFormat): (ext: string)
    ensures '.' !in ext && |ext| > 0
    ensures format == Jpeg ==> ext == "jpg"
    ensures format != Jpeg ==> ext == MimeType(format)[6..]
  {
    var ext := "jpg";
    var ext := if format == Png then "png" else ext;
    var ext := if format == Webp then "webp" else ext;
    ext
  }

  /** Each format gets its own extension, and none contains a dot. */
  lemma ExtensionsDistinct(f: ImageFormat, g: ImageFormat)
    ensures Extension(f) == Extension(g) <==> f == g
    ensures '.' !in Extension(f)
    ensures Extension(f) == "jpg" <==> f == Jpeg
  {
  }

  /**
   * The download file name. It splits back into its parts: its own base name
   * is the original one with `_resized` appended, followed by a dot and the
   * format's extension.
   */
  function DownloadName(name: string, format: ImageFormat): (r: string)
    ensures BaseName(r) == BaseName(name) + "_resized"
    ensures r == BaseName(r) + "." + Extension(format)
  {
    var stem := BaseName(name) + "_resized";
    assert BaseName(name) + "_resized." + Extension(format) == stem + "." + Extension(format);
    BaseNameOfDotted(stem, Extension(format));
    BaseName(name) + "_resized." + Extension(format)
  }

  /** Stripping the extension of stem + "." + ext gives back a non-empty stem. */
  lemma BaseNameOfDotted(stem: string, ext: string)
    requires |stem| > 0 && '.' !in ext
    ensures BaseName(stem + "." + ext) == stem
  {
    var name := stem + "." + ext;
    assert name[|stem|] == '.';
    forall j | |stem| < j < |name|
      ensures name[j] != '.'
    {
      assert name[j] == ext[j - |stem| - 1];
    }
    assert name[..|stem|] == stem;
  }

  /** A name without a dot past its first character is kept whole. */
  lemma BaseNameWithoutExtension(name: string, format: ImageFormat)
    requires forall k | 0 < k < |name| :: name[k] != '.'
    ensures BaseName(name) == name
    ensures DownloadName(name, format) == name + "_resized." + Extension(format)
  {
  }

  /** The link `handleDownload` clicks. */
  datatype Download = Download(href: string, filename: string)

  /**
   * `handleDownload`: nothing without a processed result and a loaded image;
   * otherwise the result's URL under the derived name. The extension follows
   * the current settings, not the format the shown result was encoded in.
   */
  function HandleDownload(processedResult: Option<ProcessingResult>, imageState: Option<ImageState>, settings: ResizeSettings)
    : (r: Option<Download>)
    ensures r.None? <==> processedResult.None? || imageState.None?
    ensures r.Some? ==> r.value.href == processedResult.value.url
    ensures r.Some? ==> r.value.filename == DownloadName(imageState.value.name, settings.format)
  {
    if processedResult.None? || imageState.None? then None
    else Some(Download(processedResult.value.url, DownloadName(imageState.value.name, settings.format)))
  }

  /** The settings `handleFileSelect` installs for a freshly loaded image. */
  function InitialSettings(imageWidth: int, imageHeight: int): (r: ResizeSettings)
    ensures r.width == imageWidth && r.height == imageHeight
    ensures r.(width := 0, height := 0) == Constants.DefaultSettings
  {
    Constants.DefaultSettings.(width := imageWidth, height := imageHeight)
  }

  /**
   * A freshly loaded image starts at its own size, aspect lock on, JPEG at
   * quality 0.9 and no target: a single encode, no search, and Reset changes
   * nothing.
   */
  lemma InitialSettingsFacts(imageWidth: int, imageHeight: int)
    ensures var s := InitialSettings(imageWidth, imageHeight);
      && s.width == imageWidth && s.height == imageHeight
      && s.maintainAspectRatio && s.format == Jpeg && s.quality == 0.9
      && s.targetFileSizeKB.None?
      && !ImageProcessing.SearchesForSize(s)
      && !SettingsPanel.QualitySliderDisabled(s) && !SettingsPanel.TargetInputDisabled(s)
      && SettingsPanel.HandleReset(s, imageWidth, imageHeight) == s
  {
  }
}
