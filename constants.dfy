/** The application's constants (constants.ts). */
module Constants {
  import opened Types

  /** Settings before any image is loaded. */
  const DefaultSettings: ResizeSettings :=
    ResizeSettings(0, 0, true, Jpeg, 0.9, None)

  /** One button of the format picker (the source field `label` is a Dafny keyword, hence `caption`). */
  datatype FormatOption = FormatOption(value: ImageFormat, caption: string)

  const SupportedFormats: seq<FormatOption> :=
    [FormatOption(Jpeg, "JPG"), FormatOption(Png, "PNG"), FormatOption(Webp, "WEBP")]

  /** Every format has exactly one button in the picker. */
  lemma SupportedFormatsCoverEachFormatOnce(format: ImageFormat)
    ensures |set i | 0 <= i < |SupportedFormats| && SupportedFormats[i].value == format| == 1
  {
    var picked := set i | 0 <= i < |SupportedFormats| && SupportedFormats[i].value == format;
    match format
    case Jpeg => assert picked == {0};
    case Png => assert picked == {1};
    case Webp => assert picked == {2};
  }
}
