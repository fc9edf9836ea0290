/** The value types shared by the resizer (types.ts). */
module Types {

  /** A value or its absence; stands for the source's `T | null`. */
  datatype Option<+T> = None | Some(value: T)

  /** The three output formats; the source names them by MIME type. */
  datatype ImageFormat = Jpeg | Png | Webp

  /** The MIME type by which the source names a format. */
  function MimeType(format: ImageFormat): (mime: string)
    ensures |mime| > 6 && mime[..6] == "image/"
  {
    match format
    case Jpeg => "image/jpeg"
    case Png => "image/png"
    case Webp => "image/webp"
  }

  /** Distinct formats have distinct MIME types, so the string identifies the format. */
  lemma MimeTypesDistinct(f: ImageFormat, g: ImageFormat)
    ensures MimeType(f) == MimeType(g) <==> f == g
  {
    assert MimeType(Jpeg)[6] == 'j' && MimeType(Webp)[6] == 'w';
  }

  /**
   * The user's export settings. Width, height and the target are integers as
   * `parseInt` produces them (possibly zero or negative); quality is in [0, 1].
   */
  datatype ResizeSettings = ResizeSettings(
    width: int,
    height: int,
    maintainAspectRatio: bool,
    format: ImageFormat,
    quality: real,
    targetFileSizeKB: Option<int>)

  newtype byte = x: int | 0 <= x < 256

  /** An encoded image; its size is its length in bytes. */
  datatype Blob = Blob(bytes: seq<byte>) {
    function Size(): nat { |bytes| }
  }

  /** What one run of the pipeline hands back to the page. */
  datatype ProcessingResult = ProcessingResult(
    blob: Blob,
    url: string,
    width: int,
    height: int,
    size: int)

  /** The loaded source image, as the page keeps it (the `File` handle is left out). */
  datatype ImageState = ImageState(
    originalPreview: string,
    originalWidth: int,
    originalHeight: int,
    originalSize: int,
    name: string)
}
