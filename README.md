# PixelPerfect Resizer — a Dafny model of its resize-and-compress core

PixelPerfect Resizer is a client-side image resizer. The user loads one image
and sets a target width and height, an output format (JPEG, PNG or WEBP), an
encoder quality and, optionally, a maximum file size in KB. The page then
re-encodes the image. When a size ceiling is set and the format is lossy, it
searches for the highest encoder quality whose output still fits.

This project models that core:

- `types.dfy` (module `Types`) holds the records of `types.ts`: the format,
  the settings, the processing result and the loaded-image state. Encoded
  output is a `Blob` of bytes, and its size is the byte count.
- `constants.dfy` (module `Constants`) holds the default settings and the
  format list of `constants.ts`.
- `image_processing.dfy` (module `ImageProcessing`) models `fitToSize` and
  `processImage` from `utils/imageProcessing.ts`, both as methods.
  - The browser encoder `canvas.toBlob` is a parameter. It is a total
    function from canvas, format and quality to `Option<Blob>`, where `None`
    stands for the rejected promise.
  - Both methods also return `calls`, the sequence of qualities they asked
    the encoder for.
  - `FitToSize` (the quality bisection) is proved equal to a functional
    specification: an opening probe `Open`, six bisection `Step`s folded by
    `Iterate`, and the fallback in `Finish`. The lemmas after it state what
    the search guarantees.
- `settings_panel.dfy` (module `SettingsPanel`) models the event handlers of
  `components/SettingsPanel.tsx` and its disabled/visible predicates.
  - Each handler is a function from the current settings (and the
    already-parsed input) to the settings passed to `onSettingsChange`.
  - `Math.round` is `Round`: the nearest integer, with halves rounded up.
- `app.dfy` (module `App`) models two parts of `App.tsx`: the settings
  installed for a freshly loaded image, and the download file name built from
  `lastIndexOf`, `substring` and the format's extension.

Notes on behaviour the model keeps as the code has it:

- **The opening probe is never returned.** `fitToSize` starts with
  `bestBlob = null` (utils/imageProcessing.ts:44), and only a bisection step
  sets it (:73). The code's comments speak of keeping the best blob that fits
  (:52, :73), but an opening probe that fits is not kept. The model follows
  the code.
  - So if the initial quality fits and nothing above it does, the result is
    the 0.05-quality fallback, not the fitting initial encode
    (`InitialFitDiscarded`).
  - Never returning the opening probe holds in general
    (`ResultIsNeverTheOpeningProbe`).
- **The encoder is called at most eight times on the search path:** one
  probe, six steps and the fallback.
- **"The last fit is the highest fit tried" needs an in-range initial
  quality.** `LastFitWins` proves it only for an initial quality in
  [0.01, 1] (`Ordered`). Outside that range, a fitting initial quality above
  1 or an overshooting one below 0.01 inverts the first bracket.
- **The download extension comes from the current settings,** not from the
  format the shown result was encoded in (App.tsx:80-82).
- **A target switched to WEBP keeps searching.** A target entered under JPEG
  stays in the settings after a switch to WEBP, and the pipeline still
  searches there, even though the target field is then disabled
  (`TargetSurvivesFormatSwitch`).

## Model

| member | source | states |
|---|---|---|
| Types.MimeType | types.ts:1 | each format is one of the `image/…` MIME strings |
| Types.MimeTypesDistinct | types.ts:1 | distinct formats have distinct MIME strings, so the string identifies the format |
| Constants.SupportedFormatsCoverEachFormatOnce | constants.ts:12-16 | the format list offers every format exactly once |
| ImageProcessing.EncoderFor | utils/imageProcessing.ts:21-32 | the encoder the search uses is `canvasToBlob` on the one canvas and format, at the given quality |
| ImageProcessing.Open | utils/imageProcessing.ts:47-62 | the opening probe encodes at the initial quality; any failure aborts with that one call; a fit brackets [q0, 1], an overshoot brackets [0.01, q0]; no best blob yet; an in-range q0 gives an ordered bracket |
| ImageProcessing.Step | utils/imageProcessing.ts:65-75 | one bisection encodes at the midpoint; a failure aborts; an overshoot lowers the top, a fit raises the bottom and records that blob as best; the width halves and an ordered bracket narrows inside itself |
| ImageProcessing.Finish | utils/imageProcessing.ts:77-78 | an aborted search is the encoder failure; a recorded best blob is returned with no further call; otherwise one more encode at 0.05 decides the result, and its failure is the encoder failure |
| ImageProcessing.FitToSize | utils/imageProcessing.ts:35-79 | the loop computes exactly the outcome and encoder-call trace of the functional search (probe, six steps, best-or-fallback) |
| ImageProcessing.SearchesOnlyLossyWithTarget | utils/imageProcessing.ts:102-104 | JPEG and WEBP are the compressible formats; the search runs exactly for those with a positive target, never for PNG |
| ImageProcessing.SingleEncode | utils/imageProcessing.ts:108-111 | the no-search path encodes once at the settings' quality; it succeeds exactly when that encode succeeds, and returns that blob |
| ImageProcessing.ProcessImage | utils/imageProcessing.ts:81-122 | a load failure and a missing 2D context fail before any encode; otherwise a positive target under JPEG/WEBP runs the size search at `settings.quality`, and anything else encodes once; success reports the settings' width and height, the blob's byte size and the object URL |
| ImageProcessing.AbortedStays | utils/imageProcessing.ts:67 | once an encode fails, no further step runs and the failure is final |
| ImageProcessing.StepPreserves | utils/imageProcessing.ts:66-74 | a step keeps the search invariant: calls start at q0 and all succeeded; best is the last fitting call, which sits at the bracket bottom; for ordered q0, fits lie below the bottom and overshoots above the top |
| ImageProcessing.IterateInvariant | utils/imageProcessing.ts:65-75 | after n running steps the invariant holds and exactly n+1 encodes were made |
| ImageProcessing.IterateAborted | utils/imageProcessing.ts:48-75 | an aborted search made between 1 and n+1 calls, starting at q0, and its last call is the one that failed |
| ImageProcessing.IterateBracket | utils/imageProcessing.ts:65-75 | after n steps the bracket width is the opening width divided by 2^n and, for ordered q0, lies inside the opening bracket |
| ImageProcessing.BracketNarrowing | utils/imageProcessing.ts:65 | after the six rounds the bracket is 1/64 of the opening bracket and inside it |
| ImageProcessing.FitToSizeCalls | utils/imageProcessing.ts:35-79 | between 1 and 8 encodes, the first at the initial quality; success means every encode succeeded; failure means the last one failed; an unfinished loop means failure |
| ImageProcessing.LastFitWins | utils/imageProcessing.ts:69-78 | if a bisection step fitted, the result is the blob of the last fitting step, within the target, after 7 encodes; for ordered q0 its quality is the highest fitting one tried |
| ImageProcessing.FallbackWhenNothingFits | utils/imageProcessing.ts:78 | if no bisection step fitted, an eighth encode at 0.05 is made and its outcome is the result, success or failure |
| ImageProcessing.ResultIsNeverTheOpeningProbe | utils/imageProcessing.ts:44-78 | a successful result is always the blob of some later call (a step or the fallback), never the opening probe |
| ImageProcessing.TargetUnreachable | utils/imageProcessing.ts:77-78 | if every quality overshoots, the search still succeeds with the 0.05 fallback after 8 encodes: unreachable targets are not errors |
| ImageProcessing.AboveInitialOvershoots | utils/imageProcessing.ts:54-75 | if q0 fits but everything above it overshoots, every step probes above q0, the bottom stays q0 and no best blob is recorded |
| ImageProcessing.InitialFitDiscarded | utils/imageProcessing.ts:44-78 | in that same situation the result is the 0.05 fallback, not the fitting initial encode |
| ImageProcessing.MonotoneEncoderFits | utils/imageProcessing.ts:35-79 | for an encoder that always succeeds and grows in size with quality, a fitting q0 ≥ 0.05 guarantees a result within the target |
| SettingsPanel.Round | components/SettingsPanel.tsx:38 | `Math.round`: within half of its argument, halves rounded up |
| SettingsPanel.HandleWidthChange | components/SettingsPanel.tsx:31-43 | unparsable input changes nothing; otherwise the width becomes the input and, with the lock on and a positive original width, the height becomes round(w · oh/ow); no other field changes |
| SettingsPanel.HandleHeightChange | components/SettingsPanel.tsx:45-57 | the mirror of the width handler |
| SettingsPanel.WidthEditKeepsAspectRatio | components/SettingsPanel.tsx:37-38 | with the lock on, the new height honours the aspect ratio: h · ow is within ow/2 of w · oh |
| SettingsPanel.HeightEditKeepsAspectRatio | components/SettingsPanel.tsx:51-52 | with the lock on, w · oh is within oh/2 of h · ow |
| SettingsPanel.OriginalWidthRestoresHeight | components/SettingsPanel.tsx:37-38 | with the lock on, typing the original width gives back the original height |
| SettingsPanel.OriginalHeightRestoresWidth | components/SettingsPanel.tsx:51-52 | with the lock on, typing the original height gives back the original width |
| SettingsPanel.ToggleAspectRatio | components/SettingsPanel.tsx:59-61 | the lock flips and nothing else changes |
| SettingsPanel.ToggleTwiceIsIdentity | components/SettingsPanel.tsx:59-61 | toggling twice restores the settings |
| SettingsPanel.HandleQuickScale | components/SettingsPanel.tsx:110-117 | a quick scale sets both dimensions to the rounded scaled originals, nothing else changes |
| SettingsPanel.QuickScaleWithinOriginal | components/SettingsPanel.tsx:110-117 | a scale in [0, 1] yields dimensions between 0 and the originals |
| SettingsPanel.QuickScaleKeepsAspectRatio | components/SettingsPanel.tsx:114-115 | the scaled dimensions keep the aspect ratio up to rounding: w · oh and h · ow differ by at most (ow + oh)/2 |
| SettingsPanel.HalfOfEven | components/SettingsPanel.tsx:110-116 | the 50% button halves even dimensions exactly |
| SettingsPanel.HandleReset | components/SettingsPanel.tsx:123-126 | Reset sets both dimensions to the originals and keeps every other field |
| SettingsPanel.ResetIsFullScale | components/SettingsPanel.tsx:123-126 | Reset coincides with a 100% quick scale: the original dimensions, nothing else changed |
| SettingsPanel.HandleFormatSelect | components/SettingsPanel.tsx:145 | a format button sets the format and nothing else |
| SettingsPanel.FormatSelectLastWins | components/SettingsPanel.tsx:142-145 | only the last format chosen matters |
| SettingsPanel.HandleQualityChange | components/SettingsPanel.tsx:169 | the slider sets the quality and nothing else |
| SettingsPanel.HandleTargetSizeInput | components/SettingsPanel.tsx:198-201 | an empty field clears the target, otherwise the target is the parsed value; nothing else changes |
| SettingsPanel.HandleClear | components/SettingsPanel.tsx:186 | Clear removes the target and nothing else |
| SettingsPanel.BlankInputIsClear | components/SettingsPanel.tsx:199 | emptying the field is the same as pressing Clear |
| SettingsPanel.ClearUndoesInput | components/SettingsPanel.tsx:184-201 | Clear undoes any typed target, turns the search off, re-enables the slider and hides itself |
| SettingsPanel.TargetInputStartsSearch | components/SettingsPanel.tsx:198-201 | a positive target under a lossy format switches processing to the size search |
| SettingsPanel.SliderDisabledIffJpegSearch | components/SettingsPanel.tsx:171 | the quality slider is disabled exactly when the search runs under JPEG; under WEBP it is never disabled |
| SettingsPanel.TargetInputEditableOnlyUnderJpeg | components/SettingsPanel.tsx:202 | after choosing a format, the target field is disabled exactly when that format is not JPEG; a disabled target field goes with an enabled slider |
| SettingsPanel.ClearShownWhileTargetSet | components/SettingsPanel.tsx:184 | Clear is shown whenever the search runs, right after typing exactly the non-zero targets (negative ones included), and never after NaN or pressing Clear |
| SettingsPanel.DisabledSliderMeansSearch | components/SettingsPanel.tsx:171 | when the quality slider is disabled, the search runs (so the slider's value is only its starting guess) and the target field is enabled |
| SettingsPanel.TargetSurvivesFormatSwitch | components/SettingsPanel.tsx:202 | after switching from JPEG with a target to WEBP, the target stays and the search still runs, though the target field is disabled and the slider enabled; PNG never searches |
| App.LastIndexOf | App.tsx:79 | `lastIndexOf`: -1 or an index holding the character, with none after it |
| App.Substring | App.tsx:79 | `substring` clamps its bounds, so (0, -1) gives the empty string and an in-range pair gives that slice |
| App.BaseName | App.tsx:79 | the name up to its last dot when that dot is past the first character, otherwise the whole name |
| App.BaseNameOfDotted | App.tsx:79 | stripping the extension from `stem.ext` gives back a non-empty stem |
| App.BaseNameWithoutExtension | App.tsx:79-84 | a name with no dot past its first character is its own base name, so its download name is the whole name followed by `_resized.` and the format's extension |
| App.Extension | App.tsx:80-82 | `jpg` for JPEG, otherwise the MIME subtype (`png`, `webp`); never empty and without a dot |
| App.ExtensionsDistinct | App.tsx:80-82 | the three formats get distinct, dot-free extensions, `jpg` exactly for JPEG |
| App.DownloadName | App.tsx:84 | the download name splits back into its parts: its own base name is `<base>_resized`, followed by a dot and the format's extension |
| App.HandleDownload | App.tsx:72-84 | nothing happens without both a result and an image; otherwise the link is the result's URL under the derived name for the current format |
| App.InitialSettings | App.tsx:34-38 | a new image gets its own width and height, with every other field from the default settings |
| App.InitialSettingsFacts | App.tsx:34-38 | a new image starts from the defaults at its own size: lock on, JPEG at 0.9, no target, so one encode and no search, and Reset changes nothing |

## Left out

- The encoder is deterministic: it is a function of canvas, format and quality, so re-encoding at a quality gives the same outcome. A browser encoder whose output varies between calls is not modelled. `LastFitWins` and `ResultIsNeverTheOpeningProbe` name the result as `encode` of a call's quality, which relies on this.
- `readFileAsDataURL`, `loadImage` and `canvas.toBlob` are browser I/O. Loading is a parameter `loadImage: string -> Option<Image>`; the encoder is a parameter too.
- `drawImage` resampling: the canvas records only the image and its target size, and the encoder alone decides the bytes.
- `getContext('2d')` is a boolean parameter.
- `URL.createObjectURL` is a parameter function. Revoking URLs does not happen in the source either.
- A failure's exception object and message are collapsed into three error values.
- `formatFileSize` relies on floating-point `Math.log` and `toFixed`, which have no exact counterpart here.
- Numbers are exact: integers are unbounded and qualities are exact reals, so IEEE-754 rounding of the midpoints and of `numVal * (oh / ow)` is not modelled.
- `parseInt` and `parseFloat` are not modelled. Handlers receive the parsed value, `None` standing for NaN.
- `undefined`, `null` and a stored NaN target are one `None`: every reader of the field treats them alike.
- The slider's `min`, `max` and `step` bounds are enforced by the browser; `HandleQualityChange` accepts any real.
- `fitToSize`'s default `initialQuality = 0.9` is not modelled: `processImage` always passes `settings.quality`.
- The width and height text buffers (`widthInput`, `heightInput`) and their synchronising effect are widget state, not settings.
- These parts of App.tsx are asynchronous orchestration and user interface, with no rule of their own:
  - the debounced reprocessing effect (500 ms);
  - the `isProcessing` and `error` state;
  - `handleFileSelect`'s `setImageState` record and its immediate `processImage` call;
  - adding and clicking the link element.
- Stale or concurrent `processImage` runs are not modelled.
- `Dropzone.tsx` has one rule: a dropped file is accepted only when its MIME type starts with `image/` (components/Dropzone.tsx:28), while the file picker relies on `accept="image/*"` (:59) with no check. It is user-interface code outside the core and is not modelled.
- `ImagePreview.tsx` computes a savings percentage, `Math.round((savings / originalSize) * 100)` (components/ImagePreview.tsx:29-31). It is display code outside the core and is not modelled.
- The `File` handle kept in `ImageState` is an opaque browser object and is left out of the record.
