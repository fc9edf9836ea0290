/**
 * The resize-and-encode pipeline and its target-size quality search
 * (utils/imageProcessing.ts).
 *
 * The browser encoder `canvasToBlob` is a parameter: a total function from
 * canvas, format and quality to a blob or to failure, so the same quality
 * always gives the same outcome. Beyond that nothing is assumed about it (in
 * particular not that size grows with quality) unless a lemma says so.
 * Every method also returns `calls`, the qualities at which it invoked the
 * encoder, in order.
 */
module ImageProcessing {
  import opened Types

  datatype Error = ImageLoadFailed | NoCanvasContext | CanvasToBlobFailed

  datatype Result<T> = Ok(value: T) | Err(error: Error)

  /** A decoded source image; its pixels are opaque. */
  datatype Image = Image(src: string, width: int, height: int)

  /** The offscreen canvas after `drawImage` scaled the image to width x height. */
  datatype Canvas = Canvas(image: Image, width: int, height: int)

  /** `canvasToBlob(canvas, format, quality)`; `None` is the rejected promise. */
  type CanvasToBlob = (Canvas, ImageFormat, real) -> Option<Blob>

  /** The encoder with canvas and format fixed: quality to blob or failure. */
  type Encoder = real -> Option<Blob>

  function EncoderFor(canvasToBlob: CanvasToBlob, canvas: Canvas, format: ImageFormat): (encode: Encoder)
    ensures forall q :: encode(q) == canvasToBlob(canvas, format, q)
  {
    q => canvasToBlob(canvas, format, q)
  }

  const KB: int := 1024
  /** Number of bisection steps. */
  const Rounds: nat := 6
  /** Lower end of the bracket when the initial quality overshoots. */
  const FloorQuality: real := 0.01
  /** Quality of the last-resort encode when no bisection step fits. */
  const FallbackQuality: real := 0.05

  predicate Fits(encode: Encoder, targetBytes: int, q: real) {
    encode(q).Some? && encode(q).value.Size() <= targetBytes
  }

  predicate Overshoots(encode: Encoder, targetBytes: int, q: real) {
    encode(q).Some? && encode(q).value.Size() > targetBytes
  }

  // ---------------------------------------------------------------------------
  // The search, stated as functions: one opening probe, six steps, the finish.
  // ---------------------------------------------------------------------------

  /** The search variables `minQ`, `maxQ`, `bestBlob` and the calls made so far. */
  datatype Search = Search(minQ: real, maxQ: real, best: Option<Blob>, calls: seq<real>)

  /** A search in progress, or one whose last encoder call failed. */
  datatype Stage = Running(search: Search) | Aborted(calls: seq<real>)

  /** The blob (or the error) and every quality the encoder was called with. */
  datatype Outcome = Outcome(result: Result<Blob>, calls: seq<real>)

  /** The probe at the initial quality and the bracket it sets up. */
  function Open(encode: Encoder, targetBytes: int, q0: real): (r: Stage)
    ensures r.Aborted? <==> encode(q0).None?
    ensures r.Aborted? ==> r.calls == [q0]
    ensures r.Running? ==> r.search.calls == [q0] && r.search.best.None?
    ensures r.Running? && Fits(encode, targetBytes, q0) ==>
      r.search.minQ == q0 && r.search.maxQ == 1.0
    ensures r.Running? && Overshoots(encode, targetBytes, q0) ==>
      r.search.minQ == FloorQuality && r.search.maxQ == q0
    ensures r.Running? && FloorQuality <= q0 <= 1.0 ==> r.search.minQ <= r.search.maxQ
  {
    match encode(q0)
    case None => Aborted([q0])
    case Some(blob) =>
      if blob.Size() <= targetBytes then Running(Search(q0, 1.0, None, [q0]))
      else Running(Search(FloorQuality, q0, None, [q0]))
  }

  function Midpoint(s: Search): real {
    (s.minQ + s.maxQ) / 2.0
  }

  /** One bisection step: encode at the midpoint and keep the half that decides. */
  function Step(encode: Encoder, targetBytes: int, s: Search): (r: Stage)
    ensures r.Aborted? <==> encode(Midpoint(s)).None?
    ensures r.Aborted? ==> r.calls == s.calls + [Midpoint(s)]
    ensures r.Running? ==> r.search.calls == s.calls + [Midpoint(s)]
    ensures r.Running? && Overshoots(encode, targetBytes, Midpoint(s)) ==>
      r.search.minQ == s.minQ && r.search.maxQ == Midpoint(s) && r.search.best == s.best
    ensures r.Running? && Fits(encode, targetBytes, Midpoint(s)) ==>
      r.search.minQ == Midpoint(s) && r.search.maxQ == s.maxQ && r.search.best == encode(Midpoint(s))
    ensures r.Running? ==> r.search.maxQ - r.search.minQ == (s.maxQ - s.minQ) / 2.0
    ensures r.Running? && s.minQ <= s.maxQ ==>
      s.minQ <= r.search.minQ <= r.search.maxQ <= s.maxQ
  {
    var mid := Midpoint(s);
    match encode(mid)
    case None => Aborted(s.calls + [mid])
    case Some(blob) =>
      if blob.Size() > targetBytes then Running(Search(s.minQ, mid, s.best, s.calls + [mid]))
      else Running(Search(mid, s.maxQ, Some(blob), s.calls + [mid]))
  }

  /** The stage after n steps; an aborted stage stays aborted. */
  function Iterate(encode: Encoder, targetBytes: int, st: Stage, n: nat): Stage
    decreases n
  {
    if n == 0 then st
    else match Iterate(encode, targetBytes, st, n - 1)
      case Aborted(calls) => Aborted(calls)
      case Running(s) => Step(encode, targetBytes, s)
  }

  /** `return bestBlob || await canvasToBlob(canvas, format, 0.05)`. */
  function Finish(encode: Encoder, st: Stage): (o: Outcome)
    ensures st.Aborted? ==> o == Outcome(Err(CanvasToBlobFailed), st.calls)
    ensures st.Running? && st.search.best.Some? ==> o == Outcome(Ok(st.search.best.value), st.search.calls)
    ensures st.Running? && st.search.best.None? ==>
      && o.calls == st.search.calls + [FallbackQuality]
      && (o.result.Ok? <==> encode(FallbackQuality).Some?)
      && (o.result.Ok? ==> encode(FallbackQuality) == Some(o.result.value))
      && (o.result.Err? ==> o.result.error == CanvasToBlobFailed)
  {
    match st
    case Aborted(calls) => Outcome(Err(CanvasToBlobFailed), calls)
    case Running(s) =>
      if s.best.Some? then Outcome(Ok(s.best.value), s.calls)
      else match encode(FallbackQuality)
        case None => Outcome(Err(CanvasToBlobFailed), s.calls + [FallbackQuality])
        case Some(blob) => Outcome(Ok(blob), s.calls + [FallbackQuality])
  }

  /** The stage once all six steps have run. */
  function SearchAfter(encode: Encoder, targetKB: int, q0: real): Stage {
    var targetBytes := targetKB * KB;
    Iterate(encode, targetBytes, Open(encode, targetBytes, q0), Rounds)
  }

  /** What `fitToSize` computes. */
  function FitToSizeSpec(encode: Encoder, targetKB: int, q0: real): Outcome {
    Finish(encode, SearchAfter(encode, targetKB, q0))
  }

  // ---------------------------------------------------------------------------
  // The code.
  // ---------------------------------------------------------------------------

  /** `fitToSize`: bisection over quality for the largest encode within the target. */
  method FitToSize(encode: Encoder, targetKB: int, initialQuality: real)
    returns (blob: Result<Blob>, calls: seq<real>)
    ensures Outcome(blob, calls) == FitToSizeSpec(encode, targetKB, initialQuality)
  {
    var targetBytes := targetKB * KB;
    var minQ, maxQ := 0.0, 1.0;
    var bestBlob: Option<Blob> := None;
    var currentQ := initialQuality;
    ghost var opening := Open(encode, targetBytes, initialQuality);

    var probe := encode(currentQ);
    calls := [currentQ];
    if probe.None? {
      AbortedStays(encode, targetBytes, opening, 0, Rounds);
      return Err(CanvasToBlobFailed), calls;
    }
    if probe.value.Size() <= targetBytes {
      minQ := currentQ;
      maxQ := 1.0;
    } else {
      maxQ := currentQ;
      minQ := FloorQuality;
    }

    var i := 0;
    assert Iterate(encode, targetBytes, opening, 0) == Running(Search(minQ, maxQ, bestBlob, calls));
    while i < Rounds
      invariant 0 <= i <= Rounds
      invariant Iterate(encode, targetBytes, opening, i) == Running(Search(minQ, maxQ, bestBlob, calls))
    {
      ghost var before := Search(minQ, maxQ, bestBlob, calls);
      IterateNext(encode, targetBytes, opening, i);
      currentQ := (minQ + maxQ) / 2.0;
      assert currentQ == Midpoint(before);
      probe := encode(currentQ);
      calls := calls + [currentQ];
      if probe.None? {
        assert Iterate(encode, targetBytes, opening, i + 1) == Aborted(calls);
        AbortedStays(encode, targetBytes, opening, i + 1, Rounds);
        return Err(CanvasToBlobFailed), calls;
      }
      if probe.value.Size() > targetBytes {
        maxQ := currentQ;
      } else {
        minQ := currentQ;
        bestBlob := probe;
      }
      assert Step(encode, targetBytes, before) == Running(Search(minQ, maxQ, bestBlob, calls));
      i := i + 1;
    }

    if bestBlob.Some? {
      blob := Ok(bestBlob.value);
    } else {
      probe := encode(FallbackQuality);
      calls := calls + [FallbackQuality];
      blob := if probe.Some? then Ok(probe.value) else Err(CanvasToBlobFailed);
    }
  }

  /** One more round is one more step of the running stage. */
  lemma IterateNext(encode: Encoder, targetBytes: int, st: Stage, i: nat)
    requires Iterate(encode, targetBytes, st, i).Running?
    ensures Iterate(encode, targetBytes, st, i + 1)
         == Step(encode, targetBytes, Iterate(encode, targetBytes, st, i).search)
  {
  }

  /** Formats whose quality parameter is lossy. */
  predicate CanCompress(format: ImageFormat) {
    format == Jpeg || format == Webp
  }

  /** `processImage` searches exactly when this holds; otherwise it encodes once. */
  predicate SearchesForSize(settings: ResizeSettings) {
    CanCompress(settings.format) && settings.targetFileSizeKB.Some? && settings.targetFileSizeKB.value > 0
  }

  /** Exactly JPEG and WEBP with a positive target are searched; PNG never is. */
  lemma SearchesOnlyLossyWithTarget(settings: ResizeSettings)
    ensures CanCompress(settings.format) <==> settings.format != Png
    ensures SearchesForSize(settings) <==>
      settings.format != Png && settings.targetFileSizeKB.Some? && settings.targetFileSizeKB.value > 0
  {
  }

  /** A single encode at the given quality. */
  function SingleEncode(encode: Encoder, q: real): (o: Outcome)
    ensures o.calls == [q]
    ensures o.result.Ok? <==> encode(q).Some?
    ensures o.result.Ok? ==> encode(q) == Some(o.result.value)
  {
    match encode(q)
    case None => Outcome(Err(CanvasToBlobFailed), [q])
    case Some(blob) => Outcome(Ok(blob), [q])
  }

  /**
   * `processImage`: load the image, draw it at the requested size, encode once
   * or search, and wrap the blob. `loadImage` and `createObjectUrl` stand for
   * the browser's image loading and `URL.createObjectURL`; `contextAvailable`
   * for whether `getContext('2d')` returned a context.
   */
  method ProcessImage(
    originalSrc: string,
    loadImage: string -> Option<Image>,
    contextAvailable: bool,
    settings: ResizeSettings,
    canvasToBlob: CanvasToBlob,
    createObjectUrl: Blob -> string)
    returns (result: Result<ProcessingResult>, calls: seq<real>)
    ensures loadImage(originalSrc).None? ==> result == Err(ImageLoadFailed) && calls == []
    ensures loadImage(originalSrc).Some? && !contextAvailable ==>
      result == Err(NoCanvasContext) && calls == []
    ensures loadImage(originalSrc).Some? && contextAvailable ==>
      var canvas := Canvas(loadImage(originalSrc).value, settings.width, settings.height);
      var encode := EncoderFor(canvasToBlob, canvas, settings.format);
      var o := if SearchesForSize(settings)
        then FitToSizeSpec(encode, settings.targetFileSizeKB.value, settings.quality)
        else SingleEncode(encode, settings.quality);
      && calls == o.calls
      && (result.Ok? <==> o.result.Ok?)
      && (result.Ok? ==> result.value.blob == o.result.value)
      && (result.Err? ==> result.error == o.result.error)
    ensures !SearchesForSize(settings) ==> |calls| <= 1 && forall q | q in calls :: q == settings.quality
    ensures result.Ok? ==>
      && result.value.width == settings.width
      && result.value.height == settings.height
      && result.value.size == result.value.blob.Size()
      && result.value.url == createObjectUrl(result.value.blob)
  {
    var img := loadImage(originalSrc);
    if img.None? {
      return Err(ImageLoadFailed), [];
    }
    if !contextAvailable {
      return Err(NoCanvasContext), [];
    }
    var canvas := Canvas(img.value, settings.width, settings.height);
    var encode := EncoderFor(canvasToBlob, canvas, settings.format);

    var encoded: Result<Blob>;
    if SearchesForSize(settings) {
      encoded, calls := FitToSize(encode, settings.targetFileSizeKB.value, settings.quality);
    } else {
      var o := SingleEncode(encode, settings.quality);
      encoded, calls := o.result, o.calls;
    }
    if encoded.Err? {
      return Err(encoded.error), calls;
    }
    var blob := encoded.value;
    var url := createObjectUrl(blob);
    result := Ok(ProcessingResult(blob, url, settings.width, settings.height, blob.Size()));
  }

  // ---------------------------------------------------------------------------
  // Properties of the search.
  // ---------------------------------------------------------------------------

  lemma {:induction false} AbortedStays(encode: Encoder, targetBytes: int, st: Stage, i: nat, n: nat)
    requires i <= n
    requires Iterate(encode, targetBytes, st, i).Aborted?
    ensures Iterate(encode, targetBytes, st, n) == Iterate(encode, targetBytes, st, i)
    decreases n
  {
    if n > i {
      AbortedStays(encode, targetBytes, st, i, n - 1);
    }
  }

  /** The bracket is ordered from the start when the initial quality lies in [0.01, 1]. */
  ghost predicate Ordered(q0: real) {
    FloorQuality <= q0 <= 1.0
  }

  /** calls[k] is a bisection call that fits and no later call fits. */
  ghost predicate IsLastFit(encode: Encoder, targetBytes: int, calls: seq<real>, k: int) {
    && 1 <= k < |calls|
    && Fits(encode, targetBytes, calls[k])
    && forall j | k < j < |calls| :: !Fits(encode, targetBytes, calls[j])
  }

  /** What holds of the search variables between steps. */
  ghost predicate SearchInv(encode: Encoder, targetBytes: int, q0: real, s: Search) {
    && 1 <= |s.calls| && s.calls[0] == q0 && encode(q0).Some?
    && (forall j | 1 <= j < |s.calls| :: encode(s.calls[j]).Some?)
    && (s.best.None? ==> forall j | 1 <= j < |s.calls| :: !Fits(encode, targetBytes, s.calls[j]))
    && (s.best.Some? ==>
          exists k :: IsLastFit(encode, targetBytes, s.calls, k) && s.calls[k] == s.minQ && encode(s.minQ) == s.best)
    && (Ordered(q0) ==>
          && s.minQ <= s.maxQ
          && (forall j | 1 <= j < |s.calls| && Fits(encode, targetBytes, s.calls[j]) :: s.calls[j] <= s.minQ)
          && (forall j | 1 <= j < |s.calls| && !Fits(encode, targetBytes, s.calls[j]) :: s.maxQ <= s.calls[j]))
  }

  lemma StepPreserves(encode: Encoder, targetBytes: int, q0: real, s: Search)
    requires SearchInv(encode, targetBytes, q0, s)
    ensures Step(encode, targetBytes, s).Running? ==>
      SearchInv(encode, targetBytes, q0, Step(encode, targetBytes, s).search)
  {
    var r := Step(encode, targetBytes, s);
    if r.Running? {
      var next := r.search;
      var mid := Midpoint(s);
      var n := |s.calls|;
      assert next.calls == s.calls + [mid];
      assert forall j | 0 <= j < n :: next.calls[j] == s.calls[j];
      assert next.calls[n] == mid;
      if Fits(encode, targetBytes, mid) {
        assert IsLastFit(encode, targetBytes, next.calls, n);
      } else if s.best.Some? {
        var k :| IsLastFit(encode, targetBytes, s.calls, k) && s.calls[k] == s.minQ && encode(s.minQ) == s.best;
        assert IsLastFit(encode, targetBytes, next.calls, k);
      }
    }
  }

  function Pow2(n: nat): real {
    if n == 0 then 1.0 else 2.0 * Pow2(n - 1)
  }

  /** After n steps a running search keeps its invariant and has made n + 1 calls. */
  lemma {:induction false} IterateInvariant(encode: Encoder, targetBytes: int, q0: real, n: nat)
    ensures var st := Iterate(encode, targetBytes, Open(encode, targetBytes, q0), n);
      st.Running? ==> SearchInv(encode, targetBytes, q0, st.search) && |st.search.calls| == n + 1
  {
    if n > 0 {
      IterateInvariant(encode, targetBytes, q0, n - 1);
      var prev := Iterate(encode, targetBytes, Open(encode, targetBytes, q0), n - 1);
      if prev.Running? {
        StepPreserves(encode, targetBytes, q0, prev.search);
      }
    }
  }

  /** An aborted search stopped at a failing call, after at most n + 1 calls. */
  lemma {:induction false} IterateAborted(encode: Encoder, targetBytes: int, q0: real, n: nat)
    ensures var st := Iterate(encode, targetBytes, Open(encode, targetBytes, q0), n);
      st.Aborted? ==>
        && 1 <= |st.calls| <= n + 1
        && st.calls[0] == q0
        && encode(st.calls[|st.calls| - 1]).None?
  {
    if n > 0 {
      IterateAborted(encode, targetBytes, q0, n - 1);
      IterateInvariant(encode, targetBytes, q0, n - 1);
    }
  }

  lemma HalvedWidth(w: real, n: nat)
    requires n > 0
    ensures (w / 2.0) * Pow2(n) == w * Pow2(n - 1)
  {
  }

  /**
   * After n steps of a running search the bracket is the opening one halved n
   * times and, for an initial quality in [0.01, 1], lies inside it.
   */
  lemma {:induction false} IterateBracket(encode: Encoder, targetBytes: int, q0: real, n: nat)
    ensures var opening := Open(encode, targetBytes, q0);
      var st := Iterate(encode, targetBytes, opening, n);
      st.Running? ==>
        && opening.Running?
        && (st.search.maxQ - st.search.minQ) * Pow2(n) == opening.search.maxQ - opening.search.minQ
        && (Ordered(q0) ==>
              opening.search.minQ <= st.search.minQ <= st.search.maxQ <= opening.search.maxQ)
  {
    if n > 0 {
      IterateBracket(encode, targetBytes, q0, n - 1);
      var prev := Iterate(encode, targetBytes, Open(encode, targetBytes, q0), n - 1);
      if prev.Running? {
        HalvedWidth(prev.search.maxQ - prev.search.minQ, n);
      }
    }
  }

  /** The search ran its opening probe and all six steps without an encoder failure. */
  ghost predicate LoopCompleted(encode: Encoder, calls: seq<real>) {
    |calls| > Rounds && forall j | 0 <= j <= Rounds :: encode(calls[j]).Some?
  }

  /** Some bisection call (not the opening probe, not the fallback) fits. */
  ghost predicate HasLoopFit(encode: Encoder, targetBytes: int, calls: seq<real>) {
    exists j :: 1 <= j <= Rounds && j < |calls| && Fits(encode, targetBytes, calls[j])
  }

  /**
   * The call trace: it starts at the initial quality and has at most eight
   * entries; the search fails exactly when one of its calls failed, and such
   * a failure ends it; a failure before the loop completes is always an error.
   */
  lemma FitToSizeCalls(encode: Encoder, targetKB: int, q0: real)
    ensures var o := FitToSizeSpec(encode, targetKB, q0);
      && 1 <= |o.calls| <= Rounds + 2
      && o.calls[0] == q0
      && (o.result.Ok? ==> forall j | 0 <= j < |o.calls| :: encode(o.calls[j]).Some?)
      && (o.result.Err? ==> encode(o.calls[|o.calls| - 1]).None?)
      && (!LoopCompleted(encode, o.calls) ==> o.result.Err?)
  {
    var targetBytes := targetKB * KB;
    IterateInvariant(encode, targetBytes, q0, Rounds);
    IterateAborted(encode, targetBytes, q0, Rounds);
  }

  /**
   * If some bisection call fits (and no call failed), the result is the blob of
   * the last fitting bisection call; it is within the target, seven calls were
   * made, and, for an initial quality in [0.01, 1], no fitting bisection call
   * had a higher quality. The encoder need not be monotone.
   */
  lemma LastFitWins(encode: Encoder, targetKB: int, q0: real)
    ensures var o := FitToSizeSpec(encode, targetKB, q0);
      var targetBytes := targetKB * KB;
      LoopCompleted(encode, o.calls) && HasLoopFit(encode, targetBytes, o.calls) ==>
        && o.result.Ok?
        && |o.calls| == Rounds + 1
        && o.result.value.Size() <= targetBytes
        && exists k ::
             && IsLastFit(encode, targetBytes, o.calls, k)
             && encode(o.calls[k]) == Some(o.result.value)
             && (Ordered(q0) ==>
                   forall j | 1 <= j < |o.calls| && Fits(encode, targetBytes, o.calls[j]) :: o.calls[j] <= o.calls[k])
  {
    var targetBytes := targetKB * KB;
    var o := FitToSizeSpec(encode, targetKB, q0);
    IterateInvariant(encode, targetBytes, q0, Rounds);
    IterateAborted(encode, targetBytes, q0, Rounds);
    var st := SearchAfter(encode, targetKB, q0);
    if LoopCompleted(encode, o.calls) && HasLoopFit(encode, targetBytes, o.calls) {
      var j :| 1 <= j <= Rounds && j < |o.calls| && Fits(encode, targetBytes, o.calls[j]);
      assert st.Running?;
      var s := st.search;
      if s.best.None? {
        assert false;
      }
      var k :| IsLastFit(encode, targetBytes, s.calls, k) && s.calls[k] == s.minQ && encode(s.minQ) == s.best;
      assert o.calls == s.calls;
    }
  }

  /**
   * If no bisection call fits (and none failed), the result is a fresh encode at
   * quality 0.05, whatever its size: an eighth call, and no error for an
   * unreachable target.
   */
  lemma FallbackWhenNothingFits(encode: Encoder, targetKB: int, q0: real)
    ensures var o := FitToSizeSpec(encode, targetKB, q0);
      var targetBytes := targetKB * KB;
      LoopCompleted(encode, o.calls) && !HasLoopFit(encode, targetBytes, o.calls) ==>
        && |o.calls| == Rounds + 2
        && o.calls[Rounds + 1] == FallbackQuality
        && (o.result.Ok? <==> encode(FallbackQuality).Some?)
        && (o.result.Ok? ==> encode(FallbackQuality) == Some(o.result.value))
  {
    var targetBytes := targetKB * KB;
    var o := FitToSizeSpec(encode, targetKB, q0);
    IterateInvariant(encode, targetBytes, q0, Rounds);
    IterateAborted(encode, targetBytes, q0, Rounds);
    var st := SearchAfter(encode, targetKB, q0);
    if LoopCompleted(encode, o.calls) && !HasLoopFit(encode, targetBytes, o.calls) {
      assert st.Running?;
      var s := st.search;
      if s.best.Some? {
        assert false;
      }
    }
  }

  /**
   * The opening probe's blob is never what the search returns: a successful
   * result always comes from a bisection call or from the fallback call.
   */
  lemma ResultIsNeverTheOpeningProbe(encode: Encoder, targetKB: int, q0: real)
    ensures var o := FitToSizeSpec(encode, targetKB, q0);
      o.result.Ok? ==> exists j :: 1 <= j < |o.calls| && encode(o.calls[j]) == Some(o.result.value)
  {
    var targetBytes := targetKB * KB;
    var o := FitToSizeSpec(encode, targetKB, q0);
    IterateInvariant(encode, targetBytes, q0, Rounds);
    var st := SearchAfter(encode, targetKB, q0);
    if o.result.Ok? {
      var s := st.search;
      if s.best.Some? {
        var k :| IsLastFit(encode, targetBytes, s.calls, k) && s.calls[k] == s.minQ && encode(s.minQ) == s.best;
        assert o.calls[k] == s.calls[k];
      } else {
        assert o.calls[Rounds + 1] == FallbackQuality;
      }
    }
  }

  /** A target no quality meets: eight calls and the 0.05 encode, not an error. */
  lemma TargetUnreachable(encode: Encoder, targetKB: int, q0: real)
    requires forall q :: Overshoots(encode, targetKB * KB, q)
    ensures var o := FitToSizeSpec(encode, targetKB, q0);
      && |o.calls| == Rounds + 2
      && o.calls[Rounds + 1] == FallbackQuality
      && o.result.Ok?
      && encode(FallbackQuality) == Some(o.result.value)
  {
    var targetBytes := targetKB * KB;
    var o := FitToSizeSpec(encode, targetKB, q0);
    FitToSizeCalls(encode, targetKB, q0);
    FallbackWhenNothingFits(encode, targetKB, q0);
    assert forall j | 0 <= j < |o.calls| :: Overshoots(encode, targetBytes, o.calls[j]);
    assert LoopCompleted(encode, o.calls);
  }

  /** The invariant of a search whose opening probe fit and nothing above it does. */
  lemma {:induction false} AboveInitialOvershoots(encode: Encoder, targetBytes: int, q0: real, n: nat)
    requires q0 < 1.0 && Fits(encode, targetBytes, q0)
    requires forall q | q0 < q <= 1.0 :: Overshoots(encode, targetBytes, q)
    ensures var st := Iterate(encode, targetBytes, Open(encode, targetBytes, q0), n);
      && st.Running?
      && st.search.minQ == q0 < st.search.maxQ <= 1.0
      && st.search.best.None?
      && |st.search.calls| == n + 1
      && st.search.calls[0] == q0
      && forall j | 1 <= j < |st.search.calls| :: q0 < st.search.calls[j] <= 1.0
  {
    if n > 0 {
      AboveInitialOvershoots(encode, targetBytes, q0, n - 1);
      var s := Iterate(encode, targetBytes, Open(encode, targetBytes, q0), n - 1).search;
      assert Overshoots(encode, targetBytes, Midpoint(s));
    }
  }

  /**
   * The opening probe is discarded even when it fits: if it fits and every
   * higher quality overshoots, the search returns the encode at 0.05, after
   * eight calls, instead of the fitting initial blob.
   */
  lemma InitialFitDiscarded(encode: Encoder, targetKB: int, q0: real)
    requires q0 < 1.0 && Fits(encode, targetKB * KB, q0)
    requires forall q | q0 < q <= 1.0 :: Overshoots(encode, targetKB * KB, q)
    ensures var o := FitToSizeSpec(encode, targetKB, q0);
      && |o.calls| == Rounds + 2
      && (forall j | 1 <= j <= Rounds :: q0 < o.calls[j] <= 1.0)
      && o.calls[Rounds + 1] == FallbackQuality
      && (o.result.Ok? <==> encode(FallbackQuality).Some?)
      && (o.result.Ok? ==> encode(FallbackQuality) == Some(o.result.value))
  {
    var targetBytes := targetKB * KB;
    AboveInitialOvershoots(encode, targetBytes, q0, Rounds);
  }

  /**
   * Under the assumption that the encoder never fails and its size never
   * decreases with quality, an initial quality of at least 0.05 that fits
   * makes the result fit too (the fallback then fits because 0.05 <= q0).
   */
  lemma MonotoneEncoderFits(encode: Encoder, targetKB: int, q0: real)
    requires forall q :: encode(q).Some?
    requires forall a, b | a <= b :: encode(a).value.Size() <= encode(b).value.Size()
    requires FallbackQuality <= q0 && Fits(encode, targetKB * KB, q0)
    ensures var o := FitToSizeSpec(encode, targetKB, q0);
      o.result.Ok? && o.result.value.Size() <= targetKB * KB
  {
    var targetBytes := targetKB * KB;
    var o := FitToSizeSpec(encode, targetKB, q0);
    FitToSizeCalls(encode, targetKB, q0);
    LastFitWins(encode, targetKB, q0);
    FallbackWhenNothingFits(encode, targetKB, q0);
    assert o.result.Ok?;
    assert LoopCompleted(encode, o.calls);
    if !HasLoopFit(encode, targetBytes, o.calls) {
      assert encode(FallbackQuality).value.Size() <= encode(q0).value.Size();
    }
  }

  /**
   * After the six steps the bracket is 1/64 of the opening one and, for an
   * initial quality in [0.01, 1], lies inside it.
   */
  lemma BracketNarrowing(encode: Encoder, targetKB: int, q0: real)
    ensures var targetBytes := targetKB * KB;
      var opening := Open(encode, targetBytes, q0);
      var st := SearchAfter(encode, targetKB, q0);
      st.Running? ==>
        && opening.Running?
        && (st.search.maxQ - st.search.minQ) * 64.0 == opening.search.maxQ - opening.search.minQ
        && (Ordered(q0) ==>
              opening.search.minQ <= st.search.minQ <= st.search.maxQ <= opening.search.maxQ)
  {
    var targetBytes := targetKB * KB;
    IterateBracket(encode, targetBytes, q0, Rounds);
    assert Pow2(Rounds) == 64.0;
  }
}
