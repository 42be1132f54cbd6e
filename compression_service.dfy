/**
 * The target-size search of services/compressionService.ts.
 *
 * `Search` states what one call of compressImage does; `CompressImage` is the service's procedure,
 * with its two fixed-length loops, proved to compute it. The browser's image decoding is the
 * parameter `loaded` (None when loadImage rejects), and the canvas encoder is the size oracle
 * `encode`. What compressImage reports through onProgress is returned as a sequence, and the
 * encoder calls it makes are returned as a trace of attempts.
 */
module CompressionService {
  import opened Types
  import opened FileNames
  import opened Bisection

  /** The scale phase's quality for JPEG and WebP. */
  const LossyBaseQuality: real := 0.75
  /** The one encode made when no attempt of either phase fit. */
  const FallbackScale: real := 0.05
  const FallbackQuality: real := 0.1

  predicate IsLossy(format: string) {
    format == "image/jpeg" || format == "image/webp"
  }

  /** The number of attempts progress is measured against: both phases for lossy formats. */
  function TotalSteps(format: string): (n: nat)
    ensures IsLossy(format) ==> n == 32
    ensures !IsLossy(format) ==> n == 16
  {
    if IsLossy(format) then StepsPerPhase * 2 else StepsPerPhase
  }

  /** The fixed quality of the scale phase. */
  function BaseQuality(format: string): (q: real)
    ensures IsLossy(format) ==> q == 0.75
    ensures !IsLossy(format) ==> q == 1.0
  {
    if IsLossy(format) then LossyBaseQuality else 1.0
  }

  const Fallback: Attempt := Attempt(FallbackScale, FallbackQuality)

  /** `Math.round`: the nearest integer, halves rounded up. */
  function Round(x: real): (n: int)
    ensures n as real - 0.5 <= x < n as real + 0.5
  {
    (x + 0.5).Floor
  }

  /** The reduction percentage of createResult, `max(0, (orig - final) / orig * 100)`. */
  function ReductionPercentage(originalSize: nat, finalSize: nat): (r: real)
    ensures originalSize > 0 ==> 0.0 <= r <= 100.0
    ensures finalSize >= originalSize ==> r == 0.0
    ensures 0 < originalSize && finalSize <= originalSize ==>
      r * (originalSize as real) == ((originalSize - finalSize) as real) * 100.0
  {
    if originalSize == 0 then 0.0
    else
      var reduction := ((originalSize as real - finalSize as real) / originalSize as real) * 100.0;
      if reduction < 0.0 then 0.0 else reduction
  }

  /** The format label of createResult: the upper-cased text after the last '.' of the file name,
      or "IMG" when that text is empty. */
  function FormatLabel(name: string): (r: string)
    ensures r != []
    ensures LastSegment(name) == [] ==> r == "IMG"
    ensures LastSegment(name) != [] ==> r == Upper(LastSegment(name))
  {
    var extension := Upper(LastSegment(name));
    if extension == [] then "IMG" else extension
  }

  /** createResult: the metadata of the returned blob. */
  function CreateResult(file: SourceFile, finalSize: nat, quality: real): (r: CompressionResult)
    ensures r.finalSize == finalSize
    ensures file.size > 0 ==> 0.0 <= r.reductionPercentage <= 100.0
    ensures r.quality as real - 0.5 <= quality * 100.0 < r.quality as real + 0.5
    ensures r.format != []
    ensures r.reductionPercentage == ReductionPercentage(file.size, finalSize)
    ensures r.format == FormatLabel(file.name)
  {
    CompressionResult(finalSize, ReductionPercentage(file.size, finalSize), FormatLabel(file.name),
                      Round(quality * 100.0))
  }

  /** The observable effect of one compressImage call: its result or the reason it threw, the
      encoder calls it made and the progress it reported. */
  datatype Outcome = Outcome(result: Result<CompressionResult>, trace: Trace)

  /** The run ends with a blob: the final progress report is 100. */
  function Finish(file: SourceFile, size: nat, quality: real, t: Trace): Outcome {
    Outcome(Ok(CreateResult(file, size, quality)), Trace(t.attempts, t.progress + [100.0]))
  }

  /** Phase 1: quality is bisected at full scale, for lossy formats only. */
  function QualityPhase(file: SourceFile, img: Picture, target: real, encode: Encoder): PhaseEnd {
    if IsLossy(file.mimeType) then
      RunPhase(QualityAxis, img, encode, target, TotalSteps(file.mimeType), Start, StepsPerPhase, Trace([], []))
    else PhaseEnd(Start, Trace([], []), false)
  }

  /** Phase 2: scale is bisected at the base quality, continuing the trace `t` of phase 1. */
  function ScalePhase(file: SourceFile, img: Picture, target: real, encode: Encoder, t: Trace): PhaseEnd {
    RunPhase(ScaleAxis(BaseQuality(file.mimeType)), img, encode, target, TotalSteps(file.mimeType),
             Start, StepsPerPhase, t)
  }

  /** What compressImage does for `file`, whose image loadImage produced (`loaded`), and a byte
      budget `target`. When neither phase recorded a candidate, the fallback blob is returned with
      the initial quality 1.0, whatever its size. */
  function Search(file: SourceFile, loaded: Option<Picture>, target: real, encode: Encoder): (o: Outcome)
    ensures o.result == Err(DecodeFailed) <==> loaded.None?
  {
    match loaded
    case None => Outcome(Err(DecodeFailed), Trace([], []))
    case Some(img) =>
      var one := QualityPhase(file, img, target, encode);
      if one.failed then Outcome(Err(EncodeFailed), one.trace)
      else if one.bounds.best.Some? then
        Finish(file, one.bounds.best.value.size, one.bounds.best.value.at, one.trace)
      else
        var two := ScalePhase(file, img, target, encode, one.trace);
        if two.failed then Outcome(Err(EncodeFailed), two.trace)
        else if two.bounds.best.Some? then
          Finish(file, two.bounds.best.value.size, BaseQuality(file.mimeType), two.trace)
        else
          var t := Trace(two.trace.attempts + [Fallback], two.trace.progress);
          match SizeOf(img, encode, Fallback)
          case None => Outcome(Err(EncodeFailed), t)
          case Some(size) => Finish(file, size, 1.0, t)
  }

  /** The candidate the service's variables `bestBlob` and the best parameter value stand for. */
  function Record(bestBlob: Option<nat>, at: real): Option<Candidate> {
    if bestBlob.Some? then Some(Candidate(bestBlob.value, at)) else None
  }

  /** The first loop of compressImage: quality is bisected at full scale. `failed` stands for the
      exception an encoder failure raises. */
  method QualityLoop(img: Picture, encode: Encoder, target: real, totalSteps: nat,
                     currentStep0: nat, attempts0: seq<Attempt>, progress0: seq<real>)
    returns (failed: bool, bestBlob: Option<nat>, bestQuality: real, currentStep: nat,
             attempts: seq<Attempt>, progress: seq<real>)
    requires totalSteps > 0 && currentStep0 == |progress0|
    ensures var e := RunPhase(QualityAxis, img, encode, target, totalSteps, Start, StepsPerPhase,
                              Trace(attempts0, progress0));
      && e.failed == failed
      && e.trace == Trace(attempts, progress)
      && (!failed ==> e.bounds.best == Record(bestBlob, bestQuality))
    ensures currentStep == |progress|
    ensures bestBlob.None? ==> bestQuality == 1.0
    ensures bestBlob.Some? ==> bestBlob.value as real <= target
  {
    ghost var e := RunPhase(QualityAxis, img, encode, target, totalSteps, Start, StepsPerPhase,
                            Trace(attempts0, progress0));
    failed, bestBlob, bestQuality, currentStep, attempts, progress :=
      false, None, 1.0, currentStep0, attempts0, progress0;
    var lowQ, highQ := LowBound, HighBound;
    ghost var b := Start;
    for i := 0 to StepsPerPhase
      invariant currentStep == |progress|
      invariant bestBlob.None? ==> bestQuality == 1.0
      invariant b == Interval(lowQ, highQ, Record(bestBlob, bestQuality))
      invariant Bracketed(b, target)
      invariant RunPhase(QualityAxis, img, encode, target, totalSteps, b, StepsPerPhase - i,
                         Trace(attempts, progress)) == e
    {
      ghost var t := Trace(attempts, progress);
      var midQ := (lowQ + highQ) / 2.0;
      attempts := attempts + [Attempt(1.0, midQ)];
      var blob := ResizedBlob(img, encode, 1.0, midQ);
      PhaseStep(QualityAxis, img, encode, target, totalSteps, b, StepsPerPhase - i, t, midQ, blob);
      if blob.None? {
        failed := true;
        return;
      }
      b := Advance(b, blob.value, target);
      if blob.value as real <= target {
        bestBlob := blob;
        bestQuality := midQ;
        lowQ := midQ;
      } else {
        highQ := midQ;
      }
      currentStep := currentStep + 1;
      progress := progress + [ProgressValue(currentStep, totalSteps)];
    }
  }

  /** The second loop of compressImage: scale is bisected at the base quality. */
  method ScaleLoop(img: Picture, encode: Encoder, target: real, totalSteps: nat, baseQuality: real,
                   currentStep0: nat, attempts0: seq<Attempt>, progress0: seq<real>)
    returns (failed: bool, bestBlob: Option<nat>, bestScale: real, currentStep: nat,
             attempts: seq<Attempt>, progress: seq<real>)
    requires totalSteps > 0 && currentStep0 == |progress0|
    ensures var e := RunPhase(ScaleAxis(baseQuality), img, encode, target, totalSteps, Start, StepsPerPhase,
                              Trace(attempts0, progress0));
      && e.failed == failed
      && e.trace == Trace(attempts, progress)
      && (!failed ==> e.bounds.best == Record(bestBlob, bestScale))
    ensures currentStep == |progress|
  {
    ghost var e := RunPhase(ScaleAxis(baseQuality), img, encode, target, totalSteps, Start, StepsPerPhase,
                            Trace(attempts0, progress0));
    failed, bestBlob, bestScale, currentStep, attempts, progress :=
      false, None, 1.0, currentStep0, attempts0, progress0;
    var lowS, highS := LowBound, HighBound;
    ghost var b := Start;
    for i := 0 to StepsPerPhase
      invariant currentStep == |progress|
      invariant b == Interval(lowS, highS, Record(bestBlob, bestScale))
      invariant Bracketed(b, target)
      invariant RunPhase(ScaleAxis(baseQuality), img, encode, target, totalSteps, b, StepsPerPhase - i,
                         Trace(attempts, progress)) == e
    {
      ghost var t := Trace(attempts, progress);
      var midS := (lowS + highS) / 2.0;
      attempts := attempts + [Attempt(midS, baseQuality)];
      var blob := ResizedBlob(img, encode, midS, baseQuality);
      PhaseStep(ScaleAxis(baseQuality), img, encode, target, totalSteps, b, StepsPerPhase - i, t, midS, blob);
      if blob.None? {
        failed := true;
        return;
      }
      b := Advance(b, blob.value, target);
      if blob.value as real <= target {
        bestBlob := blob;
        bestScale := midS;
        lowS := midS;
      } else {
        highS := midS;
      }
      currentStep := currentStep + 1;
      progress := progress + [ProgressValue(currentStep, totalSteps)];
    }
  }

  /** compressImage, step by step as the service runs it. */
  method CompressImage(file: SourceFile, loaded: Option<Picture>, target: real, encode: Encoder)
    returns (result: Result<CompressionResult>, progress: seq<real>, attempts: seq<Attempt>)
    ensures Outcome(result, Trace(attempts, progress)) == Search(file, loaded, target, encode)
  {
    progress, attempts := [], [];
    if loaded.None? {
      result := Err(DecodeFailed);
      return;
    }
    var img := loaded.value;
    var format := file.mimeType;
    var isLossy := format == "image/jpeg" || format == "image/webp";

    var bestBlob: Option<nat> := None;
    var bestQuality := 1.0;
    var failed := false;

    var totalSteps := if isLossy then StepsPerPhase * 2 else StepsPerPhase;
    var currentStep := 0;

    if isLossy {
      failed, bestBlob, bestQuality, currentStep, attempts, progress :=
        QualityLoop(img, encode, target, totalSteps, currentStep, attempts, progress);
      if failed {
        result := Err(EncodeFailed);
        return;
      }
    }
    ghost var one := QualityPhase(file, img, target, encode);
    assert !one.failed && one.trace == Trace(attempts, progress) && one.bounds.best == Record(bestBlob, bestQuality);

    if bestBlob.None? || bestBlob.value as real > target {
      var baseQuality := if isLossy then LossyBaseQuality else 1.0;
      var bestScale;
      failed, bestBlob, bestScale, currentStep, attempts, progress :=
        ScaleLoop(img, encode, target, totalSteps, baseQuality, currentStep, attempts, progress);
      if failed {
        result := Err(EncodeFailed);
        return;
      }
      if bestBlob.Some? {
        bestQuality := baseQuality;
      }
    }

    if bestBlob.None? {
      attempts := attempts + [Attempt(FallbackScale, FallbackQuality)];
      bestBlob := ResizedBlob(img, encode, FallbackScale, FallbackQuality);
      if bestBlob.None? {
        result := Err(EncodeFailed);
        return;
      }
    }

    progress := progress + [100.0];
    result := Ok(CreateResult(file, bestBlob.value, bestQuality));
  }

  /** The units formatBytes names, by index. */
  datatype ByteUnit = Bytes | Kilobytes | Megabytes | Gigabytes

  function Pow1024(i: nat): (r: nat)
    ensures r >= 1
  {
    if i == 0 then 1 else 1024 * Pow1024(i - 1)
  }

  /** `floor(log(bytes) / log(1024))`: the largest i with 1024^i <= bytes. */
  function UnitIndex(bytes: nat): (i: nat)
    requires bytes >= 1
    ensures Pow1024(i) <= bytes < Pow1024(i + 1)
    decreases bytes
  {
    if bytes < 1024 then 0 else 1 + UnitIndex(bytes / 1024)
  }

  /** `sizes[i]`, undefined past the end of the table. */
  function UnitAt(i: nat): Option<ByteUnit> {
    if i == 0 then Some(Bytes)
    else if i == 1 then Some(Kilobytes)
    else if i == 2 then Some(Megabytes)
    else if i == 3 then Some(Gigabytes)
    else None
  }

  /** What formatBytes renders: "0 B", or a mantissa shown to `decimals` places and a unit, which is
      missing when the byte count overruns the unit table. */
  datatype ByteCount = ZeroBytes | Scaled(mantissa: real, decimals: nat, unit: Option<ByteUnit>)

  lemma {:induction false} Pow1024Grows(i: nat, j: nat)
    requires i <= j
    ensures Pow1024(i) <= Pow1024(j)
    decreases j
  {
    if i < j {
      Pow1024Grows(i, j - 1);
    }
  }

  /** The unit table covers exactly the counts below 1024^4. */
  lemma UnitInTable(bytes: nat)
    requires bytes >= 1
    ensures UnitAt(UnitIndex(bytes)).Some? <==> bytes < Pow1024(4)
  {
    var i := UnitIndex(bytes);
    if i < 4 {
      Pow1024Grows(i + 1, 4);
    } else {
      Pow1024Grows(4, i);
    }
  }

  /** Dividing a count by the power of 1024 just below it leaves a mantissa in [1, 1024). */
  lemma MantissaInRange(bytes: nat, p: nat)
    requires 0 < p <= bytes < 1024 * p
    ensures 1.0 <= bytes as real / p as real < 1024.0
    ensures (bytes as real / p as real) * p as real == bytes as real
  {
    var b, q := bytes as real, p as real;
    var m := b / q;
    assert m * q == b;
    assert (m - 1.0) * q == b - q;
    assert (1024.0 - m) * q == 1024.0 * q - b;
    PositiveFactor(m - 1.0, q);
    PositiveFactor(1024.0 - m, q);
  }

  lemma PositiveFactor(x: real, q: real)
    requires q > 0.0
    ensures x * q >= 0.0 ==> x >= 0.0
    ensures x * q > 0.0 ==> x > 0.0
  {
    if x < 0.0 {
      assert x * q < 0.0;
    }
  }

  /** formatBytes: base-1024 unit choice, with a negative number of decimals taken as 0. */
  function FormatBytes(bytes: nat, decimals: int := 1): (r: ByteCount)
    ensures bytes == 0 <==> r == ZeroBytes
    ensures r.Scaled? ==> r.decimals == (if decimals < 0 then 0 else decimals)
    ensures r.Scaled? ==> 1.0 <= r.mantissa < 1024.0
    ensures r.Scaled? ==> r.mantissa * (Pow1024(UnitIndex(bytes)) as real) == bytes as real
    ensures r.Scaled? ==> r.unit == UnitAt(UnitIndex(bytes))
    ensures r.Scaled? ==> (r.unit.Some? <==> bytes < Pow1024(4))
  {
    if bytes == 0 then ZeroBytes
    else
      var i := UnitIndex(bytes);
      MantissaInRange(bytes, Pow1024(i));
      UnitInTable(bytes);
      Scaled(bytes as real / Pow1024(i) as real, if decimals < 0 then 0 else decimals, UnitAt(i))
  }
}
