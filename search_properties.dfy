/**
 * What one compressImage call promises, stated about `Search` (and so, through its postcondition,
 * about `CompressImage`): the order and the parameters of its encoder calls, the progress it
 * reports, and how the returned blob relates to those calls and to the byte budget.
 */
module SearchProperties {
  import opened Types
  import opened Bisection
  import opened CompressionService

  /** The number of encoder calls phase 1 makes when no call fails: 16 for JPEG and WebP, none
      otherwise. */
  function QualityCalls(format: string): nat {
    if IsLossy(format) then StepsPerPhase else 0
  }

  /** What the phase lemmas establish about a phase `e` run from the full bracket after trace `t`. */
  ghost predicate PhaseFacts(axis: Axis, img: Picture, encode: Encoder, target: real, total: nat,
                             t: Trace, e: PhaseEnd)
    requires total > 0
  {
    var n, m := |t.attempts|, |e.trace.attempts|;
    && n <= m && e.trace.attempts[..n] == t.attempts
    && (!e.failed ==> m == n + StepsPerPhase)
    && (e.failed ==> n < m <= n + StepsPerPhase && SizeOf(img, encode, e.trace.attempts[m - 1]).None?)
    && (forall k :: n <= k < m ==> Inside(axis, e.trace.attempts[k], LowBound, HighBound))
    && RecordsLastFit(axis, img, encode, target, e.bounds.best, e.trace.attempts, n)
    && Bracketed(e.bounds, target)
    && |t.progress| <= |e.trace.progress|
    && |e.trace.progress| - |t.progress| == m - n - (if e.failed then 1 else 0)
    && (Reported(t.progress, total) ==> Reported(e.trace.progress, total))
  }

  lemma PhaseFactsHold(axis: Axis, img: Picture, encode: Encoder, target: real, total: nat, t: Trace)
    requires total > 0
    ensures PhaseFacts(axis, img, encode, target, total, t,
                       RunPhase(axis, img, encode, target, total, Start, StepsPerPhase, t))
  {
    PhaseAttempts(axis, img, encode, target, total, Start, StepsPerPhase, t);
    PhaseAttemptsInside(axis, img, encode, target, total, Start, StepsPerPhase, t);
    PhaseRecordsLastFit(axis, img, encode, target, total, Start, StepsPerPhase, t, |t.attempts|);
    PhaseNarrowsBracket(axis, img, encode, target, total, Start, StepsPerPhase, t);
    PhaseProgress(axis, img, encode, target, total, Start, StepsPerPhase, t);
    PhaseProgressContinues(axis, img, encode, target, total, Start, StepsPerPhase, t);
  }

  /** Phase 1 as Search runs it; without a lossy format it makes no call and records nothing. */
  lemma QualityPhaseFacts(file: SourceFile, img: Picture, target: real, encode: Encoder)
    ensures var one := QualityPhase(file, img, target, encode);
      && (IsLossy(file.mimeType) ==>
            PhaseFacts(QualityAxis, img, encode, target, TotalSteps(file.mimeType), Trace([], []), one))
      && (!IsLossy(file.mimeType) ==> one == PhaseEnd(Start, Trace([], []), false))
  {
    if IsLossy(file.mimeType) {
      PhaseFactsHold(QualityAxis, img, encode, target, TotalSteps(file.mimeType), Trace([], []));
    }
  }

  /** Loading fails exactly when the image could not be decoded; every other error is an encoder
      failure, and then the last encoder call is the one that failed. */
  lemma SearchErrors(file: SourceFile, loaded: Option<Picture>, target: real, encode: Encoder)
    ensures var o := Search(file, loaded, target, encode);
      && (o.result == Err(DecodeFailed) <==> loaded.None?)
      && (loaded.None? ==> o.trace == Trace([], []))
      && (loaded.Some? && o.result.Err? ==>
            o.result.error == EncodeFailed && |o.trace.attempts| > 0
            && SizeOf(loaded.value, encode, o.trace.attempts[|o.trace.attempts| - 1]).None?)
  {
    if loaded.Some? {
      var img := loaded.value;
      var one := QualityPhase(file, img, target, encode);
      QualityPhaseFacts(file, img, target, encode);
      if !one.failed && one.bounds.best.None? {
        PhaseFactsHold(ScaleAxis(BaseQuality(file.mimeType)), img, encode, target, TotalSteps(file.mimeType), one.trace);
      }
    }
  }

  /** The encoder calls of a run, in order: at most 16 quality probes at full scale (JPEG and WebP
      only), then at most 16 scale probes at the base quality, then at most the one fallback call;
      every probe lies strictly inside [0.01, 1]. */
  lemma SearchAttempts(file: SourceFile, img: Picture, target: real, encode: Encoder)
    ensures var o := Search(file, Some(img), target, encode);
      var a, n1 := o.trace.attempts, QualityCalls(file.mimeType);
      && |a| <= n1 + StepsPerPhase + 1
      && (forall k :: 0 <= k < |a| && k < n1 ==> Inside(QualityAxis, a[k], LowBound, HighBound))
      && (forall k :: n1 <= k < |a| && k < n1 + StepsPerPhase ==>
            Inside(ScaleAxis(BaseQuality(file.mimeType)), a[k], LowBound, HighBound))
      && (|a| == n1 + StepsPerPhase + 1 ==> a[|a| - 1] == Fallback)
      && (o.result.Ok? ==> |a| == n1 || |a| == n1 + StepsPerPhase || |a| == n1 + StepsPerPhase + 1)
  {
    var one := QualityPhase(file, img, target, encode);
    QualityPhaseFacts(file, img, target, encode);
    if !one.failed && one.bounds.best.None? {
      var two := ScalePhase(file, img, target, encode, one.trace);
      PhaseFactsHold(ScaleAxis(BaseQuality(file.mimeType)), img, encode, target, TotalSteps(file.mimeType), one.trace);
      var a := two.trace.attempts;
      assert forall k :: 0 <= k < |one.trace.attempts| ==> a[k] == one.trace.attempts[k];
      if !two.failed && two.bounds.best.None? {
        var a' := a + [Fallback];
        assert forall k :: 0 <= k < |a| ==> a'[k] == a[k];
      }
    }
  }

  /** Phase 2 runs exactly when no phase-1 probe fit the budget, and the fallback call is made
      exactly when no probe of either phase fit. */
  lemma SearchPhases(file: SourceFile, img: Picture, target: real, encode: Encoder)
    ensures var o := Search(file, Some(img), target, encode);
      var a, n1 := o.trace.attempts, QualityCalls(file.mimeType);
      o.result.Ok? ==>
        && n1 <= |a|
        && (|a| > n1 <==> forall k :: 0 <= k < n1 ==> !Fits(img, encode, target, a[k]))
        && (|a| == n1 + StepsPerPhase + 1 <==>
              forall k :: 0 <= k < |a| && k < n1 + StepsPerPhase ==> !Fits(img, encode, target, a[k]))
  {
    var one := QualityPhase(file, img, target, encode);
    QualityPhaseFacts(file, img, target, encode);
    var o := Search(file, Some(img), target, encode);
    if !one.failed && one.bounds.best.None? {
      var two := ScalePhase(file, img, target, encode, one.trace);
      PhaseFactsHold(ScaleAxis(BaseQuality(file.mimeType)), img, encode, target, TotalSteps(file.mimeType), one.trace);
      var a := two.trace.attempts;
      assert forall k :: 0 <= k < |one.trace.attempts| ==> a[k] == one.trace.attempts[k];
      if o.result.Ok? && two.bounds.best.Some? {
        var c := two.bounds.best.value;
        var j :| LastFitAt(ScaleAxis(BaseQuality(file.mimeType)), img, encode, target, a, |one.trace.attempts|, c, j);
        assert Fits(img, encode, target, a[j]);
      }
      if o.result.Ok? && two.bounds.best.None? {
        var a' := a + [Fallback];
        assert forall k :: 0 <= k < |a| ==> a'[k] == a[k];
      }
    } else if !one.failed {
      var c := one.bounds.best.value;
      var j :| LastFitAt(QualityAxis, img, encode, target, one.trace.attempts, 0, c, j);
      assert Fits(img, encode, target, one.trace.attempts[j]);
    }
  }

  /** The blob a successful run returns. When phase 1 fit, it is the last fitting quality probe,
      reported with that quality; when phase 2 fit, the last fitting scale probe, reported with the
      base quality; otherwise the fallback blob, reported with quality 100 whatever its size. So a
      returned blob is over the budget only when it is the fallback one. */
  lemma SearchResult(file: SourceFile, img: Picture, target: real, encode: Encoder)
    ensures var o := Search(file, Some(img), target, encode);
      var a, n1 := o.trace.attempts, QualityCalls(file.mimeType);
      o.result.Ok? ==>
        var r := o.result.value;
        && r.format == FormatLabel(file.name)
        && r.reductionPercentage == ReductionPercentage(file.size, r.finalSize)
        && (|a| == n1 ==> n1 > 0 && exists j :: 0 <= j < |a| && LastFitAt(QualityAxis, img, encode, target, a, 0,
                                                          Candidate(r.finalSize, a[j].quality), j)
                                                && r.quality == Round(a[j].quality * 100.0))
        && (|a| == n1 + StepsPerPhase ==>
              exists j :: 0 <= j < |a| && LastFitAt(ScaleAxis(BaseQuality(file.mimeType)), img, encode, target, a, n1,
                                    Candidate(r.finalSize, a[j].scale), j)
                          && r.quality == (if IsLossy(file.mimeType) then 75 else 100))
        && (|a| == n1 + StepsPerPhase + 1 ==>
              a[|a| - 1] == Fallback && SizeOf(img, encode, Fallback) == Some(r.finalSize) && r.quality == 100)
        && (r.finalSize as real > target ==> |a| == n1 + StepsPerPhase + 1)
  {
    var one := QualityPhase(file, img, target, encode);
    QualityPhaseFacts(file, img, target, encode);
    SearchAttempts(file, img, target, encode);
    var o := Search(file, Some(img), target, encode);
    if o.result.Ok? {
      if !one.failed && one.bounds.best.None? {
        var two := ScalePhase(file, img, target, encode, one.trace);
        PhaseFactsHold(ScaleAxis(BaseQuality(file.mimeType)), img, encode, target, TotalSteps(file.mimeType), one.trace);
        if two.bounds.best.Some? {
          var c := two.bounds.best.value;
          var j :| LastFitAt(ScaleAxis(BaseQuality(file.mimeType)), img, encode, target, two.trace.attempts,
                             |one.trace.attempts|, c, j);
          assert c == Candidate(c.size, two.trace.attempts[j].scale);
        }
      } else {
        var c := one.bounds.best.value;
        var j :| LastFitAt(QualityAxis, img, encode, target, one.trace.attempts, 0, c, j);
        assert c == Candidate(c.size, one.trace.attempts[j].quality);
      }
    }
  }

  /** Progress values reported for consecutive steps strictly increase and stay within (0, 99]. */
  lemma ReportedIncreases(p: seq<real>, total: nat)
    requires total == 16 || total == 32
    requires Reported(p, total) && |p| <= total
    ensures forall j, k :: 0 <= j < k < |p| ==> p[j] < p[k]
    ensures forall k :: 0 <= k < |p| ==> 0.0 < p[k] <= 99.0
  {
    forall j, k | 0 <= j < k < |p|
      ensures p[j] < p[k]
    {
      ProgressIncreases(j + 1, k + 1, total);
    }
    forall k | 0 <= k < |p|
      ensures 0.0 < p[k] <= 99.0
    {
      if k + 1 < total {
        ProgressIncreases(k + 1, total, total);
      } else {
        ProgressIncreases(1, k + 1, total);
      }
    }
  }

  /** The progress a run reports: the value for each completed probe in turn (at most the planned
      number of steps), then 100 exactly when a blob is returned. */
  lemma SearchProgressSteps(file: SourceFile, loaded: Option<Picture>, target: real, encode: Encoder)
    ensures var o := Search(file, loaded, target, encode);
      var p, total := o.trace.progress, TotalSteps(file.mimeType);
      && (o.result.Ok? ==> |p| >= 1 && p[|p| - 1] == 100.0 && |p| <= total + 1 && Reported(p[..|p| - 1], total))
      && (o.result.Err? ==> |p| <= total && Reported(p, total))
  {
    var o := Search(file, loaded, target, encode);
    var p, total := o.trace.progress, TotalSteps(file.mimeType);
    if loaded.Some? {
      var img := loaded.value;
      var one := QualityPhase(file, img, target, encode);
      QualityPhaseFacts(file, img, target, encode);
      assert Reported(one.trace.progress, total) && |one.trace.progress| <= QualityCalls(file.mimeType);
      var q := one.trace.progress;
      if !one.failed && one.bounds.best.None? {
        var two := ScalePhase(file, img, target, encode, one.trace);
        PhaseFactsHold(ScaleAxis(BaseQuality(file.mimeType)), img, encode, target, total, one.trace);
        q := two.trace.progress;
      }
      assert Reported(q, total) && |q| <= total;
      if o.result.Ok? {
        assert p == q + [100.0];
        assert p[..|p| - 1] == q;
      } else {
        assert p == q;
      }
    }
  }

  /** Reported steps, optionally followed by 100, strictly increase within (0, 100]. */
  lemma FinishedIncreases(p: seq<real>, total: nat, finished: bool)
    requires total == 16 || total == 32
    requires finished ==> |p| >= 1 && p[|p| - 1] == 100.0 && |p| <= total + 1 && Reported(p[..|p| - 1], total)
    requires !finished ==> |p| <= total && Reported(p, total)
    ensures forall j, k :: 0 <= j < k < |p| ==> p[j] < p[k]
    ensures forall k :: 0 <= k < |p| ==> 0.0 < p[k] <= 100.0
  {
    var q := if finished then p[..|p| - 1] else p;
    ReportedIncreases(q, total);
    assert forall k :: 0 <= k < |q| ==> p[k] == q[k];
  }

  /** The values of a run's progress strictly increase and stay within (0, 100]. */
  lemma SearchProgress(file: SourceFile, loaded: Option<Picture>, target: real, encode: Encoder)
    ensures var p := Search(file, loaded, target, encode).trace.progress;
      && (forall j, k :: 0 <= j < k < |p| ==> p[j] < p[k])
      && (forall k :: 0 <= k < |p| ==> 0.0 < p[k] <= 100.0)
  {
    var o := Search(file, loaded, target, encode);
    SearchProgressSteps(file, loaded, target, encode);
    FinishedIncreases(o.trace.progress, TotalSteps(file.mimeType), o.result.Ok?);
  }

  /** Under an encoder whose blobs grow with quality, phase 1 misses the best quality by at most
      0.99 / 2^16: no quality above the recorded one by more than that fits the budget (and none above
      0.01 by more than that when nothing was recorded). */
  lemma QualityPhaseNearOptimal(file: SourceFile, img: Picture, target: real, encode: Encoder)
    requires IsLossy(file.mimeType) && Monotone(QualityAxis, img, encode)
    ensures var one := QualityPhase(file, img, target, encode);
      !one.failed ==>
        && (one.bounds.best.Some? ==> one.bounds.best.value.at == one.bounds.lo)
        && forall x :: x <= HighBound && Fits(img, encode, target, AttemptAt(QualityAxis, x)) ==>
             x <= one.bounds.lo + (HighBound - LowBound) / Pow2(StepsPerPhase)
  {
    PhaseNearOptimal(QualityAxis, img, encode, target, TotalSteps(file.mimeType), Start, StepsPerPhase, Trace([], []));
  }

  /** The same for phase 2 and scale, under an encoder whose blobs grow with the canvas. */
  lemma ScalePhaseNearOptimal(file: SourceFile, img: Picture, target: real, encode: Encoder, t: Trace)
    requires Monotone(ScaleAxis(BaseQuality(file.mimeType)), img, encode)
    ensures var two := ScalePhase(file, img, target, encode, t);
      !two.failed ==>
        && (two.bounds.best.Some? ==> two.bounds.best.value.at == two.bounds.lo)
        && forall x :: x <= HighBound && Fits(img, encode, target, AttemptAt(ScaleAxis(BaseQuality(file.mimeType)), x)) ==>
             x <= two.bounds.lo + (HighBound - LowBound) / Pow2(StepsPerPhase)
  {
    PhaseNearOptimal(ScaleAxis(BaseQuality(file.mimeType)), img, encode, target, TotalSteps(file.mimeType),
                     Start, StepsPerPhase, t);
  }

  /** formatBytes(1536) is "1.5 KB". */
  lemma FormatBytesExample()
    ensures FormatBytes(1536) == Scaled(1.5, 1, Some(Kilobytes))
  {
    assert UnitIndex(1536) == 1 + UnitIndex(1);
  }
}
