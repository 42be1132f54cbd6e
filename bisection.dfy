/**
 * One bisection phase of compressImage (services/compressionService.ts), with the canvas encoder
 * replaced by a deterministic size oracle.
 *
 * A phase probes the midpoint of a bracket [lo, hi] a fixed number of times. An attempt whose blob
 * fits the byte budget becomes the recorded candidate and raises `lo` to the midpoint; any other
 * attempt lowers `hi` to the midpoint. The phase stops early only when the encoder fails.
 */
module Bisection {
  import opened Types

  const StepsPerPhase: nat := 16
  /** Both phases bracket their parameter, quality or scale, by [LowBound, HighBound]. */
  const LowBound: real := 0.01
  const HighBound: real := 1.0

  /** The decoded image: only its pixel dimensions matter to the search. */
  datatype Picture = Picture(width: nat, height: nat)

  /** The canvas encoder: the byte size of the blob produced for a canvas of the given width and
      height at the given quality, or None when the canvas or toBlob fails. */
  type Encoder = (nat, nat, real) -> Option<nat>

  /** A canvas dimension in getResizedBlob: `max(1, floor(dim * scale))`. */
  function Dimension(dim: nat, scale: real): (r: nat)
    ensures r >= 1
    ensures (dim as real) * scale >= 1.0 ==> r as real <= (dim as real) * scale < r as real + 1.0
  {
    var f := ((dim as real) * scale).Floor;
    if f < 1 then 1 else f
  }

  /** The canvas dimension is the scaled dimension rounded down, and at least one pixel. */
  lemma DimensionIsFlooredScale(dim: nat, scale: real)
    ensures Dimension(dim, scale) >= 1
    ensures (dim as real) * scale >= 1.0 ==>
      Dimension(dim, scale) as real <= (dim as real) * scale < Dimension(dim, scale) as real + 1.0
    ensures (dim as real) * scale < 1.0 ==> Dimension(dim, scale) == 1
  {
  }

  /** A non-empty image drawn at a scale in [0, 1] never grows. */
  lemma DimensionWithinOriginal(dim: nat, scale: real)
    requires dim >= 1 && 0.0 <= scale <= 1.0
    ensures 1 <= Dimension(dim, scale) <= dim
  {
    assert (dim as real) * scale <= dim as real by {
      assert (dim as real) * (1.0 - scale) >= 0.0;
    }
  }

  /** getResizedBlob: the image drawn on a canvas of the scaled dimensions and encoded. */
  function ResizedBlob(img: Picture, encode: Encoder, scale: real, quality: real): Option<nat> {
    encode(Dimension(img.width, scale), Dimension(img.height, scale), quality)
  }

  /** One call of getResizedBlob, by its parameters. */
  datatype Attempt = Attempt(scale: real, quality: real)

  /** The parameter a phase bisects: quality at full scale, or scale at a fixed base quality. */
  datatype Axis = QualityAxis | ScaleAxis(baseQuality: real)

  function AttemptAt(axis: Axis, x: real): Attempt {
    match axis
    case QualityAxis => Attempt(1.0, x)
    case ScaleAxis(q) => Attempt(x, q)
  }

  /** The value of the bisected parameter in an attempt. */
  function Coordinate(axis: Axis, a: Attempt): real {
    match axis
    case QualityAxis => a.quality
    case ScaleAxis(_) => a.scale
  }

  function SizeOf(img: Picture, encode: Encoder, a: Attempt): Option<nat> {
    ResizedBlob(img, encode, a.scale, a.quality)
  }

  /** The attempt produced a blob within the byte budget. */
  predicate Fits(img: Picture, encode: Encoder, target: real, a: Attempt) {
    var s := SizeOf(img, encode, a);
    s.Some? && s.value as real <= target
  }

  /** A recorded candidate: its blob size and the parameter value that produced it. */
  datatype Candidate = Candidate(size: nat, at: real)

  /** The state a phase keeps between attempts: the bracket and the best candidate so far. */
  datatype Interval = Interval(lo: real, hi: real, best: Option<Candidate>)

  const Start: Interval := Interval(LowBound, HighBound, None)

  /** The phase invariant: the bracket is non-empty and inside [LowBound, HighBound], and a recorded
      candidate fits the budget and sits at the lower bound. */
  ghost predicate Bracketed(b: Interval, target: real) {
    && LowBound <= b.lo < b.hi <= HighBound
    && (b.best.Some? ==> b.best.value.at == b.lo && b.best.value.size as real <= target)
  }

  /** One attempt at the midpoint: it is recorded exactly when its size fits, and then the bracket
      moves up to it; otherwise the bracket moves down to it. */
  function Advance(b: Interval, size: nat, target: real): (r: Interval)
    requires b.lo < b.hi
    ensures b.lo <= r.lo < r.hi <= b.hi
    ensures r.hi - r.lo == (b.hi - b.lo) / 2.0
    ensures size as real <= target ==> r.lo == (b.lo + b.hi) / 2.0 && r.hi == b.hi
    ensures size as real > target ==> r.hi == (b.lo + b.hi) / 2.0
    ensures size as real <= target ==> r.lo > b.lo && r.best == Some(Candidate(size, r.lo))
    ensures size as real > target ==> r.hi < b.hi && r.lo == b.lo && r.best == b.best
    ensures Bracketed(b, target) ==> Bracketed(r, target)
    ensures b.best.Some? && b.best.value.at <= b.lo && r.best != b.best ==> r.best.value.at > b.best.value.at
  {
    var mid := (b.lo + b.hi) / 2.0;
    if size as real <= target then Interval(mid, b.hi, Some(Candidate(size, mid)))
    else Interval(b.lo, mid, b.best)
  }

  /** What a phase has observably done so far: the encoder calls, and the progress values reported. */
  datatype Trace = Trace(attempts: seq<Attempt>, progress: seq<real>)

  datatype PhaseEnd = PhaseEnd(bounds: Interval, trace: Trace, failed: bool)

  /** The value updateProgress reports after `step` completed attempts of `total`:
      `min(99, step / total * 100)`. */
  function ProgressValue(step: nat, total: nat): (p: real)
    requires total > 0
    ensures 0.0 <= p <= 99.0 && p <= (step as real / total as real) * 100.0
    ensures p == 99.0 || p == (step as real / total as real) * 100.0
  {
    var p := (step as real / total as real) * 100.0;
    if p < 99.0 then p else 99.0
  }

  /** The progress values of one compression run, for 16 or 32 planned steps, strictly increase and
      stay at most 99 (the final 100 is reported separately). */
  lemma ProgressIncreases(j: nat, k: nat, total: nat)
    requires total == 16 || total == 32
    requires 1 <= j < k <= total
    ensures 0.0 < ProgressValue(j, total) < ProgressValue(k, total) <= 99.0
  {
    if total == 16 {
      assert ProgressValue(j, total) == (j as real) * 6.25;
      assert k < 16 ==> ProgressValue(k, total) == (k as real) * 6.25;
    } else {
      assert ProgressValue(j, total) == (j as real) * 3.125;
      assert k < 32 ==> ProgressValue(k, total) == (k as real) * 3.125;
    }
  }

  /** `steps` attempts of one phase, starting from bracket `b` with `t` already observed. On an
      encoder failure the phase stops: the failed call is in the trace and no progress is reported
      for it. */
  function RunPhase(axis: Axis, img: Picture, encode: Encoder, target: real, total: nat,
                    b: Interval, steps: nat, t: Trace): PhaseEnd
    requires total > 0 && b.lo < b.hi
    // `img` never changes; listing it keeps the verifier from unfolding all 16 steps of a call
    // whose step count is a literal.
    decreases steps, img
  {
    if steps == 0 then PhaseEnd(b, t, false)
    else
      var a := AttemptAt(axis, (b.lo + b.hi) / 2.0);
      match SizeOf(img, encode, a)
      case None => PhaseEnd(b, Trace(t.attempts + [a], t.progress), true)
      case Some(size) =>
        RunPhase(axis, img, encode, target, total, Advance(b, size, target), steps - 1,
                 Trace(t.attempts + [a], t.progress + [ProgressValue(|t.progress| + 1, total)]))
  }

  /** One attempt of a phase: an encoder failure ends the phase, any blob advances the bracket. */
  lemma PhaseStep(axis: Axis, img: Picture, encode: Encoder, target: real, total: nat,
                  b: Interval, steps: nat, t: Trace, mid: real, size: Option<nat>)
    requires total > 0 && b.lo < b.hi && steps > 0
    requires mid == (b.lo + b.hi) / 2.0 && size == SizeOf(img, encode, AttemptAt(axis, mid))
    ensures size.None? ==> RunPhase(axis, img, encode, target, total, b, steps, t)
                           == PhaseEnd(b, Trace(t.attempts + [AttemptAt(axis, mid)], t.progress), true)
    ensures size.Some? ==> RunPhase(axis, img, encode, target, total, b, steps, t)
                           == RunPhase(axis, img, encode, target, total, Advance(b, size.value, target), steps - 1,
                                       Trace(t.attempts + [AttemptAt(axis, mid)],
                                             t.progress + [ProgressValue(|t.progress| + 1, total)]))
  {
  }

  function Pow2(n: nat): (r: real)
    ensures r >= 1.0
  {
    if n == 0 then 1.0 else 2.0 * Pow2(n - 1)
  }

  lemma GapHalves(w: real, p: real)
    requires p >= 1.0
    ensures (w / 2.0) / p == w / (2.0 * p)
  {
  }

  /** A phase keeps its invariant, only narrows its bracket, and, when it runs to the end, leaves a
      bracket whose width is the starting width halved once per step. */
  lemma {:induction false} PhaseNarrowsBracket(axis: Axis, img: Picture, encode: Encoder, target: real,
                                               total: nat, b: Interval, steps: nat, t: Trace)
    requires total > 0 && Bracketed(b, target)
    ensures var e := RunPhase(axis, img, encode, target, total, b, steps, t);
      && Bracketed(e.bounds, target)
      && b.lo <= e.bounds.lo && e.bounds.hi <= b.hi
      && (!e.failed ==> e.bounds.hi - e.bounds.lo == (b.hi - b.lo) / Pow2(steps))
    decreases steps
  {
    if steps > 0 {
      var a := AttemptAt(axis, (b.lo + b.hi) / 2.0);
      match SizeOf(img, encode, a)
      case None =>
      case Some(size) =>
        var b' := Advance(b, size, target);
        var t' := Trace(t.attempts + [a], t.progress + [ProgressValue(|t.progress| + 1, total)]);
        PhaseNarrowsBracket(axis, img, encode, target, total, b', steps - 1, t');
        var e := RunPhase(axis, img, encode, target, total, b', steps - 1, t');
        PhaseStep(axis, img, encode, target, total, b, steps, t, (b.lo + b.hi) / 2.0, Some(size));
        if !e.failed {
          GapHalves(b.hi - b.lo, Pow2(steps - 1));
        }
    }
  }

  /** An attempt on `axis` whose parameter lies strictly inside (lo, hi). */
  predicate Inside(axis: Axis, a: Attempt, lo: real, hi: real) {
    a == AttemptAt(axis, Coordinate(axis, a)) && lo < Coordinate(axis, a) < hi
  }

  /** The progress reported so far are the values for steps 1, 2, ... in order. */
  ghost predicate Reported(p: seq<real>, total: nat)
    requires total > 0
  {
    forall k :: 0 <= k < |p| ==> p[k] == ProgressValue(k + 1, total)
  }

  /** A phase appends its encoder calls to the trace: exactly `steps` of them when it runs to the
      end, otherwise at most `steps` with the last one failed. */
  lemma {:induction false} PhaseAttempts(axis: Axis, img: Picture, encode: Encoder, target: real,
                                         total: nat, b: Interval, steps: nat, t: Trace)
    requires total > 0 && b.lo < b.hi
    ensures var e := RunPhase(axis, img, encode, target, total, b, steps, t);
      var n := |e.trace.attempts| - |t.attempts|;
      && |t.attempts| <= |e.trace.attempts|
      && e.trace.attempts[..|t.attempts|] == t.attempts
      && (!e.failed ==> n == steps)
      && (e.failed ==> 1 <= n <= steps && SizeOf(img, encode, e.trace.attempts[|e.trace.attempts| - 1]).None?)
    decreases steps
  {
    if steps > 0 {
      var a := AttemptAt(axis, (b.lo + b.hi) / 2.0);
      match SizeOf(img, encode, a)
      case None =>
      case Some(size) =>
        var b' := Advance(b, size, target);
        var t' := Trace(t.attempts + [a], t.progress + [ProgressValue(|t.progress| + 1, total)]);
        PhaseAttempts(axis, img, encode, target, total, b', steps - 1, t');
        var e := RunPhase(axis, img, encode, target, total, b', steps - 1, t');
        PhaseStep(axis, img, encode, target, total, b, steps, t, (b.lo + b.hi) / 2.0, Some(size));
        assert e.trace.attempts[..|t.attempts|] == t'.attempts[..|t.attempts|];
    }
  }

  /** Every encoder call of a phase lies on the phase's axis, strictly inside the starting bracket. */
  lemma {:induction false} PhaseAttemptsInside(axis: Axis, img: Picture, encode: Encoder, target: real,
                                               total: nat, b: Interval, steps: nat, t: Trace)
    requires total > 0 && b.lo < b.hi
    ensures var e := RunPhase(axis, img, encode, target, total, b, steps, t);
      forall k :: |t.attempts| <= k < |e.trace.attempts| ==> Inside(axis, e.trace.attempts[k], b.lo, b.hi)
    decreases steps
  {
    if steps > 0 {
      var a := AttemptAt(axis, (b.lo + b.hi) / 2.0);
      assert Inside(axis, a, b.lo, b.hi);
      match SizeOf(img, encode, a)
      case None =>
      case Some(size) =>
        var b' := Advance(b, size, target);
        var t' := Trace(t.attempts + [a], t.progress + [ProgressValue(|t.progress| + 1, total)]);
        PhaseAttemptsInside(axis, img, encode, target, total, b', steps - 1, t');
        PhaseAttempts(axis, img, encode, target, total, b', steps - 1, t');
        var e := RunPhase(axis, img, encode, target, total, b', steps - 1, t');
        PhaseStep(axis, img, encode, target, total, b, steps, t, (b.lo + b.hi) / 2.0, Some(size));
        assert e.trace.attempts[|t.attempts|] == t'.attempts[|t.attempts|] == a;
        forall k | |t.attempts| <= k < |e.trace.attempts|
          ensures Inside(axis, e.trace.attempts[k], b.lo, b.hi)
        {
          if k > |t.attempts| {
            assert Inside(axis, e.trace.attempts[k], b'.lo, b'.hi);
          }
        }
    }
  }

  /** A phase reports progress once per successful encoder call. */
  lemma {:induction false} PhaseProgress(axis: Axis, img: Picture, encode: Encoder, target: real,
                                         total: nat, b: Interval, steps: nat, t: Trace)
    requires total > 0 && b.lo < b.hi
    ensures var e := RunPhase(axis, img, encode, target, total, b, steps, t);
      && |e.trace.progress| + |t.attempts| + (if e.failed then 1 else 0) == |t.progress| + |e.trace.attempts|
      && |t.progress| <= |e.trace.progress|
    decreases steps
  {
    if steps > 0 {
      var a := AttemptAt(axis, (b.lo + b.hi) / 2.0);
      match SizeOf(img, encode, a)
      case None =>
      case Some(size) =>
        var b' := Advance(b, size, target);
        var t' := Trace(t.attempts + [a], t.progress + [ProgressValue(|t.progress| + 1, total)]);
        PhaseProgress(axis, img, encode, target, total, b', steps - 1, t');
        PhaseStep(axis, img, encode, target, total, b, steps, t, (b.lo + b.hi) / 2.0, Some(size));
    }
  }

  /** A phase keeps the progress reported before it and continues its step count. */
  lemma {:induction false} PhaseProgressContinues(axis: Axis, img: Picture, encode: Encoder, target: real,
                                                  total: nat, b: Interval, steps: nat, t: Trace)
    requires total > 0 && b.lo < b.hi
    ensures var e := RunPhase(axis, img, encode, target, total, b, steps, t);
      && |t.progress| <= |e.trace.progress|
      && e.trace.progress[..|t.progress|] == t.progress
      && (Reported(t.progress, total) ==> Reported(e.trace.progress, total))
    decreases steps
  {
    if steps > 0 {
      var a := AttemptAt(axis, (b.lo + b.hi) / 2.0);
      match SizeOf(img, encode, a)
      case None =>
      case Some(size) =>
        var b' := Advance(b, size, target);
        var t' := Trace(t.attempts + [a], t.progress + [ProgressValue(|t.progress| + 1, total)]);
        PhaseProgressContinues(axis, img, encode, target, total, b', steps - 1, t');
        var e := RunPhase(axis, img, encode, target, total, b', steps - 1, t');
        PhaseStep(axis, img, encode, target, total, b, steps, t, (b.lo + b.hi) / 2.0, Some(size));
        assert e.trace.progress[..|t.progress|] == t'.progress[..|t.progress|];
        if Reported(t.progress, total) {
          assert Reported(t'.progress, total);
        }
    }
  }

  /** Candidate `c` was produced by attempt `j`, the last attempt from index `from` on whose blob
      fit the budget. */
  ghost predicate LastFitAt(axis: Axis, img: Picture, encode: Encoder, target: real,
                            attempts: seq<Attempt>, from: nat, c: Candidate, j: int)
  {
    && from <= j < |attempts|
    && SizeOf(img, encode, attempts[j]) == Some(c.size)
    && c.size as real <= target
    && Coordinate(axis, attempts[j]) == c.at
    && forall k :: j < k < |attempts| ==> !Fits(img, encode, target, attempts[k])
  }

  /** The recorded candidate is the last fitting attempt from index `from` on, and there is none
      when no attempt fit. */
  ghost predicate RecordsLastFit(axis: Axis, img: Picture, encode: Encoder, target: real,
                                 best: Option<Candidate>, attempts: seq<Attempt>, from: nat)
  {
    && from <= |attempts|
    && match best
       case None => forall k :: from <= k < |attempts| ==> !Fits(img, encode, target, attempts[k])
       case Some(c) => exists j :: LastFitAt(axis, img, encode, target, attempts, from, c, j)
  }

  /** A phase records a candidate exactly when one of its attempts fits, and then the record is the
      last such attempt: its size and its parameter value. */
  lemma {:induction false} PhaseRecordsLastFit(axis: Axis, img: Picture, encode: Encoder, target: real,
                                               total: nat, b: Interval, steps: nat, t: Trace, from: nat)
    requires total > 0 && b.lo < b.hi
    requires RecordsLastFit(axis, img, encode, target, b.best, t.attempts, from)
    ensures var e := RunPhase(axis, img, encode, target, total, b, steps, t);
      RecordsLastFit(axis, img, encode, target, e.bounds.best, e.trace.attempts, from)
    decreases steps
  {
    if steps > 0 {
      var mid := (b.lo + b.hi) / 2.0;
      var a := AttemptAt(axis, mid);
      var attempts := t.attempts + [a];
      assert Coordinate(axis, a) == mid;
      match SizeOf(img, encode, a)
      case None =>
        RecordsLastFitExtends(axis, img, encode, target, b.best, t.attempts, from, a);
      case Some(size) =>
        var b' := Advance(b, size, target);
        if size as real <= target {
          assert LastFitAt(axis, img, encode, target, attempts, from, b'.best.value, |t.attempts|);
        } else {
          RecordsLastFitExtends(axis, img, encode, target, b.best, t.attempts, from, a);
        }
        var t' := Trace(attempts, t.progress + [ProgressValue(|t.progress| + 1, total)]);
        PhaseRecordsLastFit(axis, img, encode, target, total, b', steps - 1, t', from);
    }
  }

  /** An attempt that does not fit leaves the record what it was. */
  lemma RecordsLastFitExtends(axis: Axis, img: Picture, encode: Encoder, target: real,
                              best: Option<Candidate>, attempts: seq<Attempt>, from: nat, a: Attempt)
    requires RecordsLastFit(axis, img, encode, target, best, attempts, from)
    requires !Fits(img, encode, target, a)
    ensures RecordsLastFit(axis, img, encode, target, best, attempts + [a], from)
  {
    var attempts' := attempts + [a];
    match best
    case None =>
    case Some(c) =>
      var j :| LastFitAt(axis, img, encode, target, attempts, from, c, j);
      assert LastFitAt(axis, img, encode, target, attempts', from, c, j);
  }

  /** The encoder does not produce a smaller blob for a larger parameter on this axis. This is an
      assumption about real encoders, not something the service checks. */
  ghost predicate Monotone(axis: Axis, img: Picture, encode: Encoder) {
    forall x: real, y: real ::
      x <= y && SizeOf(img, encode, AttemptAt(axis, x)).Some? && SizeOf(img, encode, AttemptAt(axis, y)).Some?
      ==> SizeOf(img, encode, AttemptAt(axis, x)).value <= SizeOf(img, encode, AttemptAt(axis, y)).value
  }

  /** The attempt at parameter `x` produced a blob over the budget. */
  predicate OverBudget(axis: Axis, img: Picture, encode: Encoder, target: real, x: real) {
    var s := SizeOf(img, encode, AttemptAt(axis, x));
    s.Some? && s.value as real > target
  }

  /** Every upper bound a phase moves to was rejected: its attempt came out over the budget. */
  lemma {:induction false} PhaseUpperBoundRejected(axis: Axis, img: Picture, encode: Encoder, target: real,
                                                   total: nat, b: Interval, steps: nat, t: Trace, top: real)
    requires total > 0 && b.lo < b.hi
    requires b.hi == top || OverBudget(axis, img, encode, target, b.hi)
    ensures var e := RunPhase(axis, img, encode, target, total, b, steps, t);
      e.bounds.hi == top || OverBudget(axis, img, encode, target, e.bounds.hi)
    decreases steps
  {
    if steps > 0 {
      var mid := (b.lo + b.hi) / 2.0;
      var a := AttemptAt(axis, mid);
      match SizeOf(img, encode, a)
      case None =>
      case Some(size) =>
        var b' := Advance(b, size, target);
        assert b'.hi == b.hi || OverBudget(axis, img, encode, target, b'.hi);
        var t' := Trace(t.attempts + [a], t.progress + [ProgressValue(|t.progress| + 1, total)]);
        PhaseUpperBoundRejected(axis, img, encode, target, total, b', steps - 1, t', top);
    }
  }

  /** Under a monotone encoder a phase run to the end is near-optimal: every parameter value up to
      the starting upper bound whose blob fits exceeds the final lower bound (the recorded value, if
      any) by at most the starting width divided by 2^steps. */
  lemma PhaseNearOptimal(axis: Axis, img: Picture, encode: Encoder, target: real,
                         total: nat, b: Interval, steps: nat, t: Trace)
    requires total > 0 && Bracketed(b, target)
    requires Monotone(axis, img, encode)
    ensures var e := RunPhase(axis, img, encode, target, total, b, steps, t);
      && (e.bounds.best.Some? ==> e.bounds.best.value.at == e.bounds.lo)
      && (!e.failed ==>
            forall x :: x <= b.hi && Fits(img, encode, target, AttemptAt(axis, x)) ==>
              x <= e.bounds.lo + (b.hi - b.lo) / Pow2(steps))
  {
    var e := RunPhase(axis, img, encode, target, total, b, steps, t);
    PhaseNarrowsBracket(axis, img, encode, target, total, b, steps, t);
    PhaseUpperBoundRejected(axis, img, encode, target, total, b, steps, t, b.hi);
  }
}
