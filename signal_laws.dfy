/**
 * What the operators of package dsp promise: how a sequence picks its
 * segment, that it repeats, that a ramp stays between its ends, that a mix
 * is a mean and amplification a product, and a bound on the amplitude of
 * any composition.
 */
module SignalLaws {
  import opened Signals
  import Arith

  // ---------------------------------------------------------------------------
  // Sequence

  /**
   * A sequence plays, at `x`, the segment whose half-open interval holds the
   * reduced time `x % total`, and evaluates that segment's own signal at the
   * reduced time, not at a time relative to the segment's start.
   */
  lemma SequenceLookup(segs: seq<FiniteSignal>, x: int, sin: real -> real, k: nat)
    requires Valid(Sequence(segs)) && x >= 0 && k < |segs|
    requires Prefix(segs, k) <= x % Total(segs) < Prefix(segs, k) + segs[k].duration
    ensures At(Sequence(segs), x, sin) == At(segs[k].signal, x % Total(segs), sin)
  {
    var t := x % Total(segs);
    SegmentUnique(segs, t, Select(segs, t), k);
  }

  /** Some segment always holds the reduced time: the lookup never falls through. */
  lemma SequenceCovers(segs: seq<FiniteSignal>, x: int)
    requires NonNegative(segs) && Total(segs) > 0 && x >= 0
    ensures exists k: nat ::
      && k < |segs| && segs[k].duration > 0
      && Prefix(segs, k) <= x % Total(segs) < Prefix(segs, k) + segs[k].duration
  {
    var k := Select(segs, x % Total(segs));
    assert k < |segs| && segs[k].duration > 0;
  }

  /**
   * A reduced time exactly at the start of a non-empty segment plays that
   * segment, not the one before it.
   */
  lemma SequenceBoundary(segs: seq<FiniteSignal>, x: int, sin: real -> real, k: nat)
    requires Valid(Sequence(segs)) && x >= 0 && k < |segs|
    requires segs[k].duration > 0 && x % Total(segs) == Prefix(segs, k)
    ensures At(Sequence(segs), x, sin) == At(segs[k].signal, Prefix(segs, k), sin)
  {
    SequenceLookup(segs, x, sin, k);
  }

  /** A segment of zero duration is never played. */
  lemma SequenceSkipsEmpty(segs: seq<FiniteSignal>, t: int, k: nat)
    requires NonNegative(segs) && 0 <= t < Total(segs) && k < |segs|
    requires segs[k].duration == 0
    ensures Select(segs, t) != k
  {
  }

  /** A sequence repeats with the sum of its durations as period. */
  lemma SequencePeriodic(segs: seq<FiniteSignal>, x: int, sin: real -> real)
    requires Valid(Sequence(segs)) && x >= 0
    ensures At(Sequence(segs), x + Total(segs), sin) == At(Sequence(segs), x, sin)
  {
    Arith.ModAddPeriod(x, Total(segs));
  }

  /** A sequence of one segment of length `d` repeats that segment's first `d` nanoseconds. */
  lemma SequenceSingle(d: int, s: Signal, x: int, sin: real -> real)
    requires d > 0 && Valid(s) && x >= 0
    ensures Valid(Sequence([F(d, s)]))
    ensures At(Sequence([F(d, s)]), x, sin) == At(s, x % d, sin)
  {
    var segs := [F(d, s)];
    assert segs[..0] == [];
    PrefixStep(segs, 0);
    PrefixAll(segs);
    SequenceLookup(segs, x, sin, 0);
  }

  /** Two segments of length `d`, holding 1 and then -1: the values at 0, d and 2d. */
  lemma SequenceAlternates(d: int, sin: real -> real)
    requires d > 0
    ensures var s := Sequence([F(d, Constant(1.0)), F(d, Constant(-1.0))]);
      Valid(s) && At(s, 0, sin) == 1.0 && At(s, d, sin) == -1.0 && At(s, 2 * d, sin) == 1.0
  {
    var segs := [F(d, Constant(1.0)), F(d, Constant(-1.0))];
    assert segs[..0] == [];
    PrefixStep(segs, 0);
    PrefixStep(segs, 1);
    PrefixAll(segs);
    SequenceLookup(segs, 0, sin, 0);
    Arith.DivModUnique(d, 2 * d, 0, d);
    SequenceLookup(segs, d, sin, 1);
    SequencePeriodic(segs, 0, sin);
  }

  // ---------------------------------------------------------------------------
  // Lerp

  /** A ramp is a finite signal of length `over` that starts at `origin`. */
  lemma LerpStart(origin: real, target: real, over: int, sin: real -> real)
    requires over > 0
    ensures var f := Lerp(origin, target, over);
      f.duration == over && Valid(f.signal) && At(f.signal, 0, sin) == origin
  {
  }

  /** Within its first period a ramp is the linear interpolation from `origin` to `target`. */
  lemma LerpLinear(origin: real, target: real, over: int, x: int, sin: real -> real)
    requires over > 0 && 0 <= x < over
    ensures At(Lerp(origin, target, over).signal, x, sin) ==
      origin + (target - origin) * (x as real / over as real)
  {
    Arith.DivModUnique(x, over, 0, x);
    Arith.MulDivAssoc(target - origin, x as real, over as real);
  }

  /** A ramp repeats every `over`. */
  lemma LerpPeriodic(origin: real, target: real, over: int, x: int, sin: real -> real)
    requires over > 0 && x >= 0
    ensures At(Lerp(origin, target, over).signal, x + over, sin) ==
      At(Lerp(origin, target, over).signal, x, sin)
  {
    Arith.ModAddPeriod(x, over);
  }

  function Min(a: real, b: real): real { if a <= b then a else b }

  function Max(a: real, b: real): real { if a <= b then b else a }

  /** A ramp never leaves the interval between its two ends. */
  lemma LerpBetween(origin: real, target: real, over: int, x: int, sin: real -> real)
    requires over > 0 && x >= 0
    ensures var y := At(Lerp(origin, target, over).signal, x, sin);
      Min(origin, target) <= y <= Max(origin, target)
  {
    var m := x % over;
    var f := m as real / over as real;
    Arith.Fraction(m, over);
    Arith.MulDivAssoc(target - origin, m as real, over as real);
    assert At(Lerp(origin, target, over).signal, x, sin) == origin + (target - origin) * f;
    BetweenEnds(origin, target, f);
  }

  /** A point a fraction `f` of the way from `origin` to `target` lies between them. */
  lemma BetweenEnds(origin: real, target: real, f: real)
    requires 0.0 <= f < 1.0
    ensures Min(origin, target) <= origin + (target - origin) * f <= Max(origin, target)
  {
    var d := target - origin;
    Arith.ScaleFraction(d, f);
    var y := origin + d * f;
    if origin <= target {
      assert Min(origin, target) == origin && Max(origin, target) == target;
      assert origin <= y <= target;
    } else {
      assert Min(origin, target) == target && Max(origin, target) == origin;
      assert target <= y <= origin;
    }
    assert y == origin + (target - origin) * f;
  }

  // ---------------------------------------------------------------------------
  // Amplify

  lemma AmplifyUnit(s: Signal, x: int, sin: real -> real)
    requires Valid(s) && x >= 0
    ensures At(Amplify(s, Constant(1.0)), x, sin) == At(s, x, sin)
  {
  }

  lemma AmplifyZero(s: Signal, x: int, sin: real -> real)
    requires Valid(s) && x >= 0
    ensures At(Amplify(s, Constant(0.0)), x, sin) == 0.0
  {
  }

  lemma AmplifyCommutes(a: Signal, b: Signal, x: int, sin: real -> real)
    requires Valid(a) && Valid(b) && x >= 0
    ensures At(Amplify(a, b), x, sin) == At(Amplify(b, a), x, sin)
  {
  }

  // ---------------------------------------------------------------------------
  // Combine

  /** A mix of one signal is that signal. */
  lemma CombineSingle(s: Signal, x: int, sin: real -> real)
    requires Valid(s) && x >= 0
    ensures At(Combine([s]), x, sin) == At(s, x, sin)
  {
    var ys := Levels(Combine([s]), x, sin);
    assert ys == [At(s, x, sin)];
    assert ys[..0] == [];
    assert Sum(ys) == At(s, x, sin);
    assert At(Combine([s]), x, sin) == Sum(ys) / 1.0;
  }

  function Constants(cs: seq<real>): (ss: seq<Signal>)
    ensures |ss| == |cs|
  {
    seq(|cs|, i requires 0 <= i < |cs| => Constant(cs[i]))
  }

  /** A mix of constants is their arithmetic mean. */
  lemma CombineConstants(cs: seq<real>, x: int, sin: real -> real)
    requires |cs| > 0 && x >= 0
    ensures Valid(Combine(Constants(cs))) && At(Combine(Constants(cs)), x, sin) == Mean(cs)
  {
    assert Levels(Combine(Constants(cs)), x, sin) == cs;
  }

  lemma {:induction false} SumBounds(ys: seq<real>, lo: real, hi: real)
    requires forall i | 0 <= i < |ys| :: lo <= ys[i] <= hi
    ensures |ys| as real * lo <= Sum(ys) <= |ys| as real * hi
  {
    if |ys| > 0 {
      SumBounds(ys[..|ys| - 1], lo, hi);
    }
  }

  /** A mix stays within any bounds all of its inputs keep: it does not add voices up. */
  lemma CombineBounded(signals: seq<Signal>, x: int, sin: real -> real, lo: real, hi: real)
    requires Valid(Combine(signals)) && x >= 0
    requires forall i | 0 <= i < |signals| :: lo <= At(signals[i], x, sin) <= hi
    ensures lo <= At(Combine(signals), x, sin) <= hi
  {
    var ys := Levels(Combine(signals), x, sin);
    SumBounds(ys, lo, hi);
    Arith.DivBounds(Sum(ys), |ys| as real, lo, hi);
  }

  // ---------------------------------------------------------------------------
  // Sine

  /** An oscillator at a fixed frequency `hz`. */
  lemma SineConstant(hz: real, x: int, sin: real -> real)
    requires x >= 0
    ensures At(Sine(Constant(hz)), x, sin) == sin(2.0 * Pi * hz * x as real / Second as real)
  {
    assert Phase(x, hz) == 2.0 * Pi * hz * x as real / Second as real;
  }

  /** Every oscillator starts at phase zero. */
  lemma SineStart(freq: Signal, sin: real -> real)
    requires Valid(freq)
    ensures At(Sine(freq), 0, sin) == sin(0.0)
  {
    var hz := At(freq, 0, sin);
    assert Seconds(0) == 0.0;
    assert Phase(0, hz) == 0.0 * 2.0 * Pi * hz == 0.0;
  }

  /** An oscillator depends on its frequency signal only through its value at the same time. */
  lemma SineSameTime(f: Signal, g: Signal, x: int, sin: real -> real)
    requires Valid(f) && Valid(g) && x >= 0 && At(f, x, sin) == At(g, x, sin)
    ensures At(Sine(f), x, sin) == At(Sine(g), x, sin)
  {
  }

  // ---------------------------------------------------------------------------
  // Amplitude bound

  function Abs(r: real): real { if r < 0.0 then -r else r }

  function Times(a: real, b: real): real { a * b }

  /**
   * An upper bound on the magnitude of a signal, read off its structure:
   * oscillators stay within 1, a mix within the largest of its inputs' bounds,
   * a product within the product of the bounds.
   */
  function Peak(s: Signal): real
    decreases s, 1
  {
    match s
    case Constant(v) => Abs(v)
    case Sine(_) => 1.0
    case Combine(signals) => PeakOfMix(s, |signals|)
    case Amplify(carrier, envelope) => Times(Peak(carrier), Peak(envelope))
    case Sequence(segments) => PeakOfSegments(s, |segments|)
    case Ramp(origin, target, _) => Max(Abs(origin), Abs(target))
  }

  /** The largest bound among the first `n` inputs of a mix. */
  function PeakOfMix(s: Signal, n: nat): real
    requires s.Combine? && n <= |s.signals|
    decreases s, 0, n
  {
    if n == 0 then 0.0 else Max(PeakOfMix(s, n - 1), Peak(s.signals[n - 1]))
  }

  /** The largest bound among the first `n` segments of a sequence. */
  function PeakOfSegments(s: Signal, n: nat): real
    requires s.Sequence? && n <= |s.segments|
    decreases s, 0, n
  {
    if n == 0 then 0.0 else Max(PeakOfSegments(s, n - 1), Peak(s.segments[n - 1].signal))
  }

  lemma {:induction false} PeakOfMixCovers(s: Signal, n: nat, i: nat)
    requires s.Combine? && i < n <= |s.signals|
    ensures Peak(s.signals[i]) <= PeakOfMix(s, n)
  {
    if i < n - 1 {
      PeakOfMixCovers(s, n - 1, i);
    }
  }

  lemma {:induction false} PeakOfSegmentsCovers(s: Signal, n: nat, i: nat)
    requires s.Sequence? && i < n <= |s.segments|
    ensures Peak(s.segments[i].signal) <= PeakOfSegments(s, n)
  {
    if i < n - 1 {
      PeakOfSegmentsCovers(s, n - 1, i);
    }
  }

  /** An oscillator stays within its peak of 1 when the sine does. */
  lemma PeakOfSine(freq: Signal, x: int, sin: real -> real)
    requires Valid(freq) && x >= 0
    requires forall r: real :: -1.0 <= sin(r) <= 1.0
    ensures Abs(At(Sine(freq), x, sin)) <= Peak(Sine(freq))
  {
    var y := sin(Phase(x, At(freq, x, sin)));
    assert -1.0 <= y <= 1.0;
  }

  /** A mix stays within the largest of its inputs' peaks. */
  lemma PeakOfCombine(s: Signal, x: int, sin: real -> real)
    requires s.Combine? && Valid(s) && x >= 0
    requires forall i | 0 <= i < |s.signals| :: Abs(At(s.signals[i], x, sin)) <= Peak(s.signals[i])
    ensures Abs(At(s, x, sin)) <= Peak(s)
  {
    var p := PeakOfMix(s, |s.signals|);
    forall i | 0 <= i < |s.signals|
      ensures -p <= At(s.signals[i], x, sin) <= p
    {
      PeakOfMixCovers(s, |s.signals|, i);
    }
    CombineBounded(s.signals, x, sin, -p, p);
  }

  /** A product stays within the product of its factors' peaks. */
  lemma PeakOfAmplify(carrier: Signal, envelope: Signal, x: int, sin: real -> real)
    requires Valid(carrier) && Valid(envelope) && x >= 0
    requires Abs(At(carrier, x, sin)) <= Peak(carrier)
    requires Abs(At(envelope, x, sin)) <= Peak(envelope)
    ensures Abs(At(Amplify(carrier, envelope), x, sin)) <= Peak(Amplify(carrier, envelope))
  {
    AmplifyUnfolds(carrier, envelope, x, sin);
    PeakUnfolds(carrier, envelope);
    AbsTimes(At(carrier, x, sin), At(envelope, x, sin), Peak(carrier), Peak(envelope));
  }

  /** |a * b| <= pa * pb when |a| <= pa and |b| <= pb. */
  lemma AbsTimes(a: real, b: real, pa: real, pb: real)
    requires Abs(a) <= pa && Abs(b) <= pb
    ensures Abs(Times(a, b)) <= Times(pa, pb)
  {
    Arith.MulBound(a, b, pa, pb);
  }

  lemma AmplifyUnfolds(carrier: Signal, envelope: Signal, x: int, sin: real -> real)
    requires Valid(carrier) && Valid(envelope) && x >= 0
    ensures At(Amplify(carrier, envelope), x, sin) == Times(At(carrier, x, sin), At(envelope, x, sin))
  {
    assert Valid(Amplify(carrier, envelope));
  }

  lemma PeakUnfolds(carrier: Signal, envelope: Signal)
    ensures Peak(Amplify(carrier, envelope)) == Times(Peak(carrier), Peak(envelope))
  {
  }

  /** A sequence stays within the largest of its segments' peaks. */
  lemma PeakOfSequence(s: Signal, x: int, sin: real -> real)
    requires s.Sequence? && Valid(s) && x >= 0
    requires var t := x % Total(s.segments); var sel := s.segments[Select(s.segments, t)].signal;
      Abs(At(sel, t, sin)) <= Peak(sel)
    ensures Abs(At(s, x, sin)) <= Peak(s)
  {
    var k := Select(s.segments, x % Total(s.segments));
    PeakOfSegmentsCovers(s, |s.segments|, k);
  }

  /** Given a sine bounded by 1, no signal's amplitude exceeds its peak. */
  lemma {:induction false} PeakBound(s: Signal, x: int, sin: real -> real)
    requires Valid(s) && x >= 0
    requires forall r: real :: -1.0 <= sin(r) <= 1.0
    ensures Abs(At(s, x, sin)) <= Peak(s)
    decreases s
  {
    match s
    case Constant(_) =>
    case Sine(freq) =>
      PeakOfSine(freq, x, sin);
    case Combine(signals) =>
      forall i | 0 <= i < |signals|
        ensures Abs(At(signals[i], x, sin)) <= Peak(signals[i])
      {
        PeakBound(signals[i], x, sin);
      }
      PeakOfCombine(s, x, sin);
    case Amplify(carrier, envelope) =>
      PeakBound(carrier, x, sin);
      PeakBound(envelope, x, sin);
      PeakOfAmplify(carrier, envelope, x, sin);
    case Sequence(segments) =>
      var t := x % Total(segments);
      PeakBound(segments[Select(segments, t)].signal, t, sin);
      PeakOfSequence(s, x, sin);
    case Ramp(origin, target, over) =>
      LerpBetween(origin, target, over, x, sin);
  }

  /**
   * The voice the program composes: a mix of three oscillators at fixed
   * pitches, faded in and out by a sequence of two ramps of length `half`.
   * It never leaves [-1, 1].
   */
  lemma FadedChordInRange(h1: real, h2: real, h3: real, half: int, x: int, sin: real -> real)
    requires half > 0 && x >= 0
    requires forall r: real :: -1.0 <= sin(r) <= 1.0
    ensures var chord := Combine([Sine(Constant(h1)), Sine(Constant(h2)), Sine(Constant(h3))]);
      var fade := Sequence([Lerp(0.0, 1.0, half), Lerp(1.0, 0.0, half)]);
      Valid(Amplify(chord, fade)) && -1.0 <= At(Amplify(chord, fade), x, sin) <= 1.0
  {
    var chord := Combine([Sine(Constant(h1)), Sine(Constant(h2)), Sine(Constant(h3))]);
    var segs := [Lerp(0.0, 1.0, half), Lerp(1.0, 0.0, half)];
    var fade := Sequence(segs);
    assert segs[..0] == [];
    PrefixStep(segs, 0);
    PrefixStep(segs, 1);
    PrefixAll(segs);
    assert Valid(chord) && Valid(fade);
    assert PeakOfMix(chord, 1) == 1.0;
    assert PeakOfMix(chord, 2) == 1.0;
    assert PeakOfMix(chord, 3) == 1.0;
    assert PeakOfSegments(fade, 1) == 1.0;
    assert PeakOfSegments(fade, 2) == 1.0;
    PeakBound(Amplify(chord, fade), x, sin);
  }
}
