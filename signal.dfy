/**
 * The signal algebra of package dsp: a signal is a value at every time
 * offset (an integer number of nanoseconds), built from constants,
 * oscillators and ramps, and composed by mixing, amplitude modulation and
 * sequencing of finite segments.
 *
 * Each closure of package dsp is one constructor of `Signal`; `At` is the
 * evaluator. Amplitudes are reals. The sine function is a parameter of `At`,
 * so nothing is assumed about it.
 */
module Signals {
  import opened Wrappers

  /** One second, in nanoseconds (time.Second). */
  const Second: int := 1_000_000_000

  /** math.Pi. */
  const Pi: real := 3.14159265358979323846264338327950288419716939937510582097494459

  datatype Signal =
    | Constant(value: real)
    | Sine(freq: Signal)
    | Combine(signals: seq<Signal>)
    | Amplify(carrier: Signal, envelope: Signal)
    | Sequence(segments: seq<FiniteSignal>)
      /** The closure that Lerp wraps: a ramp from `origin` to `target` repeating every `over`. */
    | Ramp(origin: real, target: real, over: int)

  /** A signal together with the time it is active for inside a sequence. */
  datatype FiniteSignal = FiniteSignal(signal: Signal, duration: int)

  /** A signal played for `d` inside a sequence. */
  function F(d: int, s: Signal): (r: FiniteSignal)
    ensures r.signal == s && r.duration == d
  {
    FiniteSignal(s, d)
  }

  /** Silence for `d`. */
  function Blank(d: int): (r: FiniteSignal)
    ensures r.duration == d && Valid(r.signal)
    ensures forall x: int, sin: real -> real | x >= 0 :: At(r.signal, x, sin) == 0.0
  {
    FiniteSignal(Constant(0.0), d)
  }

  /** A ramp from `origin` to `target`, played for exactly one of its periods. */
  function Lerp(origin: real, target: real, over: int): (r: FiniteSignal)
    ensures r.duration == over && r.signal.Ramp? && r.signal.over == r.duration
    ensures over > 0 ==> Valid(r.signal)
  {
    F(over, Ramp(origin, target, over))
  }

  /** time.Duration.Seconds: a duration as a number of seconds. */
  function Seconds(x: int): real
  {
    x as real / Second as real
  }

  /** The argument the oscillator passes to the sine: x.Seconds() * 2 * math.Pi * frequency. */
  function Phase(x: int, hz: real): real
  {
    Seconds(x) * 2.0 * Pi * hz
  }

  // ---------------------------------------------------------------------------
  // Durations of a sequence

  /** The sum of the segments' durations, accumulated first to last. */
  function Total(segs: seq<FiniteSignal>): int
  {
    if |segs| == 0 then 0 else Total(segs[..|segs| - 1]) + segs[|segs| - 1].duration
  }

  /** The offset at which segment `k` starts. */
  function Prefix(segs: seq<FiniteSignal>, k: nat): int
    requires k <= |segs|
  {
    Total(segs[..k])
  }

  predicate NonNegative(segs: seq<FiniteSignal>)
  {
    forall i | 0 <= i < |segs| :: segs[i].duration >= 0
  }

  /**
   * The lookup loop of a sequence, from segment `k` on, with `offset` the
   * start of segment `k`: the first segment whose half-open interval
   * [offset, offset + duration) holds `t`, or None where the Go code panics.
   */
  function Find(segs: seq<FiniteSignal>, t: int, k: nat, offset: int): Option<nat>
    decreases |segs| - k
  {
    if k >= |segs| then None
    else if offset <= t && t < offset + segs[k].duration then Some(k)
    else Find(segs, t, k + 1, offset + segs[k].duration)
  }

  lemma PrefixStep(segs: seq<FiniteSignal>, k: nat)
    requires k < |segs|
    ensures Prefix(segs, k + 1) == Prefix(segs, k) + segs[k].duration
  {
    assert segs[..k + 1][..k] == segs[..k];
  }

  lemma PrefixAll(segs: seq<FiniteSignal>)
    ensures Prefix(segs, |segs|) == Total(segs)
  {
    assert segs[..|segs|] == segs;
  }

  /** With non-negative durations, segments start in order. */
  lemma {:induction false} PrefixMonotone(segs: seq<FiniteSignal>, j: nat, k: nat)
    requires NonNegative(segs) && j <= k <= |segs|
    ensures Prefix(segs, j) <= Prefix(segs, k)
  {
    if j < k {
      PrefixMonotone(segs, j, k - 1);
      PrefixStep(segs, k - 1);
    }
  }

  /**
   * Started at segment `k` with the right offset, the lookup loop finds the
   * segment holding any `t` between that offset and the total.
   */
  lemma {:induction false} FindFrom(segs: seq<FiniteSignal>, t: int, k: nat, offset: int)
    requires NonNegative(segs) && k <= |segs| && offset == Prefix(segs, k)
    requires offset <= t < Total(segs)
    ensures Find(segs, t, k, offset).Some?
    ensures var r := Find(segs, t, k, offset).value;
      k <= r < |segs| && Prefix(segs, r) <= t < Prefix(segs, r) + segs[r].duration
    decreases |segs| - k
  {
    if k == |segs| {
      PrefixAll(segs);
    } else {
      PrefixStep(segs, k);
      if !(offset <= t && t < offset + segs[k].duration) {
        FindFrom(segs, t, k + 1, offset + segs[k].duration);
      }
    }
  }

  /** At most one segment's interval holds `t`. */
  lemma SegmentUnique(segs: seq<FiniteSignal>, t: int, j: nat, k: nat)
    requires NonNegative(segs) && j < |segs| && k < |segs|
    requires Prefix(segs, j) <= t < Prefix(segs, j) + segs[j].duration
    requires Prefix(segs, k) <= t < Prefix(segs, k) + segs[k].duration
    ensures j == k
  {
    if j < k {
      PrefixStep(segs, j);
      PrefixMonotone(segs, j + 1, k);
    } else if k < j {
      PrefixStep(segs, k);
      PrefixMonotone(segs, k + 1, j);
    }
  }

  /**
   * The segment a sequence plays at reduced time `t`: the one whose
   * half-open interval holds `t`. It never has zero duration.
   */
  function Select(segs: seq<FiniteSignal>, t: int): (k: nat)
    requires NonNegative(segs) && 0 <= t < Total(segs)
    ensures k < |segs| && Prefix(segs, k) <= t < Prefix(segs, k) + segs[k].duration
    ensures segs[k].duration > 0
  {
    FindFrom(segs, t, 0, 0);
    Find(segs, t, 0, 0).value
  }

  // ---------------------------------------------------------------------------
  // Evaluation

  /**
   * The signals package dsp evaluates without a division or a modulo by
   * zero: mixes are not empty, sequences have non-negative durations and a
   * positive total, ramps a positive length. A segment of zero duration is
   * never played, so its signal may be anything.
   */
  predicate Valid(s: Signal)
    decreases s
  {
    match s
    case Constant(_) => true
    case Sine(freq) => Valid(freq)
    case Combine(signals) =>
      |signals| > 0 && forall i | 0 <= i < |signals| :: Valid(signals[i])
    case Amplify(carrier, envelope) => Valid(carrier) && Valid(envelope)
    case Sequence(segments) =>
      NonNegative(segments) && Total(segments) > 0 &&
      forall i | 0 <= i < |segments| :: segments[i].duration > 0 ==> Valid(segments[i].signal)
    case Ramp(_, _, over) => over > 0
  }

  function Sum(ys: seq<real>): real
  {
    if |ys| == 0 then 0.0 else Sum(ys[..|ys| - 1]) + ys[|ys| - 1]
  }

  function Mean(ys: seq<real>): real
    requires |ys| > 0
  {
    Sum(ys) / |ys| as real
  }

  /** The amplitude of signal `s` at time offset `x`. */
  function At(s: Signal, x: int, sin: real -> real): real
    requires Valid(s) && x >= 0
    decreases s, 1
  {
    match s
    case Constant(v) => v
    case Sine(freq) => sin(Phase(x, At(freq, x, sin)))
    case Combine(signals) => Mean(Levels(s, x, sin))
    case Amplify(carrier, envelope) => At(carrier, x, sin) * At(envelope, x, sin)
    case Sequence(segments) =>
      var t := x % Total(segments);
      At(segments[Select(segments, t)].signal, t, sin)
    case Ramp(origin, target, over) =>
      origin + (target - origin) * (x % over) as real / over as real
  }

  /** The amplitudes of a mix's inputs at `x`, in order. */
  function Levels(s: Signal, x: int, sin: real -> real): (ys: seq<real>)
    requires s.Combine? && Valid(s) && x >= 0
    ensures |ys| == |s.signals|
    decreases s, 0
  {
    seq(|s.signals|, i requires 0 <= i < |s.signals| => At(s.signals[i], x, sin))
  }

  // ---------------------------------------------------------------------------
  // The loops of package dsp

  /** Sequence's construction-time loop: the accumulated total duration. */
  method SequenceTotal(segs: seq<FiniteSignal>) returns (total: int)
    ensures total == Total(segs)
  {
    total := 0;
    for k := 0 to |segs|
      invariant total == Prefix(segs, k)
    {
      PrefixStep(segs, k);
      total := total + segs[k].duration;
    }
    PrefixAll(segs);
  }

  /**
   * The closure Sequence returns: reduce `x` modulo the total, then walk the
   * segments until one holds the reduced time, and evaluate that segment's
   * signal at the reduced time. The fall-through after the loop (the
   * panic of the Go code) is unreachable.
   */
  method SequenceAt(segs: seq<FiniteSignal>, x: int, sin: real -> real) returns (y: real)
    requires Valid(Sequence(segs)) && x >= 0
    ensures y == At(Sequence(segs), x, sin)
  {
    var total := SequenceTotal(segs);
    var t := x % total;
    FindFrom(segs, t, 0, 0);
    var i := 0;
    var k := 0;
    while k < |segs|
      invariant 0 <= k <= |segs| && i == Prefix(segs, k)
      invariant Find(segs, t, 0, 0) == Find(segs, t, k, i)
    {
      if i <= t && t < i + segs[k].duration {
        y := At(segs[k].signal, t, sin);
        return;
      }
      PrefixStep(segs, k);
      i := i + segs[k].duration;
      k := k + 1;
    }
    assert false;
  }

  /** The closure Combine returns: the accumulated sum divided by the count. */
  method CombineAt(signals: seq<Signal>, x: int, sin: real -> real) returns (y: real)
    requires Valid(Combine(signals)) && x >= 0
    ensures y == At(Combine(signals), x, sin)
  {
    ghost var ys := Levels(Combine(signals), x, sin);
    y := 0.0;
    for i := 0 to |signals|
      invariant y == Sum(ys[..i])
    {
      assert ys[..i + 1][..i] == ys[..i];
      y := y + At(signals[i], x, sin);
    }
    assert ys[..|signals|] == ys;
    y := y / |signals| as real;
  }
}
