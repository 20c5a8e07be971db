/**
 * The two consumers of a signal in package dsp: Sample evaluates a signal at
 * a fixed rate over a window and EncodePCM lays the frames out as raw
 * big-endian 64-bit words.
 *
 * The sample step is a real number of nanoseconds; the bit pattern of a
 * frame (math.Float64bits) is a parameter `bits` of EncodePCM.
 */
module Pcm {
  import opened Signals
  import BigEndian
  import Arith

  // ---------------------------------------------------------------------------
  // Sample

  /** The time between two samples, in nanoseconds: time.Second / rate. */
  function Step(rate: int): real
    requires rate > 0
  {
    Second as real / rate as real
  }

  /** The offset of sample `k`: the accumulator from + k * step, truncated to whole nanoseconds. */
  function SampleTime(rate: int, from: int, k: nat): int
    requires rate > 0
  {
    (from as real + k as real * Step(rate)).Floor
  }

  /** How many samples the window of length `to` holds: the least n with n * step >= to. */
  function SampleCount(rate: int, to: int): nat
    requires rate > 0
  {
    if to <= 0 then 0 else (to * rate + Second - 1) / Second
  }

  /** Sample `k` is taken exactly when its offset into the window is below `to`. */
  lemma SampleCountMeaning(rate: int, to: int, k: nat)
    requires rate > 0
    ensures k < SampleCount(rate, to) <==> k as real * Step(rate) < to as real
  {
    Arith.StepBelow(k, Second, rate, to);
    if to > 0 {
      Arith.CeilDiv(to * rate, Second, k);
    } else {
      Arith.MulLeft(to, 0, rate);
    }
  }

  /**
   * Walks the half-open window [from, from + to) at `rate` samples per
   * second and collects the signal's values, in order.
   */
  method Sample(s: Signal, rate: int, from: int, to: int, sin: real -> real) returns (frames: seq<real>)
    requires Valid(s) && rate > 0 && from >= 0
    ensures |frames| == SampleCount(rate, to)
    ensures forall k | 0 <= k < |frames| :: frames[k] == At(s, SampleTime(rate, from, k), sin)
  {
    var step := Second as real / rate as real;
    frames := [];
    var i := from as real;
    while i < (from + to) as real
      invariant i == from as real + |frames| as real * step
      invariant |frames| <= SampleCount(rate, to)
      invariant forall k | 0 <= k < |frames| :: frames[k] == At(s, SampleTime(rate, from, k), sin)
      decreases SampleCount(rate, to) - |frames|
    {
      SampleStep(rate, from, to, |frames|, i);
      frames := frames + [At(s, i.Floor, sin)];
      i := i + step;
    }
    SampleCountMeaning(rate, to, |frames|);
  }

  /** One turn of the sampling loop: the accumulator is sample n's time, and n is in the window. */
  lemma SampleStep(rate: int, from: int, to: int, n: nat, i: real)
    requires rate > 0 && i == from as real + n as real * Step(rate) && i < (from + to) as real
    ensures n < SampleCount(rate, to) && i.Floor == SampleTime(rate, from, n)
    ensures i + Step(rate) == from as real + (n + 1) as real * Step(rate)
  {
    SampleCountMeaning(rate, to, n);
    Arith.StepNext(n, Step(rate));
  }

  /** Every sample lies inside the window, and the samples come in time order. */
  lemma SampleTimes(rate: int, from: int, to: int, j: nat, k: nat)
    requires rate > 0 && from >= 0 && j <= k < SampleCount(rate, to)
    ensures from <= SampleTime(rate, from, j) <= SampleTime(rate, from, k) < from + to
  {
    SampleCountMeaning(rate, to, k);
    Arith.StepOrder(j, k, Step(rate));
  }

  /** When the window is a whole number of steps, the count is length * rate / second. */
  lemma SampleCountExact(rate: int, to: int)
    requires rate > 0 && to >= 0 && (to * rate) % Second == 0
    ensures SampleCount(rate, to) == to * rate / Second
  {
    if to > 0 {
      var q := to * rate / Second;
      Arith.DivModUnique(to * rate + Second - 1, Second, q, Second - 1);
    }
  }

  /** Rate 8 over half a second: four samples, one every eighth of a second. */
  lemma SampleHalfSecondAtEight(k: nat)
    requires k < 4
    ensures SampleCount(8, Second / 2) == 4
    ensures SampleTime(8, 0, k) == k * (Second / 8)
  {
    assert Step(8) == 125_000_000.0;
  }

  /** Those four samples of a fixed-frequency oscillator are the sines of its phase at k/8 s. */
  lemma SineSampledAtEight(hz: real, k: nat, sin: real -> real)
    requires k < 4
    ensures At(Sine(Constant(hz)), SampleTime(8, 0, k), sin) == sin(2.0 * Pi * hz * (k as real / 8.0))
  {
    SampleHalfSecondAtEight(k);
    var sec := k as real / 8.0;
    assert Seconds(k * (Second / 8)) == sec;
    assert sec * 2.0 * Pi * hz == 2.0 * Pi * hz * sec;
  }

  // ---------------------------------------------------------------------------
  // EncodePCM

  /** The bit patterns of the frames, in order. */
  function Words(frames: seq<real>, bits: real -> bv64): (ws: seq<bv64>)
    ensures |ws| == |frames|
  {
    seq(|frames|, k requires 0 <= k < |frames| => bits(frames[k]))
  }

  /** The words laid out one after the other, each as its eight big-endian bytes. */
  function Encode(words: seq<bv64>): seq<bv8>
  {
    if |words| == 0 then [] else Encode(words[..|words| - 1]) + BigEndian.Bytes(words[|words| - 1])
  }

  /** Reads a byte stream back eight bytes at a time. */
  function Decode(b: seq<bv8>): seq<bv64>
    requires |b| % 8 == 0
  {
    if |b| == 0 then [] else Decode(b[..|b| - 8]) + [BigEndian.Uint64(b[|b| - 8..])]
  }

  lemma {:induction false} EncodeLength(words: seq<bv64>)
    ensures |Encode(words)| == 8 * |words|
  {
    if |words| > 0 {
      EncodeLength(words[..|words| - 1]);
    }
  }

  /** Bytes 8k to 8k+7 of the stream are the big-endian bytes of word k. */
  lemma {:induction false} EncodeLayout(words: seq<bv64>, k: nat, j: nat)
    requires k < |words| && j < 8
    ensures |Encode(words)| == 8 * |words|
    ensures Encode(words)[8 * k + j] == BigEndian.Bytes(words[k])[j]
  {
    var n := |words|;
    var init := words[..n - 1];
    var last := BigEndian.Bytes(words[n - 1]);
    EncodeLength(words);
    EncodeLength(init);
    assert Encode(words) == Encode(init) + last;
    if k < n - 1 {
      EncodeLayout(init, k, j);
      assert Encode(words)[8 * k + j] == Encode(init)[8 * k + j];
    } else {
      assert Encode(words)[8 * k + j] == last[j];
    }
  }

  /** Decoding a stream with one more word's bytes appended gives one more word. */
  lemma DecodeSnoc(a: seq<bv8>, w: bv64)
    requires |a| % 8 == 0
    ensures |a + BigEndian.Bytes(w)| % 8 == 0
    ensures Decode(a + BigEndian.Bytes(w)) == Decode(a) + [w]
  {
    var e := a + BigEndian.Bytes(w);
    assert e[..|e| - 8] == a;
    assert e[|e| - 8..] == BigEndian.Bytes(w);
    BigEndian.DecodeEncode(w);
  }

  /** Decoding the stream gives back every word, in order. */
  lemma {:induction false} DecodeEncode(words: seq<bv64>)
    ensures |Encode(words)| % 8 == 0 && Decode(Encode(words)) == words
  {
    EncodeLength(words);
    if |words| > 0 {
      var n := |words|;
      var init := words[..n - 1];
      EncodeLength(init);
      DecodeEncode(init);
      DecodeSnoc(Encode(init), words[n - 1]);
      assert init + [words[n - 1]] == words;
    }
  }

  /** Every byte stream of whole words is the encoding of its decoding. */
  lemma {:induction false} EncodeDecode(b: seq<bv8>)
    requires |b| % 8 == 0
    ensures Encode(Decode(b)) == b
  {
    if |b| > 0 {
      var ws := Decode(b);
      var init := b[..|b| - 8];
      EncodeDecode(init);
      assert ws[..|ws| - 1] == Decode(init);
      BigEndian.EncodeDecode(b[|b| - 8..]);
      assert init + b[|b| - 8..] == b;
    }
  }

  /**
   * When the bit pattern tells apart the frames that occur, different frame
   * sequences give different streams.
   */
  lemma EncodeInjective(f: seq<real>, g: seq<real>, bits: real -> bv64)
    requires forall i, j | 0 <= i < |f| && 0 <= j < |g| :: bits(f[i]) == bits(g[j]) ==> f[i] == g[j]
    requires Encode(Words(f, bits)) == Encode(Words(g, bits))
    ensures f == g
  {
    DecodeEncode(Words(f, bits));
    DecodeEncode(Words(g, bits));
    assert Words(f, bits) == Words(g, bits);
    forall k | 0 <= k < |f|
      ensures f[k] == g[k]
    {
      assert bits(f[k]) == Words(f, bits)[k] == Words(g, bits)[k] == bits(g[k]);
    }
  }

  /** Appends, frame by frame, the eight big-endian bytes of each frame's bit pattern. */
  method EncodePCM(frames: seq<real>, bits: real -> bv64) returns (b: seq<bv8>)
    ensures b == Encode(Words(frames, bits))
    ensures |b| == 8 * |frames|
    ensures forall k, j | 0 <= k < |frames| && 0 <= j < 8 ::
      b[8 * k + j] == BigEndian.Bytes(bits(frames[k]))[j]
    ensures Decode(b) == Words(frames, bits)
  {
    ghost var words := Words(frames, bits);
    var buf := new bv8[8];
    b := [];
    for k := 0 to |frames|
      invariant b == Encode(words[..k])
    {
      BigEndian.PutUint64(buf, bits(frames[k]));
      assert words[..k + 1][..k] == words[..k];
      b := b + buf[..];
    }
    assert words[..|frames|] == words;
    EncodeLength(words);
    DecodeEncode(words);
    forall k, j | 0 <= k < |frames| && 0 <= j < 8
      ensures b[8 * k + j] == BigEndian.Bytes(bits(frames[k]))[j]
    {
      EncodeLayout(words, k, j);
    }
  }
}
