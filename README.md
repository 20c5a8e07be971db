# A verified model of the `dsp` signal algebra of poc-go-music

Package `dsp` of poc-go-music synthesises audio. A *signal* gives a real
amplitude for every time offset, an integer number of nanoseconds. Signals
are built from:

- constants,
- sine oscillators, whose frequency is itself a signal,
- linear ramps (`Lerp`).

They are composed by:

- mixing (`Combine`, the mean of the inputs),
- amplitude modulation (`Amplify`, the product of two signals),
- sequencing (`Sequence`): finite segments played one after the other, the
  whole repeating forever.

`Sample` evaluates a signal at a fixed rate over a time window.
`EncodePCM` turns the frames into a raw big-endian stream of 64-bit words.

The model has six modules:

- `Signals` (`signal.dfy`): the datatype `Signal` has one constructor per
  closure of the package, and `At` is the evaluator. The loops of
  `Sequence` and `Combine` are methods. `SequenceTotal` is the loop that
  runs when a sequence is built; it is proved equal to the function
  `Total`. `SequenceAt` and `CombineAt` are the loops inside the closures;
  each is proved equal to `At`.
- `SignalLaws` (`signal_laws.dfy`): what the operators promise, as lemmas
  about `At`. A sequence selects its segment through half-open intervals,
  never plays a segment of zero length, and repeats. A ramp starts at its
  origin, is linear and stays between its ends. A mix is a mean, and
  amplification is a product. A structural amplitude bound `Peak` holds for
  every composition, so the program's faded chords never leave [-1, 1].
- `Pcm` (`pcm.dfy`): `Sample` and `EncodePCM` as methods with loops. They
  are proved against the functions `SampleCount`/`SampleTime` and
  `Encode`/`Decode`.
- `BigEndian` (`big_endian.dfy`): `binary.BigEndian.PutUint64` and its
  inverse, with both round trips.
- `Arith` (`arith.dfy`) and `Wrappers` (`wrappers.dfy`): arithmetic helper
  lemmas and an `Option` type.

Two library functions of the host language become parameters:

- `math.Sin` is the parameter `sin: real -> real` of `At`. Nothing is
  assumed about it, except in the amplitude lemmas, which require that it
  stays in [-1, 1].
- `math.Float64bits` is the parameter `bits: real -> bv64` of `EncodePCM`.
  Only the lemma `EncodeInjective` assumes something about it: that it
  tells apart the frames that occur.

Sample count: `Sample` takes samples at `from`, `from + step`, … while the
offset is below `from + to`. That is ⌈to · rate / 1 s⌉ samples, not
⌊to · rate / 1 s⌋. The model follows the loop
(`SampleCountMeaning`). The two agree when the window is a whole number of
steps (`SampleCountExact`), and so they agree for the half-second window at
rate 8 (`SampleHalfSecondAtEight`).

## Model

| member | source | states |
|---|---|---|
| `Signals.At` | pkg/dsp/signal.go:17-91 | the evaluator of every closure: a constant's value (18), the sine of x in seconds · 2π · the frequency at x (23), the mean of a mix (46-51), the segment that holds x mod total, at the reduced time (68-78), the ramp from + (to − from) · (x mod over) / over (83), the product of carrier and envelope (89); its contract is the laws below |
| `Signals.F` | pkg/dsp/signal.go:59 | pairs the signal `s` with the duration `d`; what that segment does inside a sequence is stated by `SequenceSingle` and `SequenceLookup` |
| `Signals.Blank` | pkg/dsp/signal.go:61 | a valid finite signal of duration `d` that is 0 at every time |
| `Signals.Lerp` | pkg/dsp/signal.go:81-85 | a finite signal holding a ramp whose period is exactly the segment's duration `over`; valid when `over` > 0 |
| `Signals.Select` | pkg/dsp/signal.go:70-76 | a reduced time below the total lies in the half-open interval [start, start + duration) of exactly the segment chosen, and that segment has positive duration |
| `Signals.FindFrom` | pkg/dsp/signal.go:70-76 | the lookup loop, started at a segment with that segment's start offset, always finds a segment for any time between that offset and the total: the loop never reaches the panic |
| `Signals.SegmentUnique` | pkg/dsp/signal.go:72 | with non-negative durations, at most one segment's half-open interval holds a given time |
| `Signals.PrefixMonotone` | pkg/dsp/signal.go:75 | with non-negative durations, segment start offsets never decrease |
| `Signals.SequenceTotal` | pkg/dsp/signal.go:64-67 | the accumulating loop returns the sum of all segment durations |
| `Signals.SequenceAt` | pkg/dsp/signal.go:68-78 | reducing x modulo the total, walking the segments and returning the first match gives `At` of the sequence; the panic after the loop is unreachable |
| `Signals.CombineAt` | pkg/dsp/signal.go:45-52 | summing the inputs' values in a loop and dividing by their count gives `At` of the mix |
| `SignalLaws.SequenceLookup` | pkg/dsp/signal.go:69-73 | a sequence at x is the value, at the reduced time x mod total, of the segment whose interval holds the reduced time; it is not evaluated at a time relative to the segment's start |
| `SignalLaws.SequenceCovers` | pkg/dsp/signal.go:69-77 | for every x >= 0 some non-empty segment holds x mod total |
| `SignalLaws.SequenceBoundary` | pkg/dsp/signal.go:72 | a reduced time equal to the start of a non-empty segment plays that segment, not the previous one |
| `SignalLaws.SequenceSkipsEmpty` | pkg/dsp/signal.go:72 | a segment of zero duration is never selected |
| `SignalLaws.SequencePeriodic` | pkg/dsp/signal.go:69 | a sequence repeats with the sum of its durations as period |
| `SignalLaws.SequenceSingle` | pkg/dsp/signal.go:59-79 | a sequence of the single segment `F(d, s)` plays `s` at x mod d |
| `SignalLaws.SequenceAlternates` | pkg/dsp/signal.go:63-79 | two segments of length d holding 1 and -1 give 1 at 0, -1 at d and 1 again at 2d |
| `SignalLaws.LerpStart` | pkg/dsp/signal.go:81-85 | `Lerp(a, b, over)` is a finite signal of duration `over` whose value at 0 is `a` |
| `SignalLaws.LerpLinear` | pkg/dsp/signal.go:83 | within [0, over) a ramp equals a + (b - a) · x / over |
| `SignalLaws.LerpPeriodic` | pkg/dsp/signal.go:83 | a ramp repeats every `over` |
| `SignalLaws.LerpBetween` | pkg/dsp/signal.go:83 | a ramp's value always lies between min(a, b) and max(a, b) |
| `SignalLaws.AmplifyUnit` | pkg/dsp/signal.go:87-91 | amplifying by the constant 1 leaves a signal unchanged |
| `SignalLaws.AmplifyZero` | pkg/dsp/signal.go:87-91 | amplifying by the constant 0 gives silence |
| `SignalLaws.AmplifyCommutes` | pkg/dsp/signal.go:87-91 | carrier and envelope can be exchanged |
| `SignalLaws.CombineSingle` | pkg/dsp/signal.go:45-52 | a mix of one signal is that signal |
| `SignalLaws.CombineConstants` | pkg/dsp/signal.go:45-52 | a mix of constants is their arithmetic mean |
| `SignalLaws.CombineBounded` | pkg/dsp/signal.go:45-52 | a mix stays within any bounds that all its inputs keep: mixing does not add voices up |
| `SignalLaws.SineConstant` | pkg/dsp/signal.go:21-25 | an oscillator at a fixed frequency hz is sin(2π · hz · x / 1 s) |
| `SignalLaws.SineStart` | pkg/dsp/signal.go:23 | every oscillator has phase zero at time 0, whatever its frequency signal |
| `SignalLaws.SineSameTime` | pkg/dsp/signal.go:23 | an oscillator reads its frequency signal only at the same time x |
| `SignalLaws.PeakBound` | pkg/dsp/signal.go:17-91 | with a sine bounded by 1, every signal's magnitude stays within its structural peak: 1 for oscillators, the largest input peak for mixes and sequences, the product for amplification, the larger end for ramps |
| `SignalLaws.FadedChordInRange` | main.go:13-38 | a three-note chord amplified by a fade in and out made of two ramps is a valid signal whose value never leaves [-1, 1] |
| `Pcm.SampleCountMeaning` | pkg/dsp/signal.go:28-29 | sample k is taken exactly when k · step < to, where step = 1 s / rate |
| `Pcm.Sample` | pkg/dsp/signal.go:27-34 | the loop returns exactly `SampleCount` frames, and frame k is the signal at the truncated time from + k · step |
| `Pcm.SampleTimes` | pkg/dsp/signal.go:29-30 | every sample time lies in [from, from + to), and later frames have later or equal times |
| `Pcm.SampleCountExact` | pkg/dsp/signal.go:28-29 | when to · rate is a whole number of seconds, the count is to · rate / 1 s |
| `Pcm.SampleHalfSecondAtEight` | pkg/dsp/signal.go:27-34 | at rate 8 over half a second there are four samples, at k/8 s |
| `Pcm.SineSampledAtEight` | pkg/dsp/signal.go:21-34 | those four samples of a fixed-frequency oscillator are sin(2π · hz · k/8) |
| `Pcm.EncodePCM` | pkg/dsp/signal.go:36-43 | the output has 8 bytes per frame; bytes 8k..8k+7 are the big-endian bytes of frame k's bit pattern; decoding the output gives back every frame's bit pattern |
| `Pcm.EncodeLayout` | pkg/dsp/signal.go:38-40 | byte 8k + j of the stream is byte j of word k in big-endian order |
| `Pcm.DecodeEncode` | pkg/dsp/signal.go:36-43 | decoding an encoded stream gives the words back, in order |
| `Pcm.EncodeDecode` | pkg/dsp/signal.go:36-43 | every stream of whole words is the encoding of its decoding |
| `Pcm.EncodeInjective` | pkg/dsp/signal.go:36-43 | when the bit pattern tells apart the frames that occur, different frame sequences give different streams |
| `BigEndian.PutUint64` | pkg/dsp/signal.go:39 | the 8-byte buffer is overwritten with the big-endian bytes of the word |
| `BigEndian.DecodeEncode` | pkg/dsp/signal.go:39 | reading back the eight bytes of a word gives the word |
| `BigEndian.EncodeDecode` | pkg/dsp/signal.go:39 | any eight bytes are the big-endian bytes of the word they read as |

## Left out

- Integer width: durations are unbounded `int`; `time.Duration` overflow past 2^63 ns is not modelled.
- Floating point: amplitudes, the sample step and the sample accumulator are exact reals. IEEE rounding, NaN and infinities are not modelled. In the Go code the accumulator `i += step` can drift and change the last sample's time or the count; that drift is not modelled.
- `math.Sin` is the parameter `sin`, and `math.Float64bits` the parameter `bits`. Their implementations are not part of this model.
- Signals.At: requires `Valid`. It excludes the inputs where the Go code divides by zero: an empty `Combine` (0/0 gives NaN), a `Lerp` of length 0 (`math.Mod` by 0 gives NaN), and a `Sequence` of total duration 0 (integer division by zero). It also excludes a `Sequence` with a negative duration, although the Go code handles one: with a positive total, the lookup still returns the first segment whose [offset, offset + duration) holds the reduced time, and it never reaches the panic. The model asks for non-negative durations because a segment's duration is a length of time, and because `SegmentUnique` and `SequenceLookup` need them: with a negative duration, two intervals can overlap. A segment of zero duration is never played, so `Valid` asks nothing of its signal.
- Signals.At: `Valid` also excludes a `Lerp` with a negative length. The Go code evaluates it: `math.Mod` takes the sign of x, so the value stays finite. Such a ramp is never a segment of a valid sequence, because its duration is negative; the model does not cover it as a signal on its own.
- Signals.At: requires x >= 0 of every signal. The Go code evaluates every constructor at a negative offset, and the model covers none of them there:
  - `Constant`, `Sine`, `Combine` and `Amplify` give a value without fault.
  - A `Lerp` ramp takes the sign of x through `math.Mod`, so its values leave the interval between its two ends.
  - A `Sequence` at a negative multiple of its total reduces x to 0 and plays its first non-empty segment. At any other negative offset, Go's truncating `%` leaves the reduced time negative; with non-negative durations no segment holds it, and the lookup panics.
  - Sampling with a negative `from` is not modelled either (`Pcm.Sample` requires `from >= 0`).
- Pcm.Sample: requires rate > 0, but the Go code never checks `rate`. With `rate == 0` the step is +Inf, so the loop takes exactly one frame, at `from`, when `to > 0`. With `rate < 0` the step is negative, the accumulator never reaches `from + to` when `to > 0`, and the loop never ends. The model covers neither case, and its loop measure `SampleCount - |frames|` depends on the positive rate.
- Pcm.Sample: models the conversion `time.Duration(i)` as the floor, which equals Go's truncation because every sample time is non-negative.
- The `Signal` interface and `SignalFunc`: the closures are the constructors of the datatype `Signal`. Signals implemented by other user types are not modelled.
- `BigEndian.PutUint64` writes into an 8-element array. The slice `buf[:]` and the copy made by `append` are modelled by taking the array's contents.
- `main.go` (sampling at 44100 Hz and writing to standard output) and the `music` package (BPM and note frequencies) are not part of this model. `FadedChordInRange` captures the shape of the program's voices, with the pitches and the ramp length as parameters.
