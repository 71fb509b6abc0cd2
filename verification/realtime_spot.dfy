/**
 * The streaming keyword detector of the real-time demo: a sliding window of
 * audio samples that is fed one capture block at a time, an energy gate, a
 * classifier run on every full and loud window, and a cooldown that lets at
 * most one detection through per cooldown period.
 *
 * Samples and timestamps are modelled as `real`. Feature extraction (the
 * log-mel spectrogram) and the inference engine are opaque functions held in
 * an `Engine` value; the clock is a parameter of every capture block.
 */
module RealtimeSpot {
  import opened Wrappers
  import opened Shapes

  // Audio and model configuration.
  /** `int(0.7 * 16000)`: the length of the analysis window at 16 kHz. */
  const WindowSamples: nat := 11200
  const MelBins: nat := 70
  /** Number of time frames the network expects. */
  const Frames: nat := 69
  const Labels: seq<string> := ["bed", "cake", "phone"]
  const RmsThreshold: real := 0.03
  /** The detector's cooldown, set once when the application is built. */
  const CooldownSec: real := 3.0

  /** A score vector of the network: one score per label. */
  type Scores = s: seq<real> | |s| == |Labels| witness [0.0, 0.0, 0.0]

  /** A time-major feature matrix: one row of mel-bin values per frame. */
  type Spectrogram = s: seq<seq<real>> | forall i :: 0 <= i < |s| ==> |s[i]| == MelBins witness []

  /** A loaded interpreter, seen as the function from features to scores. */
  type Network = Spectrogram -> Scores

  /**
   * The numeric collaborators of inference: the log-mel feature pipeline
   * (mel spectrogram, log1p, normalisation, transpose) and the loaded
   * network, whose output shape is fixed to one score per label.
   */
  datatype Engine = Engine(features: seq<real> -> Spectrogram, network: Network)

  /** Why `load_model` gave up: no file at the path, or the interpreter could not be built or allocated. */
  datatype LoadError = ModelNotFound(path: string) | InterpreterFailed(path: string)

  /** A reported keyword and the score the network gave it. */
  datatype Detection = Detection(keyword: string, confidence: real)

  /** One block delivered by the capture layer, with the clock reading taken for it. */
  datatype Chunk = Chunk(samples: seq<real>, overflow: bool, now: real)

  /** What one callback did with its block. */
  datatype Outcome =
    | Dropped                              // overflow reported: block ignored
    | Priming                              // window not yet full
    | Silent                               // energy gate closed: no inference
    | Suppressed(candidate: Detection)     // classified, but within the cooldown
    | Detected(candidate: Detection)       // classified and reported
  {
    /** True when the network was invoked for this block. */
    predicate Inferred() { Suppressed? || Detected? }
  }

  /** The detector's mutable state: ring buffer, last label, last detection time. */
  datatype DetectorState = DetectorState(ring: seq<real>, lastLabel: Option<string>, lastDetectTime: real)

  /** The state set by the constructor and by every `start_stream`. */
  const Initial: DetectorState := DetectorState([], None, 0.0)

  // ---------------------------------------------------------------------------
  // Model loading

  /**
   * `load_model`: a missing model file is fatal before anything else is tried;
   * otherwise `open` builds and allocates the interpreter, which may itself fail
   * (a directory or a corrupt file at the path).
   */
  function LoadModel(path: string, existing: set<string>, open: string -> Result<Network, LoadError>)
    : (r: Result<Network, LoadError>)
    ensures r.Failure? <==> path !in existing || open(path).Failure?
    ensures path !in existing ==> r.error == ModelNotFound(path)
    ensures path in existing && r.Failure? ==> r.error == open(path).error
    ensures r.Success? ==> r.value == open(path).value
  {
    if path !in existing then Failure(ModelNotFound(path)) else open(path)
  }

  // ---------------------------------------------------------------------------
  // The ring buffer: `collections.deque(maxlen=WINDOW_SAMPS)`

  /** The newest `n` elements of `s` (all of `s` when it is shorter). */
  function LastN(s: seq<real>, n: nat): (r: seq<real>)
    ensures |r| == Min(|s|, n)
  {
    if |s| <= n then s else s[|s| - n..]
  }

  /** Appending to a full bounded deque drops its oldest element first. */
  function Push(ring: seq<real>, x: real): (r: seq<real>)
    requires |ring| <= WindowSamples
    ensures r == LastN(ring + [x], WindowSamples)
  {
    if |ring| < WindowSamples then ring + [x]
    else
      assert (ring + [x])[1..] == ring[1..] + [x];
      ring[1..] + [x]
  }

  /** `deque.extend`: push the samples of a block one at a time, in order. */
  function Extend(ring: seq<real>, block: seq<real>): (r: seq<real>)
    requires |ring| <= WindowSamples
    ensures |r| <= WindowSamples
    decreases |block|
  {
    if block == [] then ring else Extend(Push(ring, block[0]), block[1..])
  }

  /** Taking the newest elements twice is the same as taking them once. */
  lemma {:induction false} LastNAppend(a: seq<real>, b: seq<real>, n: nat)
    ensures LastN(LastN(a, n) + b, n) == LastN(a + b, n)
  {
    if |a| > n {
      var k := |a| - n;
      var c := a[k..] + b;
      if b == [] {
        assert a + b == a && c == a[k..];
      } else {
        assert LastN(a, n) == a[k..];
        assert LastN(c, n) == c[|b|..];
        assert LastN(a + b, n) == (a + b)[k + |b|..];
        SuffixOfAppend(a, b, k, |b|);
      }
    }
  }

  lemma SuffixOfAppend(a: seq<real>, b: seq<real>, k: nat, m: nat)
    requires k <= |a| && m <= |b|
    ensures (a[k..] + b)[m..] == (a + b)[k + m..]
  {
    var x, y := (a[k..] + b)[m..], (a + b)[k + m..];
    assert |x| == |y|;
    forall i | 0 <= i < |x| ensures x[i] == y[i] {
      if k + m + i < |a| {
        assert x[i] == a[k + m + i];
      } else {
        assert x[i] == b[k + m + i - |a|];
      }
    }
  }

  /** After extending, the ring holds exactly the newest `WindowSamples` samples, in arrival order. */
  lemma {:induction false} ExtendKeepsNewest(ring: seq<real>, block: seq<real>)
    requires |ring| <= WindowSamples
    ensures Extend(ring, block) == LastN(ring + block, WindowSamples)
    decreases |block|
  {
    if block == [] {
      assert ring + block == ring;
    } else {
      var x, rest := block[0], block[1..];
      var pushed := Push(ring, x);
      assert Extend(ring, block) == Extend(pushed, rest);
      ExtendKeepsNewest(pushed, rest);
      LastNAppend(ring + [x], rest, WindowSamples);
      AppendFirst(ring, block);
    }
  }

  lemma AppendFirst(ring: seq<real>, block: seq<real>)
    requires block != []
    ensures ring + [block[0]] + block[1..] == ring + block
  {
    assert block == [block[0]] + block[1..];
  }

  // ---------------------------------------------------------------------------
  // The energy gate: `rms = sqrt(mean(buf ** 2))`, skip when `rms < RMS_THRESHOLD`

  function SumSquares(w: seq<real>): (r: real)
    ensures r >= 0.0
  {
    if w == [] then 0.0 else w[0] * w[0] + SumSquares(w[1..])
  }

  /**
   * The window's RMS is below the threshold. Both sides of `rms < t` are
   * non-negative, so it is compared squared, and the mean is multiplied out:
   * sqrt(sum(w^2) / n) < t exactly when sum(w^2) < t^2 * n, for n > 0.
   */
  predicate BelowThreshold(w: seq<real>)
  {
    SumSquares(w) < RmsThreshold * RmsThreshold * (|w| as real)
  }

  lemma {:induction false} SumSquaresOfZeros(w: seq<real>)
    requires forall i :: 0 <= i < |w| ==> w[i] == 0.0
    ensures SumSquares(w) == 0.0
  {
    if w != [] {
      SumSquaresOfZeros(w[1..]);
    }
  }

  /** An all-zero window never passes the energy gate. */
  lemma ZeroWindowBelowThreshold(w: seq<real>)
    requires |w| > 0
    requires forall i :: 0 <= i < |w| ==> w[i] == 0.0
    ensures BelowThreshold(w)
  {
    SumSquaresOfZeros(w);
  }

  lemma SquareBelow(x: real, t: real)
    requires -t < x < t
    ensures x * x < t * t
  {
    var a := if x < 0.0 then -x else x;
    assert a * a == x * x;
    assert t * t - a * a == (t - a) * (t + a);
    assert (t - a) * (t + a) > 0.0;
  }

  lemma SquareAtLeast(x: real, t: real)
    requires t > 0.0 && (x <= -t || t <= x)
    ensures x * x >= t * t
  {
    var a := if x < 0.0 then -x else x;
    assert a * a == x * x;
    assert a * a - t * t == (a - t) * (a + t);
    assert (a - t) * (a + t) >= 0.0;
  }

  lemma {:induction false} SumSquaresBelow(w: seq<real>, t: real)
    requires forall i :: 0 <= i < |w| ==> -t < w[i] < t
    ensures SumSquares(w) <= t * t * (|w| as real)
    ensures w != [] ==> SumSquares(w) < t * t * (|w| as real)
  {
    if w != [] {
      var m := |w[1..]| as real;
      SquareBelow(w[0], t);
      SumSquaresBelow(w[1..], t);
      assert t * t * (|w| as real) == t * t + t * t * m;
    }
  }

  lemma {:induction false} SumSquaresAtLeast(w: seq<real>, t: real)
    requires t > 0.0
    requires forall i :: 0 <= i < |w| ==> w[i] <= -t || t <= w[i]
    ensures SumSquares(w) >= t * t * (|w| as real)
  {
    if w != [] {
      var m := |w[1..]| as real;
      SquareAtLeast(w[0], t);
      SumSquaresAtLeast(w[1..], t);
      assert t * t * (|w| as real) == t * t + t * t * m;
    }
  }

  /** Dividing by a positive count preserves a strict comparison, in both directions. */
  lemma MeanBelow(sum: real, n: real, c: real)
    requires n > 0.0
    ensures sum / n < c <==> sum < c * n
  {
    assert sum == (sum / n) * n;
    if sum / n < c {
      assert (c - sum / n) * n > 0.0;
    } else {
      assert (sum / n - c) * n >= 0.0;
    }
  }

  /**
   * The gate as the callback computes it: for a non-empty window whose RMS is
   * `rms` (the non-negative root of the mean square), the window is skipped
   * exactly when `rms < RmsThreshold`.
   */
  lemma GateMatchesRms(w: seq<real>, rms: real)
    requires |w| > 0 && rms >= 0.0
    requires rms * rms == SumSquares(w) / (|w| as real)
    ensures BelowThreshold(w) <==> rms < RmsThreshold
  {
    var t, n := RmsThreshold, |w| as real;
    MeanBelow(SumSquares(w), n, t * t);
    if rms < t {
      SquareBelow(rms, t);
    } else {
      SquareAtLeast(rms, t);
    }
  }

  /** A window whose every sample is quieter than the threshold is skipped. */
  lemma QuietSamplesBelowThreshold(w: seq<real>)
    requires |w| > 0
    requires forall i :: 0 <= i < |w| ==> -RmsThreshold < w[i] < RmsThreshold
    ensures BelowThreshold(w)
  {
    SumSquaresBelow(w, RmsThreshold);
  }

  /** A window whose every sample reaches the threshold in magnitude is classified. */
  lemma LoudSamplesPassGate(w: seq<real>)
    requires forall i :: 0 <= i < |w| ==> w[i] <= -RmsThreshold || RmsThreshold <= w[i]
    ensures !BelowThreshold(w)
  {
    SumSquaresAtLeast(w, RmsThreshold);
  }

  // ---------------------------------------------------------------------------
  // The tail of `infer`: frame pad/truncate and argmax

  /**
   * Brings a feature matrix to exactly `Frames` rows: a short one is padded
   * with zero rows at the end, a long one keeps its first `Frames` rows.
   */
  function FitFrames(spec: Spectrogram): (r: Spectrogram)
    ensures |r| == Frames
    ensures forall i :: 0 <= i < |r| && i < |spec| ==> r[i] == spec[i]
    ensures forall i :: |spec| <= i < |r| ==> r[i] == ZeroRow(MelBins)
  {
    var padded := if |spec| < Frames then spec + seq(Frames - |spec|, _ => ZeroRow(MelBins)) else spec;
    padded[..Frames]
  }

  /** `np.argmax`: the first index of a largest score. */
  function ArgMax(s: seq<real>): (i: nat)
    requires |s| > 0
    ensures i < |s|
    ensures forall j :: 0 <= j < |s| ==> s[j] <= s[i]
    ensures forall j :: 0 <= j < i ==> s[j] < s[i]
  {
    if |s| == 1 then 0
    else
      var k := ArgMax(s[..|s| - 1]);
      if s[|s| - 1] > s[k] then |s| - 1 else k
  }

  /** `infer`: the network's scores for the fitted features of a window, and their argmax. */
  function Infer(e: Engine, window: seq<real>): (r: (nat, Scores))
    ensures r.0 < |Labels|
    ensures r.1 == e.network(FitFrames(e.features(window)))
    ensures forall j :: 0 <= j < |Labels| ==> r.1[j] <= r.1[r.0]
    ensures forall j :: 0 <= j < r.0 ==> r.1[j] < r.1[r.0]
  {
    var scores := e.network(FitFrames(e.features(window)));
    (ArgMax(scores), scores)
  }

  /** The candidate of a window: the label of the top score and that score. */
  function Candidate(e: Engine, window: seq<real>): (d: Detection)
    ensures d.keyword in Labels
    ensures var (i, scores) := Infer(e, window);
      d.keyword == Labels[i] && d.confidence == scores[i] &&
      forall j :: 0 <= j < |scores| ==> scores[j] <= d.confidence
  {
    var (i, scores) := Infer(e, window);
    Detection(Labels[i], scores[i])
  }

  // ---------------------------------------------------------------------------
  // One callback, as a function of the old state

  /** The reference semantics of `audio_callback` for one block. */
  function Step(s: DetectorState, c: Chunk, e: Engine): (r: (DetectorState, Outcome))
    requires |s.ring| <= WindowSamples
    ensures |r.0.ring| <= WindowSamples
    ensures r.0.lastLabel == s.lastLabel
    ensures c.overflow ==> r == (s, Dropped)
    ensures !c.overflow ==> r.0.ring == LastN(s.ring + c.samples, WindowSamples)
    ensures !c.overflow ==> !r.1.Dropped?
    ensures !c.overflow ==> (r.1.Priming? <==> |r.0.ring| < WindowSamples)
    ensures !c.overflow ==>
      (r.1.Silent? <==> |r.0.ring| == WindowSamples && BelowThreshold(r.0.ring))
    ensures r.1.Inferred() <==>
      !c.overflow && |r.0.ring| == WindowSamples && !BelowThreshold(r.0.ring)
    ensures r.1.Inferred() ==> r.1.candidate == Candidate(e, r.0.ring)
    ensures r.1.Detected? <==> r.1.Inferred() && c.now - s.lastDetectTime >= CooldownSec
    ensures r.0.lastDetectTime == if r.1.Detected? then c.now else s.lastDetectTime
  {
    if c.overflow then (s, Dropped)
    else
      var ring := Extend(s.ring, c.samples);
      ExtendKeepsNewest(s.ring, c.samples);
      var s1 := s.(ring := ring);
      if |ring| < WindowSamples then (s1, Priming)
      else if BelowThreshold(ring) then (s1, Silent)
      else
        var d := Candidate(e, ring);
        if c.now - s.lastDetectTime >= CooldownSec then (s1.(lastDetectTime := c.now), Detected(d))
        else (s1, Suppressed(d))
  }

  /** A sequence of callbacks, one per block, and what each of them did. */
  function Run(s: DetectorState, chunks: seq<Chunk>, e: Engine): (r: (DetectorState, seq<Outcome>))
    requires |s.ring| <= WindowSamples
    ensures |r.0.ring| <= WindowSamples
    ensures |r.1| == |chunks|
    decreases |chunks|
  {
    if chunks == [] then (s, [])
    else
      var (s1, o) := Step(s, chunks[0], e);
      var (sf, outs) := Run(s1, chunks[1..], e);
      (sf, [o] + outs)
  }

  /** The samples of the blocks that were not dropped, in arrival order. */
  function Kept(chunks: seq<Chunk>): seq<real>
  {
    if chunks == [] then []
    else (if chunks[0].overflow then [] else chunks[0].samples) + Kept(chunks[1..])
  }

  // ---------------------------------------------------------------------------
  // Properties of runs

  lemma KeptAppend(ring: seq<real>, chunks: seq<Chunk>)
    requires chunks != [] && !chunks[0].overflow
    ensures ring + chunks[0].samples + Kept(chunks[1..]) == ring + Kept(chunks)
  {
    assert Kept(chunks) == chunks[0].samples + Kept(chunks[1..]);
  }

  /** Sliding-window invariant: the ring holds the newest kept samples, oldest dropped first. */
  lemma {:induction false} RunKeepsNewest(s: DetectorState, chunks: seq<Chunk>, e: Engine)
    requires |s.ring| <= WindowSamples
    ensures Run(s, chunks, e).0.ring == LastN(s.ring + Kept(chunks), WindowSamples)
    decreases |chunks|
  {
    if chunks == [] {
      assert s.ring + Kept(chunks) == s.ring;
    } else {
      var c, rest := chunks[0], chunks[1..];
      var s1 := Step(s, c, e).0;
      assert Run(s, chunks, e).0 == Run(s1, rest, e).0;
      RunKeepsNewest(s1, rest, e);
      if c.overflow {
        assert Kept(chunks) == Kept(rest);
      } else {
        var a, b := s.ring + c.samples, Kept(rest);
        assert s1.ring == LastN(a, WindowSamples);
        LastNAppend(a, b, WindowSamples);
        KeptAppend(s.ring, chunks);
      }
    }
  }

  /**
   * After a (re)start the ring holds exactly the newest min(seen, WindowSamples)
   * samples of the new session and nothing from an earlier one.
   */
  lemma SessionWindow(chunks: seq<Chunk>, e: Engine)
    ensures var ring := Run(Initial, chunks, e).0.ring;
      ring == LastN(Kept(chunks), WindowSamples) &&
      |ring| == Min(|Kept(chunks)|, WindowSamples)
  {
    RunKeepsNewest(Initial, chunks, e);
    assert Initial.ring + Kept(chunks) == Kept(chunks);
  }

  /**
   * Debounce: every accepted detection comes at least `CooldownSec` after the
   * previous one (or after the stored detection time), whatever the clock does.
   */
  lemma {:induction false} DetectionsSpaced(s: DetectorState, chunks: seq<Chunk>, e: Engine)
    requires |s.ring| <= WindowSamples
    ensures var outs := Run(s, chunks, e).1;
      forall j :: 0 <= j < |outs| && outs[j].Detected? ==>
        chunks[j].now - s.lastDetectTime >= CooldownSec
    ensures var outs := Run(s, chunks, e).1;
      forall i, j :: 0 <= i < j < |outs| && outs[i].Detected? && outs[j].Detected? ==>
        chunks[j].now - chunks[i].now >= CooldownSec
    decreases |chunks|
  {
    if chunks != [] {
      var (s1, o) := Step(s, chunks[0], e);
      var rest := chunks[1..];
      var outs := Run(s, chunks, e).1;
      var tail := Run(s1, rest, e).1;
      DetectionsSpaced(s1, rest, e);
      assert outs == [o] + tail;
      forall j | 1 <= j < |outs| && outs[j].Detected?
        ensures chunks[j].now - s1.lastDetectTime >= CooldownSec
      {
        assert outs[j] == tail[j - 1] && chunks[j] == rest[j - 1];
      }
      forall i, j | 0 <= i < j < |outs| && outs[i].Detected? && outs[j].Detected?
        ensures chunks[j].now - chunks[i].now >= CooldownSec
      {
        if i > 0 {
          assert outs[i] == tail[i - 1] && chunks[i] == rest[i - 1];
          assert outs[j] == tail[j - 1] && chunks[j] == rest[j - 1];
        }
      }
    }
  }

  /** Silence never reaches the network and never touches the cooldown state. */
  lemma {:induction false} SilenceNeverClassified(s: DetectorState, chunks: seq<Chunk>, e: Engine)
    requires |s.ring| <= WindowSamples
    requires forall i :: 0 <= i < |s.ring| ==> s.ring[i] == 0.0
    requires forall k, i :: 0 <= k < |chunks| && !chunks[k].overflow && 0 <= i < |chunks[k].samples| ==>
      chunks[k].samples[i] == 0.0
    ensures var (sf, outs) := Run(s, chunks, e);
      sf.lastDetectTime == s.lastDetectTime &&
      forall j :: 0 <= j < |outs| ==> !outs[j].Inferred()
    decreases |chunks|
  {
    if chunks != [] {
      var c := chunks[0];
      var (s1, o) := Step(s, c, e);
      if !c.overflow {
        var all := s.ring + c.samples;
        assert forall i :: 0 <= i < |all| ==> all[i] == 0.0 by {
          forall i | 0 <= i < |all| ensures all[i] == 0.0 {
            if i >= |s.ring| {
              assert all[i] == chunks[0].samples[i - |s.ring|];
            }
          }
        }
        if |s1.ring| == WindowSamples {
          ZeroWindowBelowThreshold(s1.ring);
        }
      }
      var rest := chunks[1..];
      assert forall k, i :: 0 <= k < |rest| && !rest[k].overflow && 0 <= i < |rest[k].samples| ==>
        rest[k].samples[i] == 0.0 by {
        forall k, i | 0 <= k < |rest| && !rest[k].overflow && 0 <= i < |rest[k].samples|
          ensures rest[k].samples[i] == 0.0 {
          assert rest[k] == chunks[k + 1];
        }
      }
      SilenceNeverClassified(s1, rest, e);
      var outs := Run(s, chunks, e).1;
      var tail := Run(s1, rest, e).1;
      assert outs == [o] + tail;
    }
  }

  /**
   * The cooldown boundary: after a detection at time t1, the next classified
   * window at t2 is reported exactly when t2 - t1 >= CooldownSec.
   */
  lemma CooldownBoundary(s: DetectorState, c1: Chunk, c2: Chunk, e: Engine)
    requires |s.ring| <= WindowSamples
    requires Step(s, c1, e).1.Detected?
    ensures var (s1, _) := Step(s, c1, e);
      var o2 := Step(s1, c2, e).1;
      o2.Inferred() ==> (o2.Detected? <==> c2.now - c1.now >= CooldownSec)
  {
  }

  // ---------------------------------------------------------------------------
  // The application object: `SimpleKWSApp`'s streaming state

  class KwsApp {
    var ring: seq<real>
    var lastLabel: Option<string>
    var lastDetectTime: real
    const engine: Engine

    ghost predicate Valid()
      reads this
    {
      |ring| <= WindowSamples
    }

    function State(): DetectorState
      reads this
    {
      DetectorState(ring, lastLabel, lastDetectTime)
    }

    /** `__init__` with an already loaded engine: empty ring, no label, time 0.0. */
    constructor (e: Engine)
      ensures Valid() && State() == Initial && engine == e
    {
      engine := e;
      ring := [];
      lastLabel := None;
      lastDetectTime := 0.0;
    }

    /** The state reset of `start_stream`; opening the audio stream is not modelled. */
    method StartStream()
      modifies this
      ensures Valid() && State() == Initial
    {
      ring := [];
      lastLabel := None;
      lastDetectTime := 0.0;
    }

    /** `audio_callback`: returns what the callback did; `Detected` is the event shown to the user. */
    method AudioCallback(block: seq<real>, overflow: bool, now: real) returns (out: Outcome)
      requires Valid()
      modifies this
      ensures Valid()
      ensures (State(), out) == Step(old(State()), Chunk(block, overflow, now), engine)
    {
      if overflow {
        return Dropped;
      }
      ring := Extend(ring, block);
      if |ring| < WindowSamples {
        return Priming;
      }
      if BelowThreshold(ring) {
        return Silent;
      }
      var d := Candidate(engine, ring);
      if now - lastDetectTime >= CooldownSec {
        lastDetectTime := now;
        return Detected(d);
      }
      return Suppressed(d);
    }
  }
}
