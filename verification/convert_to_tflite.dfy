/**
 * The decision and length rules of the model-conversion script: the
 * `--mode` choice and the converter settings it selects, and the
 * representative dataset, whose examples are audio clips brought to a
 * fixed length and spectrograms padded to at least the network's frame count.
 *
 * Reading and resampling audio files and the log-mel feature pipeline are
 * opaque functions held in a `Preprocessor` value.
 */
module ConvertToTflite {
  import opened Wrappers
  import opened Shapes
  import RealtimeSpot

  const SampleRate: nat := 16000
  /** `int(16000 * 0.7)`: the clip length fed to the feature pipeline. */
  const Samples: nat := 11200
  const MelBins: nat := 70
  const Frames: nat := 69
  /** The default `num_samples` of the representative data generator. */
  const DefaultNumSamples: nat := 100

  /** A time-major feature matrix: one row of `MelBins` values per frame. */
  type Spectrogram = s: seq<seq<real>> | forall i :: 0 <= i < |s| ==> |s[i]| == MelBins witness []

  /** The preprocessing constants agree with those of the real-time pipeline. */
  lemma ConstantsMatchRuntime()
    ensures Samples == RealtimeSpot.WindowSamples
    ensures MelBins == RealtimeSpot.MelBins && Frames == RealtimeSpot.Frames
  {
  }

  // ---------------------------------------------------------------------------
  // Length normalisation

  /**
   * Brings a clip to exactly `Samples` samples: a short clip is padded with
   * zeros at the end, a long one keeps its first `Samples` samples.
   */
  function FitSamples(wav: seq<real>): (r: seq<real>)
    ensures |r| == Samples
    ensures |wav| < Samples ==> r[..|wav|] == wav
    ensures forall i :: |wav| <= i < Samples ==> r[i] == 0.0
    ensures |wav| >= Samples ==> r == wav[..Samples]
  {
    if |wav| < Samples then wav + seq(Samples - |wav|, _ => 0.0) else wav[..Samples]
  }

  /** Normalising a clip that already has the right length changes nothing. */
  lemma FitSamplesIdempotent(wav: seq<real>)
    ensures FitSamples(FitSamples(wav)) == FitSamples(wav)
  {
    var r := FitSamples(wav);
    assert r[..Samples] == r;
  }

  /**
   * Pads the frame axis with zero rows at the end up to `Frames`; a
   * spectrogram that already has `Frames` rows or more is left as it is.
   */
  function PadFrames(spec: Spectrogram): (r: Spectrogram)
    ensures |r| == Max(|spec|, Frames)
    ensures r[..|spec|] == spec
    ensures forall i :: |spec| <= i < |r| ==> r[i] == ZeroRow(MelBins)
  {
    if |spec| < Frames then spec + seq(Frames - |spec|, _ => ZeroRow(MelBins)) else spec
  }

  /**
   * The export pipeline's frame padding agrees with the runtime's pad/truncate
   * exactly when the spectrogram has at most `Frames` rows; a longer one keeps
   * all its rows here and is cut to `Frames` rows at runtime.
   */
  lemma PadFramesMatchesRuntime(spec: Spectrogram)
    ensures PadFrames(spec) == RealtimeSpot.FitFrames(spec) <==> |spec| <= Frames
  {
    var p, f := PadFrames(spec), RealtimeSpot.FitFrames(spec);
    if |spec| <= Frames {
      assert |p| == |f|;
      forall i | 0 <= i < |p| ensures p[i] == f[i] {
        if i < |spec| {
          assert p[i] == p[..|spec|][i];
        }
      }
    } else {
      assert |p| != |f|;
    }
  }

  // ---------------------------------------------------------------------------
  // The representative dataset

  /** A sound file as read from disk: its (mono) samples and its sample rate. */
  datatype Wav = Wav(samples: seq<real>, rate: nat)

  /** The numeric collaborators: resampling to `SampleRate` and the log-mel features. */
  datatype Preprocessor = Preprocessor(
    resample: (seq<real>, nat) -> seq<real>,
    features: seq<real> -> Spectrogram)

  /** One representative example: resample if needed, fit the length, extract, pad frames. */
  function Example(w: Wav, p: Preprocessor): (r: Spectrogram)
    ensures var clip := if w.rate != SampleRate then p.resample(w.samples, w.rate) else w.samples;
      var spec := p.features(FitSamples(clip));
      |r| == Max(|spec|, Frames) && r[..|spec|] == spec &&
      forall i :: |spec| <= i < |r| ==> r[i] == ZeroRow(MelBins)
  {
    var clip := if w.rate != SampleRate then p.resample(w.samples, w.rate) else w.samples;
    PadFrames(p.features(FitSamples(clip)))
  }

  /**
   * `representative_data_gen`: the examples of at most `numSamples` files,
   * taken in the order the directory listing gives them.
   */
  method RepresentativeData(files: seq<Wav>, numSamples: nat, p: Preprocessor)
    returns (batches: seq<Spectrogram>)
    ensures |batches| == Min(|files|, numSamples)
    ensures forall i :: 0 <= i < |batches| ==> batches[i] == Example(files[i], p)
  {
    var selected := files[..Min(|files|, numSamples)];
    batches := [];
    for k := 0 to |selected|
      invariant |batches| == k
      invariant forall i :: 0 <= i < k ==> batches[i] == Example(selected[i], p)
    {
      batches := batches + [Example(selected[k], p)];
    }
  }

  // ---------------------------------------------------------------------------
  // Conversion modes

  datatype Mode = Float32 | Dynamic | Float16

  datatype ArgError = InvalidChoice(value: string)

  function ModeName(m: Mode): string
  {
    match m
    case Float32 => "float32"
    case Dynamic => "dynamic"
    case Float16 => "float16"
  }

  /** `--mode`: one of three choices, `float32` when the option is absent. */
  function ParseMode(arg: Option<string>): (r: Result<Mode, ArgError>)
    ensures arg.None? ==> r == Success(Float32)
    ensures arg.Some? ==> (r.Success? <==> arg.value in {"float32", "dynamic", "float16"})
    ensures arg.Some? && r.Success? ==> ModeName(r.value) == arg.value
    ensures r.Failure? ==> r.error == InvalidChoice(arg.value)
  {
    match arg
    case None => Success(Float32)
    case Some(v) =>
      if v == "float32" then Success(Float32)
      else if v == "dynamic" then Success(Dynamic)
      else if v == "float16" then Success(Float16)
      else Failure(InvalidChoice(v))
  }

  /** Every mode's name parses back to that mode. */
  lemma ParseModeName(m: Mode)
    ensures ParseMode(Some(ModeName(m))) == Success(m)
  {
    match m
    case Float32 =>
    case Dynamic =>
      assert ModeName(m) != "float32";
    case Float16 =>
      assert ModeName(m) != "float32" && ModeName(m) != "dynamic";
  }

  datatype Optimization = OptimizeDefault
  datatype TargetType = Float16Type

  /** A representative dataset: the generator over a directory, with its default file cap. */
  datatype Dataset = Dataset(root: string, numSamples: nat)

  /** The converter options that the conversion script sets. */
  datatype Settings = Settings(
    optimizations: seq<Optimization>,
    supportedTypes: seq<TargetType>,
    representative: Option<Dataset>)

  /** The options a fresh converter has before the mode is applied. */
  const DefaultSettings: Settings := Settings([], [], None)

  /**
   * The mode table: no options for `float32`, default optimisation for the
   * other two, float16 weights for `float16`, and a representative dataset
   * only for a quantising mode with a non-empty `--reproot`.
   */
  function ModeSettings(mode: Mode, reproot: Option<string>): (r: Settings)
    ensures mode == Float32 <==> r == DefaultSettings
    ensures r.optimizations == if mode == Float32 then [] else [OptimizeDefault]
    ensures r.supportedTypes == if mode == Float16 then [Float16Type] else []
    ensures r.representative.Some? <==> mode != Float32 && reproot.Some? && reproot.value != ""
    ensures r.representative.Some? ==>
      r.representative.value == Dataset(reproot.value, DefaultNumSamples)
  {
    var dataset := if reproot.Some? && reproot.value != "" then Some(Dataset(reproot.value, DefaultNumSamples)) else None;
    match mode
    case Float32 => DefaultSettings
    case Dynamic => Settings([OptimizeDefault], [], dataset)
    case Float16 => Settings([OptimizeDefault], [Float16Type], dataset)
  }

  /** `TFLiteConverter`: the option fields the script assigns. */
  class Converter {
    var optimizations: seq<Optimization>
    var supportedTypes: seq<TargetType>
    var representative: Option<Dataset>

    function Options(): Settings
      reads this
    {
      Settings(optimizations, supportedTypes, representative)
    }

    /** `from_keras_model`: a converter with no options set. */
    constructor FromKerasModel()
      ensures Options() == DefaultSettings
    {
      optimizations := [];
      supportedTypes := [];
      representative := None;
    }
  }

  /** The set-up part of `main`: a fresh converter configured for the mode. */
  method SetUpConverter(mode: Mode, reproot: Option<string>) returns (c: Converter)
    ensures fresh(c)
    ensures c.Options() == ModeSettings(mode, reproot)
  {
    c := new Converter.FromKerasModel();
    if mode == Dynamic {
      c.optimizations := [OptimizeDefault];
      if reproot.Some? && reproot.value != "" {
        c.representative := Some(Dataset(reproot.value, DefaultNumSamples));
      }
    } else if mode == Float16 {
      c.optimizations := [OptimizeDefault];
      c.supportedTypes := [Float16Type];
      if reproot.Some? && reproot.value != "" {
        c.representative := Some(Dataset(reproot.value, DefaultNumSamples));
      }
    }
  }
}
