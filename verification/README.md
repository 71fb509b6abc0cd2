# Keyword spotting: streaming detector and conversion rules

A Dafny model of the logic in a small keyword-spotting demo. The demo has
two parts.

**The real-time detector** (`realtime_spot.py`, module `RealtimeSpot`). An
audio callback receives capture blocks. It drops any block that the capture
layer flags as overflowed. It appends the samples to a bounded deque that
holds one 0.7 s window (11200 samples at 16 kHz), and waits until that
window is full. It skips windows whose RMS energy is below 0.03. It
classifies the rest with a TFLite network over a log-mel spectrogram that is
padded or truncated to 69 frames. A result is reported only when 3 s have
passed since the last reported detection.

- The application object is the class `KwsApp`. It has the ring buffer,
  the last label and the last detection time as fields. Its constructor,
  `StartStream` and `AudioCallback` methods update those fields.
- `AudioCallback` is proved against the reference function `Step`.
- Run-level properties are proved about `Run`, which chains `Step` over a
  sequence of blocks: the sliding-window contents, the cooldown spacing of
  reported detections, and that silence never reaches the network.
- The feature pipeline and the network are opaque function values in an
  `Engine`. The clock reading is a field of each `Chunk`.

**The conversion script** (`convert_to_tflite.py`, module `ConvertToTflite`):

- `FitSamples` pads or truncates a clip to 11200 samples.
- `PadFrames` pads the frame axis up to 69 rows and never truncates.
- `RepresentativeData` models the representative-data generator as a loop
  over at most `num_samples` files, in listing order.
- `ParseMode` models the `--mode` option.
- `ModeSettings` is the table from mode to converter options, and
  `SetUpConverter` sets those options on a `Converter` object.

Two behaviours of the code are modelled as written:

- Stopping the stream does not clear the detector state. Only
  `start_stream` resets it, so that is the only reset modelled.
- The export pipeline pads frames but never truncates them. The runtime
  does both. `PadFramesMatchesRuntime` states exactly when the two agree.

Samples and timestamps are `real`. The energy gate `sqrt(mean(w^2)) <
0.03` is stated squared and multiplied out as `sum(w^2) < 0.03^2 * n`.
`GateMatchesRms` proves this equivalent for a non-empty window, and the
callback only applies the gate to a full window.

A spectrogram is typed as a sequence of frames, each exactly 70 mel bins
wide (`n_mels=70` in both scripts), so the feature functions and the frame
padding keep that width.

## Model

| member | source | states |
|---|---|---|
| `RealtimeSpot.LoadModel` | realtime_spot.py:53-61 | loading fails exactly when the model file does not exist or building/allocating the interpreter fails; a missing file gives an error naming the path before the interpreter is tried, otherwise the interpreter's own outcome (error or loaded network) is returned |
| `RealtimeSpot.Push` | realtime_spot.py:45 | appending one sample to the bounded deque gives the newest `WindowSamples` samples of old contents plus the sample (oldest dropped first when full) |
| `RealtimeSpot.Extend` | realtime_spot.py:102 | pushing a block's samples one at a time never lets the ring exceed 11200 samples |
| `RealtimeSpot.ExtendKeepsNewest` | realtime_spot.py:102 | `extend` of a block leaves exactly the newest min(total, 11200) samples of ring + block, in arrival order |
| `RealtimeSpot.GateMatchesRms` | realtime_spot.py:106-108 | for a non-empty window whose RMS is the non-negative root of the mean square, the gate skips the window iff that RMS is below 0.03 |
| `RealtimeSpot.ZeroWindowBelowThreshold` | realtime_spot.py:106-109 | an all-zero non-empty window is always below the RMS threshold, so it is never classified |
| `RealtimeSpot.QuietSamplesBelowThreshold` | realtime_spot.py:106-109 | a window whose every sample has magnitude below 0.03 is skipped by the energy gate |
| `RealtimeSpot.LoudSamplesPassGate` | realtime_spot.py:106-109 | a window whose every sample has magnitude at least 0.03 passes the energy gate |
| `RealtimeSpot.FitFrames` | realtime_spot.py:129-131 | the feature matrix has exactly 69 rows; the first min(n, 69) rows are the input's, the rest are zero rows of 70 mel bins |
| `RealtimeSpot.ArgMax` | realtime_spot.py:135 | the index is in range, its score is at least every other score, and every earlier score is strictly smaller (first maximum, as `np.argmax`) |
| `RealtimeSpot.Infer` | realtime_spot.py:120-135 | the scores are the network's output on the frame-fitted features of the window, and the index is a first maximum of them, below the number of labels |
| `RealtimeSpot.Candidate` | realtime_spot.py:111-113 | the candidate label is `LABELS[idx]` for the argmax index and its confidence is `scores[idx]`, the largest score |
| `RealtimeSpot.Step` | realtime_spot.py:98-118 | overflow leaves the state unchanged and yields no detection; otherwise the block is never dropped, the ring becomes the newest samples, the outcome is priming iff the ring is not yet full and silent iff it is full but below the threshold; inference runs iff the ring is full and not below the threshold (also during cooldown); a detection is reported iff inference ran and now - last >= 3.0, and only then does the last detection time become now, so a suppressed candidate leaves no backlog; the last label never changes |
| `RealtimeSpot.Run` | realtime_spot.py:98-118 | a sequence of callbacks yields one outcome per block and keeps the ring within capacity |
| `RealtimeSpot.RunKeepsNewest` | realtime_spot.py:99-102 | over any sequence of callbacks the ring equals the newest 11200 samples of the previous ring followed by every non-overflow block, so it never exceeds the capacity |
| `RealtimeSpot.SessionWindow` | realtime_spot.py:77-104 | after a (re)start the ring holds exactly the newest min(seen, 11200) samples of the new session and none from an earlier one |
| `RealtimeSpot.DetectionsSpaced` | realtime_spot.py:114-118 | every reported detection is at least the cooldown after the stored detection time and after every earlier reported detection, whatever the clock readings |
| `RealtimeSpot.SilenceNeverClassified` | realtime_spot.py:99-109 | with an all-zero ring and all-zero non-overflow blocks (overflowed blocks may hold anything), no callback invokes the network and the last detection time is unchanged |
| `RealtimeSpot.CooldownBoundary` | realtime_spot.py:116-117 | after a detection at t1, the next classified window at t2 is reported exactly when t2 - t1 >= 3.0 |
| `RealtimeSpot.KwsApp.constructor` | realtime_spot.py:44-48 | a new application has an empty ring, no last label and last detection time 0.0 |
| `RealtimeSpot.KwsApp.StartStream` | realtime_spot.py:77-82 | starting a stream resets the ring to empty, the last label to none and the last detection time to 0.0 |
| `RealtimeSpot.KwsApp.AudioCallback` | realtime_spot.py:98-118 | the new fields and the returned outcome are exactly those of `Step` on the old fields; the ring stays within capacity |
| `ConvertToTflite.ConstantsMatchRuntime` | convert_to_tflite.py:27-35 | the export script's clip length, mel-bin count and frame count equal the real-time detector's window length, mel-bin count and frame count |
| `ConvertToTflite.FitSamples` | convert_to_tflite.py:46-49 | the clip has exactly 11200 samples; a shorter one keeps its samples as a prefix followed by zeros; a longer one keeps its first 11200 samples |
| `ConvertToTflite.FitSamplesIdempotent` | convert_to_tflite.py:46-49 | normalising an already normalised clip changes nothing |
| `ConvertToTflite.PadFrames` | convert_to_tflite.py:55-56 | the result has max(n, 69) rows, starts with the input unchanged (never truncated), and the added rows are zero rows |
| `ConvertToTflite.PadFramesMatchesRuntime` | convert_to_tflite.py:55-56 | export-time padding equals the runtime's pad/truncate iff the spectrogram has at most 69 frames |
| `ConvertToTflite.Example` | convert_to_tflite.py:44-56 | an example is the spectrogram of the rate-corrected, length-normalised clip, unchanged in its first rows and padded with zero rows of 70 mel bins up to 69 frames |
| `ConvertToTflite.RepresentativeData` | convert_to_tflite.py:38-57 | yields min(files, num_samples) examples, the i-th being the example of the i-th file in listing order |
| `ConvertToTflite.ParseMode` | convert_to_tflite.py:64 | an absent `--mode` is `float32`; a given one is accepted iff it is `float32`, `dynamic` or `float16`, and then names the mode; anything else is an invalid-choice error |
| `ConvertToTflite.ParseModeName` | convert_to_tflite.py:64 | every mode's name parses back to that mode |
| `ConvertToTflite.ModeSettings` | convert_to_tflite.py:75-84 | `float32` sets nothing; `dynamic` sets the default optimisation; `float16` adds float16 supported types; a representative dataset over `--reproot` (100 files) is attached iff the mode quantises and `--reproot` is non-empty |
| `ConvertToTflite.Converter.FromKerasModel` | convert_to_tflite.py:73 | a fresh converter has no optimisations, no supported types and no representative dataset |
| `ConvertToTflite.SetUpConverter` | convert_to_tflite.py:72-84 | the converter's options after the mode branches are exactly `ModeSettings` of the mode and `--reproot` |

## Left out

- Mel spectrogram, `log1p`, mean/std normalisation and transpose are librosa and numpy floating-point work. They are the opaque `features` function of `Engine` and `Preprocessor`. Because of this the model cannot compare frame counts: with librosa's defaults the export pipeline's framing differs from the runtime's `center=False`.
- The TFLite interpreter (`set_tensor`, `invoke`, `get_tensor`) is the opaque `network` function. Its output shape is fixed to one score per label by the `Scores` type. Building and allocating it is the opaque `open` function of `LoadModel`, which either yields the network or fails.
- Floating-point arithmetic is not modelled: samples, scores and times are exact reals, and there are no float32 rounding effects and no NaN.
- Only the first input channel (`indata[:, 0]`) is modelled: a `Chunk` carries that channel's samples.
- The capture stream is not modelled: `sd.InputStream` creation, `start`, `stop_stream`, `close` and the device's block size.
- The clock is not modelled: `time.time()` is the `now` field of each `Chunk`.
- The presentation layer is not modelled. The `self.after` handoff to the Tk thread and `show_result` are represented only by the `Detected` outcome. In particular, `show_result` stops the stream after the first displayed result, so later callbacks of that session do not happen; `Run` does not stop there.
- All Tk and PyQt layout, `create_ui`, `on_close` and the message box text are not modelled. `convert_to_wav.py` is not part of this model.
- `keyword_spotting_pc.py` and `keyword_spotting_rpi.py` are not part of this model. They record once, extract features, invoke the network and take an argmax, and contain no logic beyond `Infer`.
- Reading WAV files is not modelled: `glob`, `sf.read`, the multi-channel mean and `librosa.resample`. A file is a `Wav` value, already mono, and resampling is an opaque function.
- `RepresentativeData` returns all examples at once rather than yielding them lazily. The batch and channel axes and the `float32` cast of each yielded tensor are not modelled.
- Loading the Keras model, `converter.convert()`, writing the output file and the progress `print` calls are foreign calls or I/O and are not modelled.
- The required `--h5` and `--out` options are not modelled; they are argparse I/O.
