# bumblebee-hotword-node, modelled in Dafny

This project models the core of the Node.js hotword detector
`bumblebee-hotword-node`:

- the `BumblebeeNode` controller in `lib/bumblebee-node.js`;
- the stand-alone `transcoder` in `lib/transcoder.js`.

The controller holds a registry of keywords, each with an acoustic model
and a sensitivity. It connects to and starts the native keyword engine.
It takes audio chunks and buffers them after scaling float samples to the
int16 range. From that buffer it cuts 512-sample frames at 16 kHz, box
filtering the input down from whatever rate it arrives at. Each frame goes
to the engine. The controller emits `connect`, `disconnect`, `start`,
`stop`, `muted`, `hotword` and `data` events.

The transcoder reuses the same framing for a caller-chosen rate and frame
length. It also downsamples each chunk for voice-activity detection. It
returns the frames as little-endian int16 bytes, together with the last
keyword found in them.

Modules, in dependency order:

| file | module | what it holds |
|---|---|---|
| `basics.dfy` | `Basics` | `Option`, `Result`, `Pos`, sums, means, `Flatten`, arithmetic facts |
| `pcm.dfy` | `Pcm` | scaling by 32767, the `Int16Array` store (truncate, wrap mod 2^16), little-endian byte encoding and decoding |
| `boxes.dfy` | `Boxes` | a box filter over ascending cut points, shared by the resampler and the framer |
| `resample.dfy` | `Resample` | `downsampleBuffer` as a function, plus the loop as a method |
| `framer.dfy` | `Framer` | the framing loop, parameterised by (input rate, frame rate, frame length), as a function and as nested-loop methods |
| `registry.dfy` | `Registry` | the `hotwords` object as an insertion-ordered sequence of uniquely named entries; `addHotword`, `setSensitivity`, `initPorcupine` |
| `node.dfy` | `BumblebeeNode` | the controller as a pure state machine over a `Node` record with an event trace; its invariant `Valid`; the lifecycle properties |
| `transcoder.dfy` | `Transcoder` | `transcoder` and `reset`, with the module-level buffer passed in and returned |

Modelling choices:

- **Integer guards.** The loop guard `len * 16000 / rate > 512` is modelled
  as `len * 16000 > 512 * rate`. The slot bound
  `i < min(len, (k+1) * rate / 16000)` is modelled as
  `i < len && i * 16000 < (k+1) * rate`. A slot with no samples stores
  `0 / 0`, and an `Int16Array` stores NaN as 0, so the mean of an empty
  window is 0.
- **Rounding.** `Math.round(a / b)` for `a >= 0` is `(2a + b) / (2b)` in
  integer division.
- **Zero target rate.** When the source rate is positive, a
  `downsampleBuffer` target rate of 0 or `undefined` gives an empty output.
  The ratio is Infinity or NaN, so `newLength` is 0. When both rates are 0,
  `0 === 0` returns the input unchanged.
- **Throwing calls.** A call that throws returns `Err`. `addHotword`
  without data for a name that has no built-in model leaves the node as it
  was, and so does a `transcoder` call that asks for upsampling.
- **Engine.** The engine's `process` is the function parameter `Engine`.
  Whether the engine has loaded is the `loaded` argument of `connect` and
  `start`. The loader's `ready` notification is the `EngineReadyOp` step.
- **Asynchronous steps.** Starts issued while disconnected are queued in
  `deferredStarts`, standing for the `once('connect')` listeners. Each
  `connect()` made before the engine loaded adds one waiter to
  `readyWaiters`.
- **Data handler.** The first `_start` attaches the `data` handler, which
  the `attached` flag records. Before that, a chunk changes nothing. After
  that, chunks reach the node through `OnData` whether or not it is still
  recording. The handler does not look at `recording`, and `stop()` does
  not detach a stream the caller supplied.

The model follows `lib/bumblebee-node.js` in these behaviours a reader
might not expect:

- `stop()` keeps the engine instance. A later `start()` replaces it only
  when at least one keyword is registered.
- `disconnect()` leaves `recording` set.
- The engine's `ready` callback emits `connect` even after a
  `disconnect()`.
- There is no operation that removes a keyword.
- After `setHotword(null)`, every unmuted chunk without a detection emits
  `hotword` with a `null` payload (see "## Findings"). `ProcessAudio` keeps
  this behaviour; `ProcessAudioIntended` is the corrected variant.

## Model

| member | source | states |
|---|---|---|
| Pcm.ScaleSamplesAppend | lib/bumblebee-node.js:169-171 | scaling a chunk sample by sample commutes with concatenation, so appending scaled chunks is scaling the appended chunks |
| Pcm.Trunc | lib/bumblebee-node.js:192 | the integer conversion of a stored mean rounds toward zero: floor for non-negative values, ceiling for negative ones |
| Pcm.ToInt16 | lib/bumblebee-node.js:192 | the value an `Int16Array` element holds is in [-32768, 32767], is congruent to the truncated mean modulo 65536, and equals it when it fits |
| Pcm.EncodeInt16 | lib/transcoder.js:116-117 | an int16 value becomes two bytes that decode back to the same value |
| Pcm.EncodeSamples | lib/transcoder.js:116-117 | a frame's byte view has two bytes per sample and decodes back to the frame |
| Pcm.EncodeFrames | lib/transcoder.js:116-134 | the concatenated byte buffers have twice as many bytes as there are samples and decode back to all frames' samples in order |
| Pcm.EncodeFramesAppend | lib/transcoder.js:119-134 | encoding two runs of frames is the concatenation of their encodings |
| Pcm.EncodeFramesSlot | lib/transcoder.js:116-134 | frame i of equally long frames occupies bytes W*i up to W*i+W of the concatenation |
| Pcm.EncodeFramesSnoc | lib/transcoder.js:116-119 | encoding one more frame appends exactly that frame's bytes |
| Boxes.WindowsPartition | lib/transcoder.js:47-62 | consecutive windows over ascending cuts concatenate to the input between the first and the last cut, with no gap and no overlap |
| Boxes.BoxFilterPrefix | lib/bumblebee-node.js:184-194 | the box filter reads nothing past its last cut |
| Resample.RoundDivBounds | lib/transcoder.js:44 | the rounded quotient lies within one half of the exact quotient |
| Resample.CutStep | lib/transcoder.js:50-61 | when the target rate is lower, each window starts strictly after the previous one |
| Resample.CutInside | lib/transcoder.js:49-53 | every output window starts inside the input |
| Resample.FirstCut | lib/transcoder.js:48 | the first window starts at sample 0 |
| Resample.ResampleCutsAscending | lib/transcoder.js:47-62 | the window boundaries never decrease |
| Resample.Downsample | lib/transcoder.js:35-64 | equal rates return the input unchanged; a higher target rate is rejected; a lower one yields `round(n * target / source)` samples |
| Resample.DownsampleWindows | lib/transcoder.js:49-57 | output j is the mean of a non-empty window from `round(j*r)` to `min(n, round((j+1)*r))`, so `accum / count` never divides by zero |
| Resample.DownsamplePartition | lib/transcoder.js:47-62 | the windows taken together are the input up to the end of the last window, one window per output sample |
| Resample.DownsampleExample | lib/transcoder.js:35-64 | `[1, 2, 3, 4]` converted from rate 4 to rate 2 gives `[1.5, 3.5]` |
| Resample.WindowMean | lib/transcoder.js:52-57 | the inner accumulation loop returns the mean of its window |
| Resample.DownsampleBuffer | lib/transcoder.js:35-64 | the loop with its jumping input cursor computes the same result as the window definition, error case included |
| Framer.CeilDivBelow | lib/bumblebee-node.js:187 | the division-free slot guard `i * 16000 < (k+1) * rate` admits exactly the indices below the rounded-up slot bound |
| Framer.FrameCutMono | lib/bumblebee-node.js:184-194 | slot boundaries never decrease |
| Framer.FrameCutsAscending | lib/bumblebee-node.js:184-194 | the boundaries of all slots of a frame are ascending |
| Framer.SpanFits | lib/bumblebee-node.js:177-194 | while the outer guard holds, a frame consumes at least one sample and no more than are buffered |
| Framer.Frame | lib/bumblebee-node.js:178-194 | a frame has exactly the frame length and only int16 values |
| Framer.FramePrefix | lib/bumblebee-node.js:184-194 | a frame depends only on the samples it consumes |
| Framer.Drain | lib/bumblebee-node.js:177-200 | the consumed pieces followed by the remainder are the buffer; at exit `len * target <= frameLen * rate`; frames are produced exactly when the guard first holds; the loop stops only once the guard fails; each piece has the frame span and yields its frame; every frame holds only int16 values |
| Framer.DrainCons | lib/bumblebee-node.js:177-200 | one frame cut from the head, followed by the drain of the rest, keeps the pieces, the remainder and the frames aligned |
| Framer.DrainHead | lib/bumblebee-node.js:177-199 | when the guard holds, the drain is the head frame followed by the drain of the buffer with that frame's samples sliced off |
| Framer.FullFrameWaits | lib/bumblebee-node.js:177 | at equal rates, a buffer holding exactly one frame's worth is not framed yet, because the guard is strict |
| Framer.FrameWindows | lib/bumblebee-node.js:184-194 | inside a frame the slot windows are consecutive and cover the consumed samples exactly; slot k holds the int16 mean of its window |
| Framer.NoSampleDroppedOrDuplicated | lib/bumblebee-node.js:184-199 | every buffered sample lands in exactly one slot window of one frame, or stays in the remainder, in order |
| Framer.DrainSplit | lib/bumblebee-node.js:169-200 | draining after two chunks in two calls gives the same frames, pieces and remainder as one drain after both |
| Framer.AverageSlot | lib/bumblebee-node.js:185-192 | the innermost loop stops at the slot bound or the end of the buffer and stores the int16 mean of the samples it passed |
| Framer.CutFrame | lib/bumblebee-node.js:178-194 | the middle loop builds the frame of the window definition and leaves the input index at the frame span |
| Framer.DrainFrames | lib/bumblebee-node.js:177-200 | the outer loop with its slicing computes the frames and the remainder of the recursive definition |
| Registry.IndexOf | lib/bumblebee-node.js:26-29 | the position of a keyword is its first occurrence, and nothing is found for an unregistered name |
| Registry.IndexOfSameNames | lib/bumblebee-node.js:36-38 | registries with the same names in the same order find every name at the same position |
| Registry.Put | lib/bumblebee-node.js:26-29 | assigning `hotwords[name]` makes it map to the new entry and leaves every other key alone; a new name goes last, a known one keeps its place; names stay unique |
| Registry.LookupUpdate | lib/bumblebee-node.js:26-29 | overwriting an existing key changes the lookup of that key only |
| Registry.LookupAppend | lib/bumblebee-node.js:26-29 | adding a new key changes the lookup of that key only |
| Registry.AddHotword | lib/bumblebee-node.js:19-32 | throws exactly when no data is given and the name has no built-in model; otherwise stores the given or built-in model with the given sensitivity, or the global one when it is absent or 0; nothing else changes |
| Registry.Retune | lib/bumblebee-node.js:36-38 | every keyword keeps its name and model and gets the new sensitivity |
| Registry.SetSensitivity | lib/bumblebee-node.js:34-39 | sets the global sensitivity and that of every registered keyword, and keeps the set and order of names |
| Registry.LookupRetune | lib/bumblebee-node.js:36-38 | after retuning, each name resolves to its old entry with the new sensitivity |
| Registry.InitPorcupine | lib/bumblebee-node.js:88-98 | `keywordIndex`, the model array and the sensitivity array are parallel to the registry, one slot per keyword in registry order |
| Registry.SnapshotResolves | lib/bumblebee-node.js:92-100 | engine result i maps through `keywordIndex` to the keyword whose model and sensitivity the engine got at position i |
| BumblebeeNode.SetHotword | lib/bumblebee-node.js:15-17 | sets the filter and nothing else |
| BumblebeeNode.AddHotword | lib/bumblebee-node.js:19-32 | fails exactly when the registry call throws; on success only the registry changes, the name maps to the given or built-in model with `sensitivity \|\| this.sensitivity`, and every other name keeps its entry |
| BumblebeeNode.SetSensitivity | lib/bumblebee-node.js:34-39 | sets the global sensitivity and that of every registered keyword, keeps the keyword names and their models, registers nothing new, and changes only the registry |
| BumblebeeNode.SetMuted | lib/bumblebee-node.js:218-220 | sets the muted flag and nothing else |
| BumblebeeNode.StopNode | lib/bumblebee-node.js:41-45 | clears `recording` and emits `stop` even when not recording; the engine and the buffer stay |
| BumblebeeNode.DisconnectNode | lib/bumblebee-node.js:62-65 | clears `connected` and emits `disconnect`; `recording` is untouched |
| BumblebeeNode.Destroy | lib/bumblebee-node.js:67-70 | leaves the node neither recording nor connected, emitting `stop` then `disconnect`; the registry, filter, buffer, engine and queues are kept |
| BumblebeeNode.RunStart | lib/bumblebee-node.js:104-166 | a no-op while recording; otherwise starts recording, attaches the `data` handler, emits `start`, snapshots the registry into `keywordIndex`, builds the engine from the registry arrays when a keyword exists and keeps the old engine when none does, and uses `options.sampleRate` or 16000 |
| BumblebeeNode.RunStarts | lib/bumblebee-node.js:81-83 | of the queued starts only the first takes effect; once recording, the rest change nothing |
| BumblebeeNode.FireConnect | lib/bumblebee-node.js:50-51 | sets `connected`, emits `connect`, then runs the queued starts, of which the first wins (emitting `start`), and empties the queue; with nothing to start, `recording` is unchanged and only `connect` is emitted |
| BumblebeeNode.ConnectNode | lib/bumblebee-node.js:47-60 | a no-op when connected; connects at once when the engine has loaded; otherwise registers one more `ready` callback |
| BumblebeeNode.FireConnects | lib/bumblebee-node.js:54-57 | k `ready` callbacks emit k `connect` events; when starts were queued on an idle node the first callback also records and emits `start` right after its `connect`; afterwards the node is connected and nothing is queued; every other field is exactly as after the first callback alone |
| BumblebeeNode.EngineReady | lib/bumblebee-node.js:54-57 | every registered `ready` callback fires once, each emitting `connect`, and the first one runs the queued starts (`start` follows the first `connect`); afterwards no callback is left and, if any fired, the node is connected and every other field is exactly as after the first callback alone |
| BumblebeeNode.StartNode | lib/bumblebee-node.js:72-86 | a no-op while recording; starts at once when connected; otherwise queues the start behind `connect` and calls `connect()` |
| BumblebeeNode.ProcessPorcupine | lib/bumblebee-node.js:209-216 | reports a name exactly when an engine exists and its result is a valid index into `keywordIndex`, and the name is the one at that index |
| BumblebeeNode.LastTruthyIndex | lib/bumblebee-node.js:195-198 | reference definition: the last frame whose result is a non-empty name, or none exactly when no frame matched |
| BumblebeeNode.LastFromSpec | lib/bumblebee-node.js:195-198 | the running `if (r) hotwordDetected = r` update ends at the last truthy result, or at its start value when there is none |
| BumblebeeNode.LastFromAppend | lib/bumblebee-node.js:196-198 | one more frame result replaces the running detection exactly when it is truthy |
| BumblebeeNode.LastDetectedIsLast | lib/bumblebee-node.js:175-198 | a chunk's detection is absent exactly when no frame matched, and otherwise is the result of the last matching frame |
| BumblebeeNode.EmitsAsWritten | lib/bumblebee-node.js:202 | the source's test: with no filter it fires on any non-empty detection; with a `null` filter also when nothing was detected; with a keyword filter exactly on that keyword |
| BumblebeeNode.Emits | lib/bumblebee-node.js:202-204 | the intended test fires only on a non-empty detection: any one with no keyword filter, exactly the filtered keyword otherwise |
| BumblebeeNode.NullFilterEmitsNull | lib/bumblebee-node.js:202-204 | as written, after `setHotword(null)` a chunk with no detection emits `hotword`, which the intended test does not |
| BumblebeeNode.EmitsMatchesAsWritten | lib/bumblebee-node.js:202-204 | the intended test agrees with the source's test except on that input; it never reports a missing detection; with a keyword filter it reports exactly that keyword |
| BumblebeeNode.ProcessAudio | lib/bumblebee-node.js:168-207 | the frames' pieces and the new buffer make up the old buffer plus the scaled chunk; the buffer is left holding at most one frame's worth; the detection is the last truthy engine result over the frames; `hotword` carrying that detection (or `null`) is emitted once exactly when `hotwordDetected && !this.hotword \|\| this.hotword === hotwordDetected` holds, and not at all otherwise; nothing else changes |
| BumblebeeNode.ProcessAudioIntended | lib/bumblebee-node.js:168-207 | the same buffering and detection, but `hotword` is emitted only for a real detection that passes the filter |
| BumblebeeNode.IntendedDiffersOnlyOnNull | lib/bumblebee-node.js:202-204 | the intended variant reports the same detection and leaves the same state, except that with a `null` filter and no detection the source adds one `hotword(null)` event |
| BumblebeeNode.OnData | lib/bumblebee-node.js:149-162 | a muted node only emits `muted` and keeps its buffer; otherwise the chunk is processed and `data` follows with the detection and the handler's sample rate |
| BumblebeeNode.InitValid | lib/bumblebee-node.js:7-13 | a new node is disconnected, idle, has an empty trace and satisfies the invariant |
| BumblebeeNode.RunStartValid | lib/bumblebee-node.js:88-109 | `_start` keeps the invariant: the engine's arrays have the length of `keywordIndex`, and every index names a registered keyword |
| BumblebeeNode.FireConnectValid | lib/bumblebee-node.js:50-51 | emitting `connect` keeps the invariant |
| BumblebeeNode.FireConnectsValid | lib/bumblebee-node.js:54-57 | any number of `ready` callbacks keep the invariant |
| BumblebeeNode.AddHotwordValid | lib/bumblebee-node.js:19-32 | adding a keyword keeps names unique and keeps every name in `keywordIndex` registered |
| BumblebeeNode.SetSensitivityValid | lib/bumblebee-node.js:34-39 | retuning keeps the invariant |
| BumblebeeNode.StartValid | lib/bumblebee-node.js:72-86 | `start` keeps the invariant, including that starts are queued only while disconnected and idle |
| BumblebeeNode.ConnectValid | lib/bumblebee-node.js:47-60 | `connect` keeps the invariant |
| BumblebeeNode.EngineReadyValid | lib/bumblebee-node.js:54-57 | the loader's `ready` notification keeps the invariant |
| BumblebeeNode.OnDataValid | lib/bumblebee-node.js:149-162 | an incoming chunk keeps the invariant |
| BumblebeeNode.ApplyValid | lib/bumblebee-node.js:15-220 | every public operation and every chunk keeps the invariant |
| BumblebeeNode.RunValid | lib/bumblebee-node.js:15-220 | every state reachable by a sequence of operations satisfies the invariant |
| BumblebeeNode.FireConnectsAppend | lib/bumblebee-node.js:54-57 | `ready` callbacks only append events |
| BumblebeeNode.ApplyAppends | lib/bumblebee-node.js:15-220 | no operation removes or reorders an emitted event |
| BumblebeeNode.RunAppends | lib/bumblebee-node.js:15-220 | the trace of a run extends the trace it started from |
| BumblebeeNode.StartOnce | lib/bumblebee-node.js:72-86 | connected or loaded, `start` records at once, emitting `connect` first when it had to connect, snapshots the registry, and a second `start` changes nothing |
| BumblebeeNode.StartWaitsForEngine | lib/bumblebee-node.js:47-86 | before the engine loads, `start` records and emits nothing; at `ready` the node connects and starts with the first pending options, emitting `connect` then `start` once |
| BumblebeeNode.StopThenStart | lib/bumblebee-node.js:41-86 | on a connected node, `stop` then `start` records again at once, without reconnecting, emitting `stop` then `start` |
| BumblebeeNode.ReportedNameRegistered | lib/bumblebee-node.js:209-216 | every name the engine lookup reports is a registered keyword |
| BumblebeeNode.HotwordRegistered | lib/bumblebee-node.js:195-206 | the detection a chunk reports is a registered keyword |
| BumblebeeNode.EngineSlotsMatchRegistry | lib/bumblebee-node.js:88-102 | after `start`, engine result i names the keyword whose registry entry holds the i-th model and sensitivity the engine was created with |
| BumblebeeNode.NoKeywordsNoDetection | lib/bumblebee-node.js:99-101 | with no keyword registered no engine exists, so nothing is detected: a chunk yields `muted`, or a `data` event with no detection, preceded by `hotword(null)` exactly when the filter is `null` |
| BumblebeeNode.NullFilterTrace | lib/bumblebee-node.js:202-204 | a new node given `setHotword(null)`, then started with the engine loaded, emits `connect`, `start`, and on its first chunk `hotword(null)` followed by `data`, with no keyword registered |
| BumblebeeNode.FilterSuppressesOthers | lib/bumblebee-node.js:202-204 | with a keyword filter set, every `hotword` event a chunk raises names that keyword |
| Transcoder.FrameRate | lib/transcoder.js:76 | the frame rate is the target rate, or 16000 when it is absent |
| Transcoder.ChunkLength | lib/transcoder.js:77 | the frame length is the chunk size, or 512 when it is absent |
| Transcoder.Transcode | lib/transcoder.js:66-138 | fails exactly on upsampling; `vad` is the downsampled chunk; with both rates 0 and nothing to frame every output is empty; otherwise consumed pieces plus the new buffer are the old buffer plus the scaled chunk, the buffer ends holding at most one frame's worth, `deepspeech` decodes to the frames' samples in order, and `hotword` is the last truthy engine result when `bumblebee.enabled`, else absent |
| Transcoder.Reset | lib/transcoder.js:140-142 | the buffer is emptied, so the next call frames only its own chunk |
| Transcoder.VadIgnoresBuffer | lib/transcoder.js:70 | `vad`, and whether the call succeeds, do not depend on the buffered samples |
| Transcoder.DeepspeechLength | lib/transcoder.js:82-134 | `deepspeech` holds `2 * chunkSize` bytes per emitted frame |
| Transcoder.DeepspeechFrameOrder | lib/transcoder.js:116-134 | frame i sits at bytes `2*chunkSize*i` up to `2*chunkSize*(i+1)` of `deepspeech`, in little-endian order |
| Transcoder.TranscodeStreams | lib/transcoder.js:72-125 | two calls in a row emit the bytes and leave the buffer of one drain over both chunks; no frame is lost or repeated at the seam |
| Transcoder.EncodeAndDetect | lib/transcoder.js:108-134 | the walk over the frames returns the concatenated byte views of all frames and, when enabled, the last truthy engine result over them |
| Transcoder.TranscodeChunk | lib/transcoder.js:66-138 | the call as the source performs it, walking the frames while appending bytes and updating `hotword`, computes `Transcode` |

## Left out

- Audio capture: the recorder, program and device selection, the `options.stream` and `options.record` choices, and the stream `error` listener (lib/bumblebee-node.js:111-147) are I/O. `OnData` stands for a chunk arriving on an attached stream.
- BumblebeeNode.RunStart: marks the `data` handler attached on every start. With `record: false` and no `options.stream`, the source attaches none.
- Several attached streams: each `_start` attaches its own data handler with its own sample rate. The model keeps only the latest rate.
- `pcm-convert` (lib/bumblebee-node.js:157) is a foreign library. `OnData` takes the chunk already converted to float samples, and the `data` event carries that chunk instead of the raw int16 buffer.
- The native engine: `Porcupine.create`, `process`, `isLoaded` and the loader are parameters (`Engine`, `loaded`, `EngineReadyOp`). A failure inside `Porcupine.create` is not modelled.
- EventEmitter mechanics: listener order, other listeners on `connect`, and `console.log` output. An event trace stands for them.
- JavaScript object key order puts integer-like keys first, in numeric order. `name in Porcupine.defaultHotwords` also matches inherited properties such as `toString`. Keywords are modelled as plain strings in insertion order.
- `bumblebee.enabled` is not defined by `BumblebeeNode`. `Transcode` takes it as the `enabled` argument.
- Negative sample rates are left out, and so is an `undefined` source rate to `transcoder`. For that rate the source returns an empty `vad`, or the chunk itself when the target is also `undefined`, and frames nothing because its guard is NaN, so the buffer only grows.
- Transcoder.Transcode: with both rates 0, the source's framing guard is `len * 16000 / 0`. When the old buffer or the chunk holds a sample, that is Infinity, and no slot bound ever admits an index, so the loop never ends. `Transcode` therefore requires a positive rate or an empty buffer and chunk. In the empty case the guard is NaN and all outputs are empty, which is modelled.
- The byte order of `Buffer.from(int16Array.buffer)` follows the platform. Little-endian is assumed.
- Resample.Downsample: window bounds and the output length use exact rational arithmetic. The source divides in double precision first, which can move a bound whose exact value lies within rounding error of a half, and the `vad` output is stored as `Float32Array` values.
- Framer.Drain: the guards are compared exactly. The source's floating-point quotients agree with them while the buffer length times the rate stays below 2^53.
- Framer.Frame: slot sums and means are exact real numbers. The source accumulates doubles (`sum += …`, `sum / num`) before the `Int16Array` store truncates them, so a mean within rounding error of an integer can land on the neighbouring value.
- Pcm.ScaleSamples: samples are multiplied by 32767 as real numbers. The source rounds each product to a double.

## Findings

| source | as written | input that shows it | evidently intended | confidence | as-written member | corrected member |
|---|---|---|---|---|---|---|
| lib/bumblebee-node.js:202-204 | `hotwordDetected && !this.hotword \|\| this.hotword === hotwordDetected` | call `setHotword(null)`, then feed a chunk in which no frame matches: `hotwordDetected` is `null`, so `null === null` emits `hotword` with a `null` payload on every such chunk | emit only a real detection that passes the filter, treating `null` like an unset filter | not executed | BumblebeeNode.NullFilterTrace | BumblebeeNode.IntendedDiffersOnlyOnNull |

The test exactly as the source writes it is `BumblebeeNode.EmitsAsWritten`.
`ProcessAudio`, and through it `OnData`, `Apply` and `Run`, uses that test.
`NullFilterEmitsNull` and `NullFilterTrace` exhibit the input.
The intended test is `BumblebeeNode.Emits`. `ProcessAudioIntended` uses it.
`EmitsMatchesAsWritten` and `IntendedDiffersOnlyOnNull` prove that the two tests differ on that input only, and that the intended one reports nothing but real detections.
