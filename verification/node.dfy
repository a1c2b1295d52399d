/** The `BumblebeeNode` controller of lib/bumblebee-node.js as a pure state
    machine: every public operation and every incoming audio chunk maps a
    node state to the next one, and the events the node emits are appended
    to a trace. */
module BumblebeeNode {
  import opened Basics
  import opened Pcm
  import opened Framer
  import Registry

  /** `PV_SAMPLE_RATE` and `PV_FRAME_LENGTH`: the engine's fixed frame format. */
  const SampleRate: Pos := 16000
  const FrameLength: Pos := 512

  /** `this.hotword`: never set (undefined), set to `null`, or a string. */
  datatype Filter = Unset | Null | Named(name: string)

  /** The arrays an engine instance was created with. */
  datatype EngineConfig = EngineConfig(models: seq<Registry.Model>, sensitivities: seq<real>)

  /** The native engine's `process(frame)`: a keyword index, or -1. */
  type Engine = (EngineConfig, seq<int>) -> int

  /** The part of `start(options)` that reaches the core: `options.sampleRate`,
      0 when absent. */
  datatype StartOptions = StartOptions(sampleRate: nat)

  datatype Event =
    | Connect
    | Disconnect
    | Start
    | Stop
    | Muted
    // the payload is `hotwordDetected`, which is `null` (None) when the
    // `this.hotword === hotwordDetected` test fires with nothing detected
    | Hotword(name: Option<string>)
    | Data(chunk: seq<real>, sampleRate: Pos, hotword: Option<string>)

  datatype Node = Node(
    registry: Registry.Registry,
    filter: Filter,
    inputBuffer: seq<real>,
    connected: bool,
    recording: bool,
    muted: bool,
    keywordIndex: seq<string>,
    engine: Option<EngineConfig>,
    // whether some `_start` has attached a `data` handler to a stream
    attached: bool,
    // the rate the data handler installed by the latest `_start` uses
    sampleRate: Pos,
    // `once('connect')` listeners queued by `start` before the node connected
    deferredStarts: seq<StartOptions>,
    // `loader.once('ready')` callbacks queued by `connect` before the engine loaded
    readyWaiters: nat,
    events: seq<Event>)

  /** A freshly constructed node. */
  const Init: Node := Node(Registry.Fresh, Unset, [], false, false, false, [], None, false, SampleRate, [], 0, [])

  /** What the node keeps true in every reachable state. */
  predicate Valid(n: Node)
  {
    && Registry.UniqueNames(n.registry.entries)
    && (n.engine.Some? ==>
          |n.registry.entries| > 0 &&
          |n.engine.value.models| == |n.engine.value.sensitivities| == |n.keywordIndex|)
    && (forall i :: 0 <= i < |n.keywordIndex| ==> n.keywordIndex[i] in Registry.Names(n.registry.entries))
    && (|n.deferredStarts| > 0 ==> !n.connected && !n.recording)
  }

  // -----------------------------------------------------------------------
  // Keyword registry operations
  // -----------------------------------------------------------------------

  function SetHotword(n: Node, filter: Filter): (r: Node)
    ensures r.filter == filter && r.(filter := n.filter) == n
  {
    n.(filter := filter)
  }

  function AddHotword(n: Node, name: string, data: Option<Registry.Model>, sensitivity: Option<real>): (r: Result<Node, Registry.AddError>)
    ensures r.Err? <==> data.None? && name !in Registry.DefaultHotwords
    ensures r.Ok? ==> r.value.(registry := n.registry) == n
    ensures r.Ok? ==>
      var stored := if data.Some? then data.value else Registry.BuiltIn(name);
      Registry.Lookup(r.value.registry.entries, name) ==
        Some(Registry.Entry(name, stored, Registry.PickSensitivity(sensitivity, n.registry.sensitivity)))
    ensures r.Ok? ==> forall x :: x != name ==> Registry.Lookup(r.value.registry.entries, x) == Registry.Lookup(n.registry.entries, x)
  {
    match Registry.AddHotword(n.registry, name, data, sensitivity)
    case Err(e) => Err(e)
    case Ok(reg) => Ok(n.(registry := reg))
  }

  function SetSensitivity(n: Node, sensitivity: real): (r: Node)
    ensures r.registry.sensitivity == sensitivity
    ensures Registry.Names(r.registry.entries) == Registry.Names(n.registry.entries)
    ensures forall x :: Registry.Lookup(n.registry.entries, x).Some? ==>
      Registry.Lookup(r.registry.entries, x) == Some(Registry.Lookup(n.registry.entries, x).value.(sensitivity := sensitivity))
    ensures forall x :: Registry.Lookup(n.registry.entries, x).None? ==> Registry.Lookup(r.registry.entries, x).None?
    ensures r.(registry := n.registry) == n
  {
    n.(registry := Registry.SetSensitivity(n.registry, sensitivity))
  }

  function SetMuted(n: Node, muted: bool): (r: Node)
    ensures r.muted == muted && r.(muted := n.muted) == n
  {
    n.(muted := muted)
  }

  // -----------------------------------------------------------------------
  // Lifecycle
  // -----------------------------------------------------------------------

  /** `stop()`: clears `recording` and emits `stop`, whether or not the node
      was recording. The engine instance and the buffer are kept. */
  function StopNode(n: Node): (r: Node)
    ensures !r.recording && r.events == n.events + [Stop]
    ensures r.(recording := n.recording, events := n.events) == n
  {
    n.(recording := false, events := n.events + [Stop])
  }

  /** `disconnect()`: clears `connected` only; a recording node keeps
      recording. */
  function DisconnectNode(n: Node): (r: Node)
    ensures !r.connected && r.events == n.events + [Disconnect]
    ensures r.(connected := n.connected, events := n.events) == n
  {
    n.(connected := false, events := n.events + [Disconnect])
  }

  /** `destroy()`: `stop()` then `disconnect()`. */
  function Destroy(n: Node): (r: Node)
    ensures !r.recording && !r.connected
    ensures r.events == n.events + [Stop, Disconnect]
    ensures r.(recording := n.recording, connected := n.connected, events := n.events) == n
  {
    DisconnectNode(StopNode(n))
  }

  /** `initPorcupine()` followed by the rest of `_start(options)`, guarded by
      `recording`. An engine is created only when a keyword is registered;
      with none, the previous engine (if any) is left in place. */
  function RunStart(n: Node, options: StartOptions): (r: Node)
    ensures n.recording ==> r == n
    ensures !n.recording ==> r.recording && r.attached && r.events == n.events + [Start]
    ensures !n.recording ==> r.keywordIndex == Registry.Names(n.registry.entries)
    ensures !n.recording && |n.registry.entries| > 0 ==>
      var s := Registry.InitPorcupine(n.registry.entries);
      r.engine == Some(EngineConfig(s.models, s.sensitivities))
    ensures !n.recording && |n.registry.entries| == 0 ==> r.engine == n.engine
    ensures !n.recording ==> r.sampleRate == if options.sampleRate > 0 then options.sampleRate else SampleRate
    ensures r.(recording := n.recording, keywordIndex := n.keywordIndex, engine := n.engine,
               attached := n.attached, sampleRate := n.sampleRate, events := n.events) == n
  {
    if n.recording then n
    else
      var snap := Registry.InitPorcupine(n.registry.entries);
      assert snap.keywordIndex == Registry.Names(n.registry.entries);
      n.(recording := true,
         keywordIndex := snap.keywordIndex,
         engine := if |snap.sensitivities| > 0 then Some(EngineConfig(snap.models, snap.sensitivities)) else n.engine,
         attached := true,
         sampleRate := if options.sampleRate > 0 then options.sampleRate else SampleRate,
         events := n.events + [Start])
  }

  /** The queued `once('connect')` listeners, run in registration order.
      Once one of them has started the node, the rest change nothing. */
  function RunStarts(n: Node, queue: seq<StartOptions>): (r: Node)
    ensures |queue| == 0 || n.recording ==> r == n
    ensures |queue| > 0 && !n.recording ==> r == RunStart(n, queue[0])
    ensures r.connected == n.connected && r.deferredStarts == n.deferredStarts
    ensures r.readyWaiters == n.readyWaiters
    decreases |queue|
  {
    if |queue| == 0 then n else RunStarts(RunStart(n, queue[0]), queue[1..])
  }

  /** Whether the queued starts will start the node when `connect` fires. */
  predicate StartsPending(n: Node)
  {
    |n.deferredStarts| > 0 && !n.recording
  }

  /** `k` `connect` events in a row. */
  function Connects(k: nat): seq<Event>
    decreases k
  {
    if k == 0 then [] else [Connect] + Connects(k - 1)
  }

  /** `connected = true; emit('connect')`: the queued starts run once each
      and are removed. */
  function FireConnect(n: Node): (r: Node)
    ensures r.connected && r.deferredStarts == [] && r.readyWaiters == n.readyWaiters
    ensures StartsPending(n) ==> r.recording && r.events == n.events + [Connect, Start]
    ensures !StartsPending(n) ==> r.recording == n.recording && r.events == n.events + [Connect]
    ensures |n.deferredStarts| == 0 ==> r == n.(connected := true, events := n.events + [Connect])
    ensures |n.deferredStarts| > 0 && !n.recording ==>
      r == RunStart(n.(connected := true, events := n.events + [Connect], deferredStarts := []), n.deferredStarts[0])
  {
    RunStarts(n.(connected := true, events := n.events + [Connect], deferredStarts := []), n.deferredStarts)
  }

  /** `connect()`, given whether the engine has loaded. Before it has, the
      connection is deferred to the loader's `ready` notification. */
  function ConnectNode(n: Node, loaded: bool): (r: Node)
    ensures n.connected ==> r == n
    ensures !n.connected && loaded ==> r == FireConnect(n)
    ensures !n.connected && !loaded ==> r == n.(readyWaiters := n.readyWaiters + 1)
  {
    if n.connected then n
    else if loaded then FireConnect(n)
    else n.(readyWaiters := n.readyWaiters + 1)
  }

  /** `k` queued `ready` callbacks, each running `connected = true;
      emit('connect')`. Only the first can find starts queued. */
  function FireConnects(n: Node, k: nat): (r: Node)
    ensures k > 0 ==> r.connected && r.deferredStarts == []
    ensures k == 0 ==> r == n
    ensures r.readyWaiters == n.readyWaiters
    ensures k > 0 && StartsPending(n) ==> r.recording && r.events == n.events + [Connect, Start] + Connects(k - 1)
    ensures !StartsPending(n) ==> r.recording == n.recording && r.events == n.events + Connects(k)
    ensures k > 0 ==> r == FireConnect(n).(events := FireConnect(n).events + Connects(k - 1))
    decreases k
  {
    if k == 0 then n
    else
      var m := FireConnect(n);
      var r := FireConnects(m, k - 1);
      assert !StartsPending(m);
      assert n.events + [Connect] + Connects(k - 1) == n.events + Connects(k);
      assert k - 1 > 0 ==> FireConnect(m) == m.(events := m.events + [Connect]);
      assert k - 1 > 0 ==> m.events + [Connect] + Connects(k - 2) == m.events + Connects(k - 1);
      r
  }

  /** The loader's `ready` notification: every callback `connect` queued
      sets `connected` and emits `connect`, even after a `disconnect`. */
  function EngineReady(n: Node): (r: Node)
    ensures r.readyWaiters == 0
    ensures n.readyWaiters > 0 ==> r.connected && r.deferredStarts == []
    ensures n.readyWaiters == 0 ==> r == n
    ensures n.readyWaiters > 0 && StartsPending(n) ==>
      r.recording && r.events == n.events + [Connect, Start] + Connects(n.readyWaiters - 1)
    ensures !StartsPending(n) ==> r.recording == n.recording && r.events == n.events + Connects(n.readyWaiters)
    ensures n.readyWaiters > 0 ==>
      var m := FireConnect(n.(readyWaiters := 0));
      r == m.(events := m.events + Connects(n.readyWaiters - 1))
  {
    FireConnects(n.(readyWaiters := 0), n.readyWaiters)
  }

  /** `start(options)`: a no-op while recording; `_start` at once when
      connected; otherwise `_start` is queued until `connect` fires and
      `connect()` is called. */
  function StartNode(n: Node, options: StartOptions, loaded: bool): (r: Node)
    ensures n.recording ==> r == n
    ensures !n.recording && n.connected ==> r == RunStart(n, options)
    ensures !n.recording && !n.connected ==> r == ConnectNode(n.(deferredStarts := n.deferredStarts + [options]), loaded)
  {
    if n.recording then n
    else if n.connected then RunStart(n, options)
    else ConnectNode(n.(deferredStarts := n.deferredStarts + [options]), loaded)
  }

  // -----------------------------------------------------------------------
  // Detection
  // -----------------------------------------------------------------------

  /** `processPorcupine(frame)`: the name at the engine's result index, or
      undefined when there is no engine, the result is -1, or the index is
      past `keywordIndex`. */
  function ProcessPorcupine(n: Node, frame: seq<int>, engine: Engine): (r: Option<string>)
    ensures r.Some? <==> n.engine.Some? && -1 < engine(n.engine.value, frame) < |n.keywordIndex|
    ensures r.Some? ==> r.value == n.keywordIndex[engine(n.engine.value, frame)]
  {
    if n.engine.Some? then
      var id := engine(n.engine.value, frame);
      if id > -1 && id < |n.keywordIndex| then Some(n.keywordIndex[id]) else None
    else None
  }

  /** JavaScript truthiness of a detection result: a non-empty string. */
  predicate Truthy(r: Option<string>)
  {
    r.Some? && r.value != ""
  }

  function Detections(n: Node, frames: seq<seq<int>>, engine: Engine): seq<Option<string>>
  {
    seq(|frames|, i requires 0 <= i < |frames| => ProcessPorcupine(n, frames[i], engine))
  }

  lemma DetectionsSnoc(n: Node, frames: seq<seq<int>>, i: nat, engine: Engine)
    requires i < |frames|
    ensures Detections(n, frames[..i + 1], engine) == Detections(n, frames[..i], engine) + [ProcessPorcupine(n, frames[i], engine)]
  {
  }

  /** `if (r) hotwordDetected = r` over the frames, left to right. */
  function LastFrom(acc: Option<string>, rs: seq<Option<string>>): Option<string>
    decreases |rs|
  {
    if |rs| == 0 then acc else LastFrom(if Truthy(rs[0]) then rs[0] else acc, rs[1..])
  }

  function LastDetected(rs: seq<Option<string>>): Option<string>
  {
    LastFrom(None, rs)
  }

  /** Reference definition: the position of the last truthy result,
      searched from the end. */
  function LastTruthyIndex(rs: seq<Option<string>>): (k: Option<nat>)
    ensures k.None? <==> forall i :: 0 <= i < |rs| ==> !Truthy(rs[i])
    ensures k.Some? ==> k.value < |rs| && Truthy(rs[k.value])
    ensures k.Some? ==> forall j :: k.value < j < |rs| ==> !Truthy(rs[j])
  {
    if |rs| == 0 then None
    else if Truthy(rs[|rs| - 1]) then Some(|rs| - 1)
    else LastTruthyIndex(rs[..|rs| - 1])
  }

  lemma {:induction false} LastFromSpec(acc: Option<string>, rs: seq<Option<string>>)
    ensures match LastTruthyIndex(rs)
      case None => LastFrom(acc, rs) == acc
      case Some(i) => LastFrom(acc, rs) == rs[i]
    decreases |rs|
  {
    if |rs| > 0 {
      var acc' := if Truthy(rs[0]) then rs[0] else acc;
      LastFromSpec(acc', rs[1..]);
      match LastTruthyIndex(rs[1..])
      case None =>
        assert forall i :: 1 <= i < |rs| ==> rs[i] == rs[1..][i - 1];
      case Some(i) =>
        assert rs[1..][i] == rs[i + 1];
        assert forall j :: i + 1 < j < |rs| ==> rs[j] == rs[1..][j - 1];
    }
  }

  /** One more frame result: it replaces the running detection exactly when
      it is truthy. */
  lemma {:induction false} LastFromAppend(acc: Option<string>, rs: seq<Option<string>>, x: Option<string>)
    ensures LastFrom(acc, rs + [x]) == if Truthy(x) then x else LastFrom(acc, rs)
    decreases |rs|
  {
    if |rs| == 0 {
      assert rs + [x] == [x];
      assert [x][1..] == [];
    } else {
      assert (rs + [x])[1..] == rs[1..] + [x];
      LastFromAppend(if Truthy(rs[0]) then rs[0] else acc, rs[1..], x);
    }
  }

  /** The detection a chunk reports is the result of its last matching
      frame, or none when no frame matched. */
  lemma LastDetectedIsLast(rs: seq<Option<string>>)
    ensures LastDetected(rs).None? <==> forall i :: 0 <= i < |rs| ==> !Truthy(rs[i])
    ensures LastDetected(rs).Some? ==>
      exists i :: 0 <= i < |rs| && rs[i] == LastDetected(rs) && Truthy(rs[i]) &&
        forall j :: i < j < |rs| ==> !Truthy(rs[j])
  {
    LastFromSpec(None, rs);
  }

  /** The filter test `hotwordDetected && !this.hotword || this.hotword ===
      hotwordDetected` as written. With `this.hotword === null` and nothing
      detected it holds too (`null === null`). */
  predicate EmitsAsWritten(detected: Option<string>, filter: Filter)
    ensures filter == Unset ==> (EmitsAsWritten(detected, filter) <==> Truthy(detected))
    ensures filter == Null ==> (EmitsAsWritten(detected, filter) <==> Truthy(detected) || detected.None?)
    ensures filter.Named? && filter.name != "" ==> (EmitsAsWritten(detected, filter) <==> detected == Some(filter.name))
  {
    (Truthy(detected) && !(filter.Named? && filter.name != "")) ||
    (match filter
     case Unset => false
     case Null => detected.None?
     case Named(s) => detected == Some(s))
  }

  /** The filter test as intended: a detection is reported when no filter
      is set or when it is the filtered keyword. */
  predicate Emits(detected: Option<string>, filter: Filter)
    ensures Emits(detected, filter) ==> Truthy(detected)
    ensures !(filter.Named? && filter.name != "") ==> (Emits(detected, filter) <==> Truthy(detected))
    ensures filter.Named? && filter.name != "" ==> (Emits(detected, filter) <==> detected == Some(filter.name))
  {
    Truthy(detected) && (!(filter.Named? && filter.name != "") || filter == Named(detected.value))
  }

  /** After `setHotword(null)` a chunk in which nothing was detected still
      emits `hotword`, with `null` as its payload. */
  lemma NullFilterEmitsNull()
    ensures EmitsAsWritten(None, Null)
    ensures !Emits(None, Null)
  {
  }

  /** The two filter tests differ only on that input; the intended one never
      reports a missing detection, and with a keyword set it reports exactly
      that keyword. */
  lemma EmitsMatchesAsWritten(detected: Option<string>, filter: Filter)
    requires detected.Some? ==> detected.value != ""
    ensures Emits(detected, filter) <==> EmitsAsWritten(detected, filter) && !(detected.None? && filter == Null)
    ensures Emits(detected, filter) ==> detected.Some?
    ensures filter.Named? && filter.name != "" ==> (Emits(detected, filter) <==> detected == Some(filter.name))
  {
  }

  datatype Processed = Processed(node: Node, detected: Option<string>)

  /** `processAudio(inputFrame, inputSampleRate)`: buffer the scaled chunk,
      cut 512-sample 16 kHz frames while more than one frame's worth is
      buffered, ask the engine about each, report the last match, and emit
      `hotword` when the source's filter test holds. */
  function ProcessAudio(n: Node, chunk: seq<real>, rate: Pos, engine: Engine): (p: Processed)
    ensures var d := Drain(n.inputBuffer + ScaleSamples(chunk), rate, SampleRate, FrameLength);
      && Flatten(d.pieces) + p.node.inputBuffer == n.inputBuffer + ScaleSamples(chunk)
      && p.detected == LastDetected(Detections(n, d.frames, engine))
    ensures |p.node.inputBuffer| * SampleRate <= FrameLength * rate
    ensures EmitsAsWritten(p.detected, n.filter) ==> p.node.events == n.events + [Hotword(p.detected)]
    ensures !EmitsAsWritten(p.detected, n.filter) ==> p.node.events == n.events
    ensures p.node.(inputBuffer := n.inputBuffer, events := n.events) == n
  {
    var d := Drain(n.inputBuffer + ScaleSamples(chunk), rate, SampleRate, FrameLength);
    var detected := LastDetected(Detections(n, d.frames, engine));
    var events := if EmitsAsWritten(detected, n.filter) then n.events + [Hotword(detected)] else n.events;
    Processed(n.(inputBuffer := d.rest, events := events), detected)
  }

  /** `processAudio` with the intended filter test `Emits`: every `hotword`
      event carries a real detection. */
  function ProcessAudioIntended(n: Node, chunk: seq<real>, rate: Pos, engine: Engine): (p: Processed)
    ensures var d := Drain(n.inputBuffer + ScaleSamples(chunk), rate, SampleRate, FrameLength);
      && Flatten(d.pieces) + p.node.inputBuffer == n.inputBuffer + ScaleSamples(chunk)
      && p.detected == LastDetected(Detections(n, d.frames, engine))
    ensures |p.node.inputBuffer| * SampleRate <= FrameLength * rate
    ensures Emits(p.detected, n.filter) ==> p.detected.Some? && p.node.events == n.events + [Hotword(p.detected)]
    ensures !Emits(p.detected, n.filter) ==> p.node.events == n.events
    ensures p.node.(inputBuffer := n.inputBuffer, events := n.events) == n
  {
    var d := Drain(n.inputBuffer + ScaleSamples(chunk), rate, SampleRate, FrameLength);
    var detected := LastDetected(Detections(n, d.frames, engine));
    var events := if Emits(detected, n.filter) then n.events + [Hotword(detected)] else n.events;
    Processed(n.(inputBuffer := d.rest, events := events), detected)
  }

  /** The detection of a chunk is absent or a non-empty name. */
  lemma DetectedTruthy(rs: seq<Option<string>>)
    ensures LastDetected(rs).None? || Truthy(LastDetected(rs))
  {
    LastDetectedIsLast(rs);
  }

  /** The intended `processAudio` behaves as the source does except after
      `setHotword(null)` on a chunk without a detection, where the source
      emits one extra `hotword(null)`. */
  lemma IntendedDiffersOnlyOnNull(n: Node, chunk: seq<real>, rate: Pos, engine: Engine)
    ensures var p := ProcessAudio(n, chunk, rate, engine);
      var q := ProcessAudioIntended(n, chunk, rate, engine);
      && q.detected == p.detected
      && (n.filter == Null && p.detected.None? ==> p.node == q.node.(events := q.node.events + [Hotword(None)]))
      && (!(n.filter == Null && p.detected.None?) ==> p == q)
  {
    var d := Drain(n.inputBuffer + ScaleSamples(chunk), rate, SampleRate, FrameLength);
    var detected := LastDetected(Detections(n, d.frames, engine));
    DetectedTruthy(Detections(n, d.frames, engine));
    EmitsMatchesAsWritten(detected, n.filter);
  }

  /** The stream's `data` handler: a muted node only emits `muted`;
      otherwise the chunk goes through `processAudio` and a `data` event
      carries it with the detection. */
  function OnData(n: Node, chunk: seq<real>, engine: Engine): (r: Node)
    ensures n.muted ==> r == n.(events := n.events + [Muted])
    ensures !n.muted ==>
      var p := ProcessAudio(n, chunk, n.sampleRate, engine);
      r == p.node.(events := p.node.events + [Data(chunk, n.sampleRate, p.detected)])
  {
    if n.muted then n.(events := n.events + [Muted])
    else
      var p := ProcessAudio(n, chunk, n.sampleRate, engine);
      p.node.(events := p.node.events + [Data(chunk, n.sampleRate, p.detected)])
  }

  // -----------------------------------------------------------------------
  // Traces
  // -----------------------------------------------------------------------

  datatype Op =
    | AddHotwordOp(name: string, data: Option<Registry.Model>, sensitivity: Option<real>)
    | SetSensitivityOp(value: real)
    | SetHotwordOp(filter: Filter)
    | SetMutedOp(muted: bool)
    | StartOp(options: StartOptions, loaded: bool)
    | StopOp
    | ConnectOp(loaded: bool)
    | EngineReadyOp
    | DisconnectOp
    | DestroyOp
    | ChunkOp(chunk: seq<real>)

  /** One operation. A throwing `addHotword` leaves the node as it was, and
      a chunk reaches the node only once some `_start` has attached the
      `data` handler. */
  function Apply(n: Node, op: Op, engine: Engine): Node
  {
    match op
    case AddHotwordOp(name, data, sensitivity) =>
      (match AddHotword(n, name, data, sensitivity) case Ok(m) => m case Err(_) => n)
    case SetSensitivityOp(v) => SetSensitivity(n, v)
    case SetHotwordOp(f) => SetHotword(n, f)
    case SetMutedOp(m) => SetMuted(n, m)
    case StartOp(o, loaded) => StartNode(n, o, loaded)
    case StopOp => StopNode(n)
    case ConnectOp(loaded) => ConnectNode(n, loaded)
    case EngineReadyOp => EngineReady(n)
    case DisconnectOp => DisconnectNode(n)
    case DestroyOp => Destroy(n)
    case ChunkOp(chunk) => if n.attached then OnData(n, chunk, engine) else n
  }

  function Run(n: Node, ops: seq<Op>, engine: Engine): Node
    decreases |ops|
  {
    if |ops| == 0 then n else Run(Apply(n, ops[0], engine), ops[1..], engine)
  }

  // -----------------------------------------------------------------------
  // Properties
  // -----------------------------------------------------------------------

  lemma InitValid()
    ensures Valid(Init)
    ensures !Init.connected && !Init.recording && Init.events == []
  {
  }

  /** `_start` keeps the invariant when nothing is queued behind it. */
  lemma RunStartValid(n: Node, options: StartOptions)
    requires Valid(n) && n.deferredStarts == []
    ensures Valid(RunStart(n, options))
  {
    if !n.recording {
      var r := RunStart(n, options);
      forall i | 0 <= i < |r.keywordIndex|
        ensures r.keywordIndex[i] in Registry.Names(n.registry.entries)
      {
        assert r.keywordIndex[i] == Registry.Names(n.registry.entries)[i];
      }
    }
  }

  lemma FireConnectValid(n: Node)
    requires Valid(n)
    ensures Valid(FireConnect(n))
  {
    var m := n.(connected := true, events := n.events + [Connect], deferredStarts := []);
    assert Valid(m);
    if |n.deferredStarts| > 0 {
      RunStartValid(m, n.deferredStarts[0]);
    }
  }

  lemma {:induction false} FireConnectsValid(n: Node, k: nat)
    requires Valid(n)
    ensures Valid(FireConnects(n, k))
    decreases k
  {
    if k > 0 {
      FireConnectValid(n);
      FireConnectsValid(FireConnect(n), k - 1);
    }
  }

  lemma AddHotwordValid(n: Node, name: string, data: Option<Registry.Model>, sensitivity: Option<real>)
    requires Valid(n)
    ensures AddHotword(n, name, data, sensitivity).Ok? ==> Valid(AddHotword(n, name, data, sensitivity).value)
  {
    var r := AddHotword(n, name, data, sensitivity);
    if r.Ok? {
      var before := Registry.Names(n.registry.entries);
      var after := Registry.Names(r.value.registry.entries);
      forall x | x in before
        ensures x in after
      {
        var i :| 0 <= i < |before| && before[i] == x;
        assert after[i] == x;
      }
      assert |after| >= |before|;
    }
  }

  lemma SetSensitivityValid(n: Node, sensitivity: real)
    requires Valid(n)
    ensures Valid(SetSensitivity(n, sensitivity))
  {
    assert |Registry.Names(SetSensitivity(n, sensitivity).registry.entries)| == |Registry.Names(n.registry.entries)|;
  }

  lemma StartValid(n: Node, options: StartOptions, loaded: bool)
    requires Valid(n)
    ensures Valid(StartNode(n, options, loaded))
  {
    if !n.recording {
      if n.connected {
        RunStartValid(n, options);
      } else if loaded {
        FireConnectValid(n.(deferredStarts := n.deferredStarts + [options]));
      }
    }
  }

  lemma ConnectValid(n: Node, loaded: bool)
    requires Valid(n)
    ensures Valid(ConnectNode(n, loaded))
  {
    if !n.connected && loaded {
      FireConnectValid(n);
    }
  }

  lemma EngineReadyValid(n: Node)
    requires Valid(n)
    ensures Valid(EngineReady(n))
  {
    FireConnectsValid(n.(readyWaiters := 0), n.readyWaiters);
  }

  lemma OnDataValid(n: Node, chunk: seq<real>, engine: Engine)
    requires Valid(n)
    ensures Valid(OnData(n, chunk, engine))
  {
  }

  /** Every operation keeps the invariant. */
  lemma ApplyValid(n: Node, op: Op, engine: Engine)
    requires Valid(n)
    ensures Valid(Apply(n, op, engine))
  {
    match op
    case AddHotwordOp(name, data, sensitivity) => AddHotwordValid(n, name, data, sensitivity);
    case SetSensitivityOp(v) => SetSensitivityValid(n, v);
    case SetHotwordOp(f) =>
    case SetMutedOp(m) =>
    case StartOp(o, loaded) => StartValid(n, o, loaded);
    case StopOp =>
    case ConnectOp(loaded) => ConnectValid(n, loaded);
    case EngineReadyOp => EngineReadyValid(n);
    case DisconnectOp =>
    case DestroyOp =>
    case ChunkOp(chunk) => if n.attached { OnDataValid(n, chunk, engine); }
  }

  /** Every reachable state satisfies the invariant. */
  lemma {:induction false} RunValid(n: Node, ops: seq<Op>, engine: Engine)
    requires Valid(n)
    ensures Valid(Run(n, ops, engine))
    decreases |ops|
  {
    if |ops| > 0 {
      ApplyValid(n, ops[0], engine);
      RunValid(Apply(n, ops[0], engine), ops[1..], engine);
    }
  }

  lemma {:induction false} FireConnectsAppend(n: Node, k: nat)
    ensures n.events <= FireConnects(n, k).events
    decreases k
  {
    if k > 0 {
      FireConnectsAppend(FireConnect(n), k - 1);
    }
  }

  lemma ApplyAppends(n: Node, op: Op, engine: Engine)
    ensures n.events <= Apply(n, op, engine).events
  {
    if op.EngineReadyOp? {
      FireConnectsAppend(n.(readyWaiters := 0), n.readyWaiters);
    }
  }

  /** Events are only ever appended to the trace. */
  lemma {:induction false} RunAppends(n: Node, ops: seq<Op>, engine: Engine)
    ensures n.events <= Run(n, ops, engine).events
    decreases |ops|
  {
    if |ops| > 0 {
      ApplyAppends(n, ops[0], engine);
      RunAppends(Apply(n, ops[0], engine), ops[1..], engine);
    }
  }

  /** With the node connected, or the engine already loaded, `start` begins
      recording at once (emitting `connect` first when it had to connect),
      and a second `start` changes nothing. */
  lemma StartOnce(n: Node, options: StartOptions, again: StartOptions, loaded: bool, loadedAgain: bool)
    requires Valid(n) && !n.recording && (n.connected || loaded)
    ensures var m := StartNode(n, options, loaded);
      && m.recording && m.connected
      && m.events == n.events + (if n.connected then [Start] else [Connect, Start])
      && m.keywordIndex == Registry.Names(n.registry.entries)
      && StartNode(m, again, loadedAgain) == m
  {
    if !n.connected {
      var q := n.(deferredStarts := n.deferredStarts + [options]);
      assert |q.deferredStarts| > 0;
    }
  }

  /** Before the engine has loaded, `start` records nothing; when the
      loader reports ready the node connects and starts with the options
      of the first pending `start`. */
  lemma StartWaitsForEngine(n: Node, options: StartOptions)
    requires Valid(n) && !n.connected && !n.recording && n.readyWaiters == 0
    ensures var m := StartNode(n, options, false);
      && !m.recording && m.events == n.events
      && var r := EngineReady(m);
      && r.connected && r.recording
      && r.events == n.events + [Connect, Start]
      && var first := (n.deferredStarts + [options])[0].sampleRate;
      r.sampleRate == if first > 0 then first else SampleRate
  {
    var m := StartNode(n, options, false);
    assert m == n.(deferredStarts := n.deferredStarts + [options], readyWaiters := 1);
    assert EngineReady(m) == FireConnect(m.(readyWaiters := 0));
  }

  /** `stop` then `start` on a connected node records again at once with a
      fresh snapshot of the registry. */
  lemma StopThenStart(n: Node, options: StartOptions, loaded: bool)
    requires Valid(n) && n.connected
    ensures var m := StartNode(StopNode(n), options, loaded);
      && m.recording
      && m.events == n.events + [Stop, Start]
      && m.keywordIndex == Registry.Names(n.registry.entries)
  {
  }

  /** Every name `processPorcupine` reports is a registered keyword. */
  lemma ReportedNameRegistered(n: Node, frame: seq<int>, engine: Engine)
    requires Valid(n)
    ensures ProcessPorcupine(n, frame, engine).Some? ==>
      ProcessPorcupine(n, frame, engine).value in Registry.Names(n.registry.entries)
  {
  }

  /** The `hotword` event a chunk raises names a registered keyword. */
  lemma HotwordRegistered(n: Node, chunk: seq<real>, rate: Pos, engine: Engine)
    requires Valid(n)
    ensures var p := ProcessAudio(n, chunk, rate, engine);
      p.detected.Some? ==> p.detected.value in Registry.Names(n.registry.entries)
  {
    var d := Drain(n.inputBuffer + ScaleSamples(chunk), rate, SampleRate, FrameLength);
    var rs := Detections(n, d.frames, engine);
    LastDetectedIsLast(rs);
    if LastDetected(rs).Some? {
      var i :| 0 <= i < |rs| && rs[i] == LastDetected(rs) && Truthy(rs[i]);
      ReportedNameRegistered(n, d.frames[i], engine);
    }
  }

  /** After `start`, the engine's result index i names the keyword whose
      registry entry holds the i-th model and sensitivity the engine was
      created with. */
  lemma EngineSlotsMatchRegistry(n: Node, options: StartOptions, frame: seq<int>, engine: Engine)
    requires Valid(n) && !n.recording && |n.registry.entries| > 0
    ensures var m := RunStart(n, options);
      var r := ProcessPorcupine(m, frame, engine);
      r.Some? ==>
        var id := engine(m.engine.value, frame);
        && 0 <= id < |m.engine.value.models|
        && Registry.Lookup(n.registry.entries, r.value) ==
           Some(Registry.Entry(r.value, m.engine.value.models[id], m.engine.value.sensitivities[id]))
  {
    var m := RunStart(n, options);
    var r := ProcessPorcupine(m, frame, engine);
    if r.Some? {
      var id := engine(m.engine.value, frame);
      Registry.SnapshotResolves(n.registry.entries, id);
    }
  }

  /** With no keyword registered nothing is ever detected: a chunk yields
      `muted`, or a `data` event without a hotword. No `hotword` event is
      raised, except the `hotword(null)` of a node whose filter was set to
      `null`, which fires on every unmuted chunk. */
  lemma NoKeywordsNoDetection(n: Node, chunk: seq<real>, engine: Engine)
    requires Valid(n) && |n.registry.entries| == 0
    ensures var r := OnData(n, chunk, engine);
      && (n.muted ==> r.events == n.events + [Muted])
      && (!n.muted && n.filter != Null ==> r.events == n.events + [Data(chunk, n.sampleRate, None)])
      && (!n.muted && n.filter == Null ==> r.events == n.events + [Hotword(None), Data(chunk, n.sampleRate, None)])
  {
    if !n.muted {
      var d := Drain(n.inputBuffer + ScaleSamples(chunk), n.sampleRate, SampleRate, FrameLength);
      var rs := Detections(n, d.frames, engine);
      assert forall i :: 0 <= i < |rs| ==> !Truthy(rs[i]);
      LastDetectedIsLast(rs);
    }
  }

  /** A fresh node told `setHotword(null)` and started with the engine
      loaded emits `hotword` with a `null` payload on its first chunk, before
      any keyword exists. */
  lemma NullFilterTrace(chunk: seq<real>, engine: Engine)
    ensures Run(Init, [SetHotwordOp(Null), StartOp(StartOptions(0), true), ChunkOp(chunk)], engine).events
         == [Connect, Start, Hotword(None), Data(chunk, SampleRate, None)]
  {
    var m1 := SetHotword(Init, Null);
    var m2 := StartNode(m1, StartOptions(0), true);
    InitValid();
    assert Valid(m1);
    StartValid(m1, StartOptions(0), true);
    assert m2.events == [Connect, Start] && m2.attached && !m2.muted && m2.filter == Null;
    NoKeywordsNoDetection(m2, chunk, engine);
    var ops := [SetHotwordOp(Null), StartOp(StartOptions(0), true), ChunkOp(chunk)];
    assert ops[1..] == [StartOp(StartOptions(0), true), ChunkOp(chunk)];
    assert ops[1..][1..] == [ChunkOp(chunk)] && ops[1..][1..][1..] == [];
    assert Run(Init, ops, engine) == Run(m1, ops[1..], engine);
    assert Run(m1, ops[1..], engine) == Run(m2, [ChunkOp(chunk)], engine);
    assert Run(m2, [ChunkOp(chunk)], engine) == OnData(m2, chunk, engine);
  }

  /** With a keyword filter set, the only `hotword` event a chunk can raise
      is for that keyword. */
  lemma FilterSuppressesOthers(n: Node, chunk: seq<real>, engine: Engine)
    requires n.filter.Named? && n.filter.name != ""
    ensures var r := OnData(n, chunk, engine);
      forall i :: |n.events| <= i < |r.events| && r.events[i].Hotword? ==> r.events[i].name == Some(n.filter.name)
  {
    if !n.muted {
      var p := ProcessAudio(n, chunk, n.sampleRate, engine);
      var r := OnData(n, chunk, engine);
      var data := Data(chunk, n.sampleRate, p.detected);
      if EmitsAsWritten(p.detected, n.filter) {
        assert p.detected == Some(n.filter.name);
        assert r.events == n.events + [Hotword(p.detected), data];
      } else {
        assert r.events == n.events + [data];
      }
    }
  }
}
