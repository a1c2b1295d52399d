/** The stand-alone transcoder of lib/transcoder.js: one call downsamples
    the chunk for voice-activity detection, appends it to the module-level
    buffer, cuts int16 frames from that buffer, and returns their bytes
    together with the last hotword the node's engine found in them. The
    module-level buffer is passed in and returned explicitly. */
module Transcoder {
  import opened Basics
  import opened Pcm
  import opened Resample
  import opened Framer
  import BumblebeeNode

  datatype Output = Output(vad: seq<real>, deepspeech: seq<Byte>, hotword: Option<string>)

  /** The module-level buffer after the call, and what the call returned. */
  datatype Transcoded = Transcoded(buffer: seq<real>, output: Output)

  /** `targetSampleRate || 16000`; 0 stands for an absent argument. */
  function FrameRate(targetRate: nat): (r: Pos)
    ensures targetRate > 0 ==> r == targetRate
    ensures targetRate == 0 ==> r == BumblebeeNode.SampleRate
  {
    if targetRate > 0 then targetRate else 16000
  }

  /** `targetChunkSize || 512`. */
  function ChunkLength(chunkSize: nat): (r: Pos)
    ensures chunkSize > 0 ==> r == chunkSize
    ensures chunkSize == 0 ==> r == BumblebeeNode.FrameLength
  {
    if chunkSize > 0 then chunkSize else 512
  }

  /** `transcoder(bumblebee, inputFrame, inputSampleRate, targetSampleRate,
      targetChunkSize)` with `bumblebee.enabled` passed as `enabled`. An
      upsampling request throws before the buffer is touched. With both
      rates 0 the framing guard divides by zero: with nothing buffered and
      an empty chunk it is NaN and the call returns empty outputs, but with
      any sample buffered it is Infinity and the source never leaves its
      framing loop, so that input is excluded. */
  function Transcode(buffer: seq<real>, bumblebee: BumblebeeNode.Node, enabled: bool, engine: BumblebeeNode.Engine,
                     chunk: seq<real>, sourceRate: nat, targetRate: nat, chunkSize: nat): (r: Result<Transcoded, RateError>)
    requires sourceRate > 0 || targetRate > 0 || |buffer| + |chunk| == 0
    ensures r.Err? <==> targetRate > sourceRate
    ensures r.Ok? ==> Downsample(chunk, sourceRate, targetRate) == Ok(r.value.output.vad)
    ensures r.Ok? && sourceRate == 0 ==> r.value == Transcoded([], Output([], [], None))
    ensures r.Ok? && sourceRate > 0 ==>
      var d := Drain(buffer + ScaleSamples(chunk), sourceRate, FrameRate(targetRate), ChunkLength(chunkSize));
      && Flatten(d.pieces) + r.value.buffer == buffer + ScaleSamples(chunk)
      && |r.value.buffer| * FrameRate(targetRate) <= ChunkLength(chunkSize) * sourceRate
      && AllFramesInt16(d.frames)
      && |r.value.output.deepspeech| == 2 * |Flatten(d.frames)|
      && DecodeSamples(r.value.output.deepspeech) == Flatten(d.frames)
      && r.value.output.hotword == if enabled then BumblebeeNode.LastDetected(BumblebeeNode.Detections(bumblebee, d.frames, engine)) else None
  {
    match Downsample(chunk, sourceRate, targetRate)
    case Err(e) => Err(e)
    case Ok(vad) =>
      if sourceRate == 0 then Ok(Transcoded([], Output(vad, [], None)))
      else
        var d := Drain(buffer + ScaleSamples(chunk), sourceRate, FrameRate(targetRate), ChunkLength(chunkSize));
        var hotword := if enabled then BumblebeeNode.LastDetected(BumblebeeNode.Detections(bumblebee, d.frames, engine)) else None;
        Ok(Transcoded(d.rest, Output(vad, EncodeFrames(d.frames), hotword)))
  }

  /** `reset()`: the buffer starts over empty. */
  function Reset(): (buffer: seq<real>)
    ensures |buffer| == 0
  {
    []
  }

  /** The `vad` output depends on the chunk and the rates only, never on
      what earlier calls left buffered. */
  lemma VadIgnoresBuffer(b1: seq<real>, b2: seq<real>, bumblebee: BumblebeeNode.Node, enabled: bool, engine: BumblebeeNode.Engine,
                         chunk: seq<real>, sourceRate: nat, targetRate: nat, chunkSize: nat)
    requires sourceRate > 0 || targetRate > 0
    ensures var r1 := Transcode(b1, bumblebee, enabled, engine, chunk, sourceRate, targetRate, chunkSize);
      var r2 := Transcode(b2, bumblebee, enabled, engine, chunk, sourceRate, targetRate, chunkSize);
      r1.Ok? == r2.Ok? && (r1.Ok? ==> r1.value.output.vad == r2.value.output.vad)
  {
  }

  /** Each emitted frame contributes `2 * chunkSize` bytes. */
  lemma DeepspeechLength(buffer: seq<real>, bumblebee: BumblebeeNode.Node, enabled: bool, engine: BumblebeeNode.Engine,
                         chunk: seq<real>, sourceRate: nat, targetRate: nat, chunkSize: nat)
    requires sourceRate > 0 && targetRate <= sourceRate
    ensures var r := Transcode(buffer, bumblebee, enabled, engine, chunk, sourceRate, targetRate, chunkSize);
      var d := Drain(buffer + ScaleSamples(chunk), sourceRate, FrameRate(targetRate), ChunkLength(chunkSize));
      |r.value.output.deepspeech| == 2 * ChunkLength(chunkSize) * |d.frames|
  {
    var d := Drain(buffer + ScaleSamples(chunk), sourceRate, FrameRate(targetRate), ChunkLength(chunkSize));
    EncodedLength(d.frames, ChunkLength(chunkSize));
  }

  /** The `deepspeech` bytes hold the frames one after another, `2 *
      chunkSize` bytes each, little-endian. */
  lemma DeepspeechFrameOrder(buffer: seq<real>, bumblebee: BumblebeeNode.Node, enabled: bool, engine: BumblebeeNode.Engine,
                             chunk: seq<real>, sourceRate: nat, targetRate: nat, chunkSize: nat, i: nat)
    requires sourceRate > 0 && targetRate <= sourceRate
    ensures var r := Transcode(buffer, bumblebee, enabled, engine, chunk, sourceRate, targetRate, chunkSize);
      var d := Drain(buffer + ScaleSamples(chunk), sourceRate, FrameRate(targetRate), ChunkLength(chunkSize));
      i < |d.frames| ==> EncodedAt(r.value.output.deepspeech, 2 * ChunkLength(chunkSize), i, d.frames[i])
  {
    var d := Drain(buffer + ScaleSamples(chunk), sourceRate, FrameRate(targetRate), ChunkLength(chunkSize));
    DeepspeechBytes(buffer, bumblebee, enabled, engine, chunk, sourceRate, targetRate, chunkSize);
    if i < |d.frames| {
      FrameLengths(d, ChunkLength(chunkSize), sourceRate, FrameRate(targetRate));
      EncodeFramesSlot(d.frames, 2 * ChunkLength(chunkSize), i);
    }
  }

  lemma DeepspeechBytes(buffer: seq<real>, bumblebee: BumblebeeNode.Node, enabled: bool, engine: BumblebeeNode.Engine,
                        chunk: seq<real>, sourceRate: nat, targetRate: nat, chunkSize: nat)
    requires sourceRate > 0 && targetRate <= sourceRate
    ensures var d := Drain(buffer + ScaleSamples(chunk), sourceRate, FrameRate(targetRate), ChunkLength(chunkSize));
      && AllFramesInt16(d.frames)
      && Transcode(buffer, bumblebee, enabled, engine, chunk, sourceRate, targetRate, chunkSize).value.output.deepspeech == EncodeFrames(d.frames)
  {
  }

  lemma FrameLengths(d: Drained, size: Pos, rate: Pos, target: Pos)
    requires |d.frames| == |d.pieces|
    requires forall i :: 0 <= i < |d.pieces| ==>
      |d.pieces[i]| == FrameSpan(rate, target, size) && d.frames[i] == Frame(d.pieces[i], rate, target, size)
    ensures forall j :: 0 <= j < |d.frames| ==> 2 * |d.frames[j]| == 2 * size
  {
  }

  /** Two calls in a row produce the bytes and the remainder of one call on
      both chunks: the module-level buffer carries the unframed tail over,
      and no frame is lost or emitted twice at the seam. */
  lemma TranscodeStreams(buffer: seq<real>, bumblebee: BumblebeeNode.Node, enabled: bool, engine: BumblebeeNode.Engine,
                         c1: seq<real>, c2: seq<real>, sourceRate: nat, targetRate: nat, chunkSize: nat)
    requires sourceRate > 0 && targetRate <= sourceRate
    ensures var r1 := Transcode(buffer, bumblebee, enabled, engine, c1, sourceRate, targetRate, chunkSize);
      var r2 := Transcode(r1.value.buffer, bumblebee, enabled, engine, c2, sourceRate, targetRate, chunkSize);
      var d := Drain(buffer + ScaleSamples(c1 + c2), sourceRate, FrameRate(targetRate), ChunkLength(chunkSize));
      && AllFramesInt16(d.frames)
      && r1.value.output.deepspeech + r2.value.output.deepspeech == EncodeFrames(d.frames)
      && r2.value.buffer == d.rest
  {
    var rate, size := FrameRate(targetRate), ChunkLength(chunkSize);
    var a, b := buffer + ScaleSamples(c1), ScaleSamples(c2);
    TranscodeFramed(buffer, bumblebee, enabled, engine, c1, sourceRate, targetRate, chunkSize);
    TranscodeFramed(Drain(a, sourceRate, rate, size).rest, bumblebee, enabled, engine, c2, sourceRate, targetRate, chunkSize);
    ScaleSamplesAppend(c1, c2);
    Associative(buffer, ScaleSamples(c1), ScaleSamples(c2));
    DrainSplit(a, b, sourceRate, rate, size);
    var da := Drain(a, sourceRate, rate, size);
    var db := Drain(da.rest + b, sourceRate, rate, size);
    EncodeFramesAppend(da.frames, db.frames);
  }

  /** What a call that frames its input returns, spelled out. */
  lemma TranscodeFramed(buffer: seq<real>, bumblebee: BumblebeeNode.Node, enabled: bool, engine: BumblebeeNode.Engine,
                        chunk: seq<real>, sourceRate: nat, targetRate: nat, chunkSize: nat)
    requires sourceRate > 0 && targetRate <= sourceRate
    ensures var d := Drain(buffer + ScaleSamples(chunk), sourceRate, FrameRate(targetRate), ChunkLength(chunkSize));
      var hotword := if enabled then BumblebeeNode.LastDetected(BumblebeeNode.Detections(bumblebee, d.frames, engine)) else None;
      && Downsample(chunk, sourceRate, targetRate).Ok?
      && Transcode(buffer, bumblebee, enabled, engine, chunk, sourceRate, targetRate, chunkSize)
         == Ok(Transcoded(d.rest, Output(Downsample(chunk, sourceRate, targetRate).value, EncodeFrames(d.frames), hotword)))
  {
  }

  /** The walk over the frames: append each frame's bytes and keep the
      last truthy engine result, when hotword detection is enabled. */
  method EncodeAndDetect(bumblebee: BumblebeeNode.Node, enabled: bool, engine: BumblebeeNode.Engine, frames: seq<seq<int>>)
    returns (bytes: seq<Byte>, hotword: Option<string>)
    requires AllFramesInt16(frames)
    ensures bytes == EncodeFrames(frames)
    ensures hotword == if enabled then BumblebeeNode.LastDetected(BumblebeeNode.Detections(bumblebee, frames, engine)) else None
  {
    assert AllFramesInt16(frames[..0]);
    bytes := [];
    hotword := None;
    var i := 0;
    while i < |frames|
      invariant 0 <= i <= |frames|
      invariant AllFramesInt16(frames[..i])
      invariant bytes == EncodeFrames(frames[..i])
      invariant hotword == if enabled then BumblebeeNode.LastDetected(BumblebeeNode.Detections(bumblebee, frames[..i], engine)) else None
    {
      var presult := BumblebeeNode.ProcessPorcupine(bumblebee, frames[i], engine);
      BumblebeeNode.DetectionsSnoc(bumblebee, frames, i, engine);
      BumblebeeNode.LastFromAppend(None, BumblebeeNode.Detections(bumblebee, frames[..i], engine), presult);
      if enabled && BumblebeeNode.Truthy(presult) {
        hotword := presult;
      }
      EncodeFramesSnoc(frames, i);
      bytes := bytes + EncodeSamples(frames[i]);
      i := i + 1;
    }
    assert frames[..i] == frames;
  }

  /** The call as the source performs it: downsample, frame, then walk the
      frames. */
  method TranscodeChunk(buffer: seq<real>, bumblebee: BumblebeeNode.Node, enabled: bool, engine: BumblebeeNode.Engine,
                        chunk: seq<real>, sourceRate: nat, targetRate: nat, chunkSize: nat) returns (r: Result<Transcoded, RateError>)
    requires sourceRate > 0 || targetRate > 0 || |buffer| + |chunk| == 0
    ensures r == Transcode(buffer, bumblebee, enabled, engine, chunk, sourceRate, targetRate, chunkSize)
  {
    var vad := DownsampleBuffer(chunk, sourceRate, targetRate);
    if vad.Err? {
      return Err(vad.error);
    }
    if sourceRate == 0 {
      return Ok(Transcoded([], Output(vad.value, [], None)));
    }
    TranscodeFramed(buffer, bumblebee, enabled, engine, chunk, sourceRate, targetRate, chunkSize);
    var rate, size := FrameRate(targetRate), ChunkLength(chunkSize);
    var frames, rest := DrainFrames(buffer + ScaleSamples(chunk), sourceRate, rate, size);
    var bytes, hotword := EncodeAndDetect(bumblebee, enabled, engine, frames);
    return Ok(Transcoded(rest, Output(vad.value, bytes, hotword)));
  }
}
