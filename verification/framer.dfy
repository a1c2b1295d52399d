/** The streaming framer shared by `processAudio` (lib/bumblebee-node.js)
    and `transcoder` (lib/transcoder.js): samples accumulate in a buffer;
    while the buffer holds more than one frame's worth of source samples, a
    frame of `frameLen` values at the target rate is cut from its head by box
    averaging, and exactly the samples that frame consumed are dropped.

    Output slot `k` of a frame averages the buffer positions `i` with
    `i * target < (k + 1) * rate` that earlier slots did not take, so slot
    `k` ends at `min(len, ceil((k + 1) * rate / target))`. */
module Framer {
  import opened Basics
  import opened Pcm
  import opened Boxes

  /** `ceil(a / b)` for non-negative `a`. */
  function CeilDiv(a: nat, b: Pos): nat
  {
    (a + b - 1) / b
  }

  /** The source loop's guard `i < a / b` is the same as `i < ceil(a / b)`. */
  lemma CeilDivBelow(i: nat, a: nat, b: Pos)
    ensures i * b < a <==> i < CeilDiv(a, b)
  {
    var q := CeilDiv(a, b);
    DivMod(a + b - 1, b);
    if i < q {
      MulLe(i, q - 1, b);
    } else {
      MulLe(q, i, b);
    }
  }

  /** Where slot `k` of a frame starts (before clipping to the buffer). */
  function FrameCut(k: nat, rate: Pos, target: Pos): nat
  {
    CeilDiv(k * rate, target)
  }

  lemma FrameCutMono(k: nat, rate: Pos, target: Pos)
    ensures FrameCut(k, rate, target) <= FrameCut(k + 1, rate, target)
  {
    assert (k + 1) * rate == k * rate + rate;
    DivMono(k * rate + target - 1, (k + 1) * rate + target - 1, target);
  }

  function FrameCuts(rate: Pos, target: Pos, frameLen: nat): seq<nat>
  {
    seq(frameLen + 1, k requires 0 <= k => FrameCut(k, rate, target))
  }

  lemma FrameCutsAscending(rate: Pos, target: Pos, frameLen: nat)
    ensures Ascending(FrameCuts(rate, target, frameLen))
  {
    var cuts := FrameCuts(rate, target, frameLen);
    forall k | 0 <= k < |cuts| - 1
      ensures cuts[k] <= cuts[k + 1]
    {
      FrameCutMono(k, rate, target);
    }
    AscendingFrom(cuts);
  }

  /** The number of source samples one frame consumes. */
  function FrameSpan(rate: Pos, target: Pos, frameLen: nat): nat
  {
    FrameCut(frameLen, rate, target)
  }

  /** The outer loop's guard `len * target / rate > frameLen`, without the
      division. It is strict: a buffer of exactly one frame's worth waits. */
  predicate HasFrame(len: nat, rate: Pos, target: Pos, frameLen: nat)
  {
    len * target > frameLen * rate
  }

  /** While the guard holds, a frame consumes at least one sample and no
      more than the buffer holds, so no slot window is ever clipped. */
  lemma SpanFits(len: nat, rate: Pos, target: Pos, frameLen: Pos)
    requires HasFrame(len, rate, target, frameLen)
    ensures 0 < FrameSpan(rate, target, frameLen) <= len
  {
    CeilDivBelow(0, frameLen * rate, target);
    CeilDivBelow(len, frameLen * rate, target);
    MulLe(1, frameLen, rate);
  }

  /** The frame cut from the head of `buf`: each slot's mean stored into an
      `Int16Array` element. */
  function Frame(buf: seq<real>, rate: Pos, target: Pos, frameLen: nat): (frame: seq<int>)
    ensures |frame| == frameLen && AllInt16(frame)
  {
    FrameCutsAscending(rate, target, frameLen);
    var box := BoxFilter(buf, FrameCuts(rate, target, frameLen));
    seq(|box|, k requires 0 <= k < |box| => ToInt16(box[k]))
  }

  /** A frame depends only on the samples it consumes. */
  lemma FramePrefix(buf: seq<real>, rate: Pos, target: Pos, frameLen: nat, c: nat)
    requires FrameSpan(rate, target, frameLen) <= c <= |buf|
    ensures Frame(buf, rate, target, frameLen) == Frame(buf[..c], rate, target, frameLen)
  {
    FrameCutsAscending(rate, target, frameLen);
    BoxFilterPrefix(buf, FrameCuts(rate, target, frameLen), c);
  }

  /** What one drain of the buffer produced: the frames, the run of samples
      each frame consumed, and the samples left for the next chunk. */
  datatype Drained = Drained(frames: seq<seq<int>>, pieces: seq<seq<real>>, rest: seq<real>)

  /** The outer framing loop: cut frames from the head while the guard holds,
      dropping the consumed prefix after each one. */
  function Drain(buf: seq<real>, rate: Pos, target: Pos, frameLen: Pos): (d: Drained)
    ensures |d.frames| == |d.pieces|
    ensures Flatten(d.pieces) + d.rest == buf
    ensures |d.rest| * target <= frameLen * rate
    ensures |d.frames| > 0 <==> HasFrame(|buf|, rate, target, frameLen)
    ensures |d.frames| > 0 ==> HasFrame(|d.rest| + FrameSpan(rate, target, frameLen), rate, target, frameLen)
    ensures forall i :: 0 <= i < |d.pieces| ==>
      |d.pieces[i]| == FrameSpan(rate, target, frameLen) && d.frames[i] == Frame(d.pieces[i], rate, target, frameLen)
    ensures AllFramesInt16(d.frames)
    decreases |buf|
  {
    if HasFrame(|buf|, rate, target, frameLen) then
      var c := FrameSpan(rate, target, frameLen);
      SpanFits(|buf|, rate, target, frameLen);
      var d := Drain(buf[c..], rate, target, frameLen);
      DrainCons(buf, rate, target, frameLen, d);
      AllFramesInt16Append([Frame(buf, rate, target, frameLen)], d.frames);
      Drained([Frame(buf, rate, target, frameLen)] + d.frames, [buf[..c]] + d.pieces, d.rest)
    else
      Drained([], [], buf)
  }

  /** The inductive step of `Drain`: one frame cut from the head in front of
      the drain of what follows it. */
  lemma DrainCons(buf: seq<real>, rate: Pos, target: Pos, frameLen: Pos, d: Drained)
    requires HasFrame(|buf|, rate, target, frameLen)
    requires FrameSpan(rate, target, frameLen) <= |buf|
    requires |d.frames| == |d.pieces|
    requires Flatten(d.pieces) + d.rest == buf[FrameSpan(rate, target, frameLen)..]
    requires |d.rest| * target <= frameLen * rate
    requires |d.frames| > 0 ==> HasFrame(|d.rest| + FrameSpan(rate, target, frameLen), rate, target, frameLen)
    requires forall i :: 0 <= i < |d.pieces| ==>
      |d.pieces[i]| == FrameSpan(rate, target, frameLen) && d.frames[i] == Frame(d.pieces[i], rate, target, frameLen)
    ensures var c := FrameSpan(rate, target, frameLen);
      var e := Drained([Frame(buf, rate, target, frameLen)] + d.frames, [buf[..c]] + d.pieces, d.rest);
      && |e.frames| == |e.pieces|
      && Flatten(e.pieces) + e.rest == buf
      && HasFrame(|e.rest| + c, rate, target, frameLen)
      && forall i :: 0 <= i < |e.pieces| ==>
           |e.pieces[i]| == c && e.frames[i] == Frame(e.pieces[i], rate, target, frameLen)
  {
    var c := FrameSpan(rate, target, frameLen);
    FramePrefix(buf, rate, target, frameLen, c);
    assert buf[..c] + buf[c..] == buf;
    assert Flatten([buf[..c]] + d.pieces) == buf[..c] + Flatten(d.pieces) by {
      assert ([buf[..c]] + d.pieces)[1..] == d.pieces;
    }
    if |d.frames| == 0 {
      assert |d.rest| == |buf| - c;
    }
  }

  /** Exactly one frame's worth of samples at the target rate is not yet
      framed: the guard is strict. */
  lemma FullFrameWaits(buf: seq<real>, target: Pos, frameLen: Pos)
    requires |buf| == frameLen
    ensures Drain(buf, target, target, frameLen) == Drained([], [], buf)
  {
  }

  /** Inside a frame the slot windows are consecutive, do not overlap, start
      at buffer index 0 and together cover exactly the consumed samples. */
  lemma {:induction false} FrameWindows(piece: seq<real>, rate: Pos, target: Pos, frameLen: Pos)
    requires |piece| == FrameSpan(rate, target, frameLen)
    ensures Ascending(FrameCuts(rate, target, frameLen))
    ensures Flatten(Windows(piece, FrameCuts(rate, target, frameLen))) == piece
    ensures forall k :: 0 <= k < frameLen ==>
      Frame(piece, rate, target, frameLen)[k] == ToInt16(Mean(Window(piece, FrameCuts(rate, target, frameLen), k)))
  {
    var cuts := FrameCuts(rate, target, frameLen);
    FrameCutsAscending(rate, target, frameLen);
    WindowsPartition(piece, cuts);
    assert cuts[0] == 0;
  }

  /** The slot windows of a frame cut from `buf`. */
  function SlotWindows(buf: seq<real>, rate: Pos, target: Pos, frameLen: nat): seq<seq<real>>
  {
    FrameCutsAscending(rate, target, frameLen);
    Windows(buf, FrameCuts(rate, target, frameLen))
  }

  /** No sample is dropped or duplicated: the slot windows of all frames of
      a drain, followed by what is left in the buffer, are the buffer itself. */
  lemma NoSampleDroppedOrDuplicated(buf: seq<real>, rate: Pos, target: Pos, frameLen: Pos)
    ensures var d := Drain(buf, rate, target, frameLen);
      Flatten(seq(|d.pieces|, i requires 0 <= i < |d.pieces| => Flatten(SlotWindows(d.pieces[i], rate, target, frameLen)))) + d.rest == buf
  {
    var d := Drain(buf, rate, target, frameLen);
    var covered := seq(|d.pieces|, i requires 0 <= i < |d.pieces| => Flatten(SlotWindows(d.pieces[i], rate, target, frameLen)));
    forall i | 0 <= i < |d.pieces|
      ensures covered[i] == d.pieces[i]
    {
      FrameWindows(d.pieces[i], rate, target, frameLen);
    }
    assert covered == d.pieces;
  }

  /** Framing does not depend on how the stream is chunked: draining `a`,
      then draining what was left followed by `b`, gives the same frames,
      pieces and remainder as draining `a + b` at once. No frame is split
      or duplicated across two calls. */
  lemma {:induction false} DrainSplit(a: seq<real>, b: seq<real>, rate: Pos, target: Pos, frameLen: Pos)
    ensures var da := Drain(a, rate, target, frameLen);
      var db := Drain(da.rest + b, rate, target, frameLen);
      Drain(a + b, rate, target, frameLen) == Drained(da.frames + db.frames, da.pieces + db.pieces, db.rest)
    decreases |a|
  {
    var da := Drain(a, rate, target, frameLen);
    if HasFrame(|a|, rate, target, frameLen) {
      var c := FrameSpan(rate, target, frameLen);
      SpanFits(|a|, rate, target, frameLen);
      MulLe(|a|, |a + b|, target);
      assert HasFrame(|a + b|, rate, target, frameLen);
      assert (a + b)[c..] == a[c..] + b;
      assert (a + b)[..c] == a[..c];
      FramePrefix(a + b, rate, target, frameLen, c);
      FramePrefix(a, rate, target, frameLen, c);
      DrainSplit(a[c..], b, rate, target, frameLen);
      var dr := Drain(a[c..], rate, target, frameLen);
      var db := Drain(dr.rest + b, rate, target, frameLen);
      assert da == Drained([Frame(a, rate, target, frameLen)] + dr.frames, [a[..c]] + dr.pieces, dr.rest);
      Associative([Frame(a, rate, target, frameLen)], dr.frames, db.frames);
      Associative([a[..c]], dr.pieces, db.pieces);
    } else {
      assert da == Drained([], [], a);
    }
  }

  /** The innermost loop of the source: sum the samples of slot `k`,
      starting where slot `k - 1` stopped, and store their mean (0 for an
      empty slot, where `0 / 0` is NaN) as an `Int16Array` element. */
  method AverageSlot(buf: seq<real>, start: nat, k: nat, rate: Pos, target: Pos) returns (value: int, inputIndex: nat)
    requires start == Min(|buf|, FrameCut(k, rate, target))
    ensures start <= inputIndex == Min(|buf|, FrameCut(k + 1, rate, target))
    ensures value == ToInt16(Mean(buf[start..inputIndex]))
  {
    FrameCutMono(k, rate, target);
    var sum := 0.0;
    var num := 0;
    inputIndex := start;
    while inputIndex < |buf| && inputIndex * target < (k + 1) * rate
      invariant start <= inputIndex <= Min(|buf|, FrameCut(k + 1, rate, target))
      invariant sum == Sum(buf[start..inputIndex]) && num == inputIndex - start
    {
      CeilDivBelow(inputIndex, (k + 1) * rate, target);
      assert buf[start..inputIndex + 1][..inputIndex - start] == buf[start..inputIndex];
      sum := sum + buf[inputIndex];
      num := num + 1;
      inputIndex := inputIndex + 1;
    }
    CeilDivBelow(inputIndex, (k + 1) * rate, target);
    value := ToInt16(if num == 0 then 0.0 else sum / (num as real));
  }

  /** The two nested averaging loops of the source: a cursor into the buffer
      that each slot advances while `i < len && i * target < (k + 1) * rate`. */
  method CutFrame(buf: seq<real>, rate: Pos, target: Pos, frameLen: nat) returns (frame: seq<int>, inputIndex: nat)
    ensures frame == Frame(buf, rate, target, frameLen)
    ensures inputIndex == Min(|buf|, FrameSpan(rate, target, frameLen))
  {
    ghost var cuts := FrameCuts(rate, target, frameLen);
    FrameCutsAscending(rate, target, frameLen);
    var out: seq<int> := [];
    var outputIndex := 0;
    inputIndex := 0;
    while outputIndex < frameLen
      invariant outputIndex <= frameLen
      invariant inputIndex == Min(|buf|, FrameCut(outputIndex, rate, target))
      invariant |out| == outputIndex
      invariant forall k :: 0 <= k < outputIndex ==> out[k] == ToInt16(Mean(Window(buf, cuts, k)))
    {
      ghost var start := inputIndex;
      var value;
      value, inputIndex := AverageSlot(buf, inputIndex, outputIndex, rate, target);
      assert Window(buf, cuts, outputIndex) == buf[start..inputIndex];
      out := out + [value];
      outputIndex := outputIndex + 1;
    }
    frame := out;
  }

  lemma DrainHead(buf: seq<real>, rate: Pos, target: Pos, frameLen: Pos)
    requires HasFrame(|buf|, rate, target, frameLen)
    ensures FrameSpan(rate, target, frameLen) <= |buf|
    ensures var rest := Drain(buf[FrameSpan(rate, target, frameLen)..], rate, target, frameLen);
      && Drain(buf, rate, target, frameLen).frames == [Frame(buf, rate, target, frameLen)] + rest.frames
      && Drain(buf, rate, target, frameLen).rest == rest.rest
  {
    SpanFits(|buf|, rate, target, frameLen);
  }

  /** The outer loop of the source, cutting with `CutFrame` and slicing the
      consumed prefix off after each frame. */
  method DrainFrames(input: seq<real>, rate: Pos, target: Pos, frameLen: Pos) returns (frames: seq<seq<int>>, buffer: seq<real>)
    ensures frames == Drain(input, rate, target, frameLen).frames
    ensures buffer == Drain(input, rate, target, frameLen).rest
  {
    frames := [];
    buffer := input;
    while |buffer| * target > frameLen * rate
      invariant Drain(input, rate, target, frameLen).frames == frames + Drain(buffer, rate, target, frameLen).frames
      invariant Drain(input, rate, target, frameLen).rest == Drain(buffer, rate, target, frameLen).rest
      decreases |buffer|
    {
      var frame, inputIndex := CutFrame(buffer, rate, target, frameLen);
      SpanFits(|buffer|, rate, target, frameLen);
      DrainHead(buffer, rate, target, frameLen);
      Associative(frames, [frame], Drain(buffer[inputIndex..], rate, target, frameLen).frames);
      frames := frames + [frame];
      buffer := buffer[inputIndex..];
    }
  }
}
