/** Sample representations: the ×32767 scaling applied before buffering,
    the conversion JavaScript performs when a real value is stored into an
    `Int16Array`, and the two-byte little-endian layout of such an array
    when it is viewed as bytes. */
module Pcm {
  import opened Basics

  /** Buffered samples live in the signed 16-bit range: each incoming float
      sample is multiplied by this factor. */
  const Scale: real := 32767.0

  function ScaleSamples(chunk: seq<real>): seq<real>
  {
    seq(|chunk|, i requires 0 <= i < |chunk| => chunk[i] * Scale)
  }

  lemma ScaleSamplesAppend(a: seq<real>, b: seq<real>)
    ensures ScaleSamples(a + b) == ScaleSamples(a) + ScaleSamples(b)
  {
  }

  /** Truncation toward zero, the first step of JavaScript's ToInt16. */
  function Trunc(x: real): (r: int)
    ensures x >= 0.0 ==> r >= 0 && r as real <= x < r as real + 1.0
    ensures x < 0.0 ==> r <= 0 && r as real - 1.0 < x <= r as real
  {
    if x >= 0.0 then x.Floor else -((-x).Floor)
  }

  predicate IsInt16(v: int)
  {
    -32768 <= v < 32768
  }

  /** The value an `Int16Array` element holds after `a[i] = x`: truncated
      toward zero, then wrapped modulo 2^16 into the signed range. */
  function ToInt16(x: real): (v: int)
    ensures IsInt16(v)
    ensures (v - Trunc(x)) % 65536 == 0
    ensures IsInt16(Trunc(x)) ==> v == Trunc(x)
  {
    var t := Trunc(x);
    var w := (t + 32768) % 65536 - 32768;
    if IsInt16(t) then
      assert (t + 32768) % 65536 == t + 32768 by { DivUnique(t + 32768, 65536, 0); DivMod(t + 32768, 65536); }
      w
    else
      DivMod(t + 32768, 65536);
      assert w - t == -((t + 32768) / 65536) * 65536;
      w
  }

  predicate AllInt16(vs: seq<int>)
  {
    forall i :: 0 <= i < |vs| ==> IsInt16(vs[i])
  }

  type Byte = b: int | 0 <= b < 256

  /** The two bytes of one `Int16Array` element, low byte first. */
  function EncodeInt16(v: int): (bytes: seq<Byte>)
    requires IsInt16(v)
    ensures |bytes| == 2
    ensures DecodeInt16(bytes[0], bytes[1]) == v
  {
    var u := if v < 0 then v + 65536 else v;
    DivMod(u, 256);
    [u % 256, u / 256]
  }

  /** Reads a signed little-endian 16-bit value back from two bytes. */
  function DecodeInt16(lo: Byte, hi: Byte): (v: int)
    ensures IsInt16(v)
  {
    var u := lo + 256 * hi;
    if u >= 32768 then u - 65536 else u
  }

  function EncodeSamples(vs: seq<int>): (bytes: seq<Byte>)
    requires AllInt16(vs)
    ensures |bytes| == 2 * |vs|
    ensures DecodeSamples(bytes) == vs
  {
    if |vs| == 0 then []
    else
      var head := EncodeInt16(vs[0]);
      var tail := EncodeSamples(vs[1..]);
      assert (head + tail)[2..] == tail;
      head + tail
  }

  function DecodeSamples(bytes: seq<Byte>): (vs: seq<int>)
    requires |bytes| % 2 == 0
    ensures |vs| * 2 == |bytes|
  {
    if |bytes| == 0 then [] else [DecodeInt16(bytes[0], bytes[1])] + DecodeSamples(bytes[2..])
  }

  lemma {:induction false} DecodeSamplesAppend(a: seq<Byte>, b: seq<Byte>)
    requires |a| % 2 == 0 && |b| % 2 == 0
    ensures DecodeSamples(a + b) == DecodeSamples(a) + DecodeSamples(b)
  {
    if |a| == 0 {
      assert a + b == b;
    } else {
      assert (a + b)[2..] == a[2..] + b;
      DecodeSamplesAppend(a[2..], b);
    }
  }

  predicate AllFramesInt16(frames: seq<seq<int>>)
  {
    forall i :: 0 <= i < |frames| ==> AllInt16(frames[i])
  }

  /** `Buffer.concat` of the byte views of a sequence of `Int16Array`
      frames, in frame order. */
  function EncodeFrames(frames: seq<seq<int>>): (bytes: seq<Byte>)
    requires AllFramesInt16(frames)
    ensures |bytes| == 2 * |Flatten(frames)|
    ensures DecodeSamples(bytes) == Flatten(frames)
  {
    if |frames| == 0 then []
    else
      var head := EncodeSamples(frames[0]);
      var tail := EncodeFrames(frames[1..]);
      DecodeSamplesAppend(head, tail);
      head + tail
  }

  lemma AllFramesInt16Append(a: seq<seq<int>>, b: seq<seq<int>>)
    requires AllFramesInt16(a) && AllFramesInt16(b)
    ensures AllFramesInt16(a + b)
  {
    forall i | 0 <= i < |a + b|
      ensures AllInt16((a + b)[i])
    {
      if i < |a| {
        assert (a + b)[i] == a[i];
      } else {
        assert (a + b)[i] == b[i - |a|];
      }
    }
  }

  lemma {:induction false} EncodeFramesAppend(a: seq<seq<int>>, b: seq<seq<int>>)
    requires AllFramesInt16(a) && AllFramesInt16(b)
    ensures AllFramesInt16(a + b)
    ensures EncodeFrames(a + b) == EncodeFrames(a) + EncodeFrames(b)
    decreases |a|
  {
    AllFramesInt16Append(a, b);
    if |a| == 0 {
      assert a + b == b;
    } else {
      assert (a + b)[1..] == a[1..] + b;
      AllFramesInt16Append(a[1..], b);
      EncodeFramesAppend(a[1..], b);
      var head := EncodeSamples(a[0]);
      assert EncodeFrames(a + b) == head + EncodeFrames(a[1..] + b);
      Associative(head, EncodeFrames(a[1..]), EncodeFrames(b));
    }
  }

  /** Bytes `W*i .. W*i + W` of `bytes` are the encoding of `frame`. */
  predicate EncodedAt(bytes: seq<Byte>, W: nat, i: nat, frame: seq<int>)
  {
    AllInt16(frame) && W * i + W <= |bytes| && bytes[W * i .. W * i + W] == EncodeSamples(frame)
  }

  /** Frame `i` of frames that each encode to `W` bytes occupies bytes
      `W*i .. W*(i+1)` of the concatenated buffer. */
  lemma {:induction false} EncodeFramesSlot(frames: seq<seq<int>>, W: nat, i: nat)
    requires AllFramesInt16(frames) && i < |frames|
    requires forall j :: 0 <= j < |frames| ==> 2 * |frames[j]| == W
    ensures EncodedAt(EncodeFrames(frames), W, i, frames[i])
    decreases i
  {
    var head := EncodeSamples(frames[0]);
    var tail := EncodeFrames(frames[1..]);
    assert EncodeFrames(frames) == head + tail;
    if i > 0 {
      EncodeFramesSlot(frames[1..], W, i - 1);
      assert frames[1..][i - 1] == frames[i];
      SlotAfterHead(head, tail, W, i, EncodeSamples(frames[i]));
    } else {
      assert (head + tail)[0 .. W] == head;
    }
  }

  lemma EncodedLength(frames: seq<seq<int>>, w: nat)
    requires AllFramesInt16(frames)
    requires forall j :: 0 <= j < |frames| ==> |frames[j]| == w
    ensures |EncodeFrames(frames)| == 2 * w * |frames|
  {
    FlattenUniform(frames, w);
    Regroup(w, |frames|);
  }

  lemma Regroup(w: nat, n: nat)
    ensures 2 * (w * n) == 2 * w * n
  {
  }

  lemma SlotAfterHead<T>(head: seq<T>, tail: seq<T>, W: nat, i: nat, x: seq<T>)
    requires |head| == W && i > 0
    requires W * (i - 1) + W <= |tail| && tail[W * (i - 1) .. W * (i - 1) + W] == x
    ensures W * i + W <= |head + tail| && (head + tail)[W * i .. W * i + W] == x
  {
    Shift(W, i);
    SliceAfter(head, tail, W * i, W * i + W);
  }

  lemma SliceAfter<T>(head: seq<T>, tail: seq<T>, lo: nat, hi: nat)
    requires |head| <= lo <= hi <= |head| + |tail|
    ensures (head + tail)[lo..hi] == tail[lo - |head| .. hi - |head|]
  {
  }

  lemma Shift(W: nat, i: nat)
    requires i > 0
    ensures W * i == W + W * (i - 1)
  {
  }

  /** Encoding one more frame appends its bytes. */
  lemma EncodeFramesSnoc(frames: seq<seq<int>>, i: nat)
    requires AllFramesInt16(frames) && i < |frames|
    ensures AllFramesInt16(frames[..i]) && AllFramesInt16(frames[..i + 1])
    ensures EncodeFrames(frames[..i + 1]) == EncodeFrames(frames[..i]) + EncodeSamples(frames[i])
  {
    assert frames[..i + 1] == frames[..i] + [frames[i]];
    EncodeFramesAppend(frames[..i], [frames[i]]);
    assert EncodeFrames([frames[i]]) == EncodeSamples(frames[i]) + EncodeFrames([]);
  }
}
