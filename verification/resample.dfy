/** `downsampleBuffer` of lib/transcoder.js: a pure box-filter rate converter.
    Output `j` averages the source samples from `round(j*r)` up to
    `round((j+1)*r)` (clipped to the input), where `r = source/target`; the
    output has `round(n / r)` samples. */
module Resample {
  import opened Basics
  import opened Boxes

  datatype RateError = UpsamplingRejected

  /** `Math.round(a / b)` for non-negative `a`: the nearest integer, with
      halves rounded up. */
  function RoundDiv(a: nat, b: Pos): nat
  {
    (2 * a + b) / (2 * b)
  }

  /** `RoundDiv(a, b)` is the integer within one half of `a / b`. */
  lemma RoundDivBounds(a: nat, b: Pos)
    ensures var r := RoundDiv(a, b); (2 * r - 1) * b <= 2 * a < (2 * r + 1) * b
  {
    var q := RoundDiv(a, b);
    DivMod(2 * a + b, 2 * b);
    assert q * (2 * b) == 2 * q * b;
  }

  /** `Math.round(n / (source / target))`, the number of output samples. */
  function OutLength(n: nat, source: Pos, target: nat): nat
  {
    RoundDiv(n * target, source)
  }

  /** `Math.round(j * source / target)`: where window `j` starts. */
  function ResampleCut(j: nat, source: Pos, target: Pos): nat
  {
    RoundDiv(j * source, target)
  }

  function ResampleCuts(n: nat, source: Pos, target: Pos): seq<nat>
  {
    seq(OutLength(n, source, target) + 1, j requires 0 <= j => ResampleCut(j, source, target))
  }

  /** When the target rate is below the source rate each window starts
      strictly after the previous one. */
  lemma CutStep(j: nat, source: Pos, target: Pos)
    requires target < source
    ensures ResampleCut(j, source, target) < ResampleCut(j + 1, source, target)
  {
    var c0, c1 := ResampleCut(j, source, target), ResampleCut(j + 1, source, target);
    RoundDivBounds(j * source, target);
    RoundDivBounds((j + 1) * source, target);
    assert (j + 1) * source == j * source + source;
    if c1 <= c0 {
      MulLe(2 * c1 + 1, 2 * c0 + 1, target);
      assert false;
    }
  }

  /** Every window of a downsampled output starts inside the input. */
  lemma CutInside(n: nat, j: nat, source: Pos, target: Pos)
    requires target < source && j < OutLength(n, source, target)
    ensures ResampleCut(j, source, target) < n
  {
    RoundDivBounds(n * target, source);
    RoundDivBounds(j * source, target);
    CutInsideBounds(n, j, OutLength(n, source, target), ResampleCut(j, source, target), source, target);
  }

  /** The arithmetic of `CutInside`, given the two rounding bounds. */
  lemma CutInsideBounds(n: nat, j: nat, m: nat, c: nat, s: Pos, t: Pos)
    requires t < s && j < m
    requires (2 * m - 1) * s <= 2 * (n * t)
    requires (2 * c - 1) * t <= 2 * (j * s)
    ensures c < n
  {
    MulLe(2 * j + 1, 2 * m - 1, s);
    assert (2 * j + 1) * s == 2 * (j * s) + s;
    assert (2 * n - 1) * t == 2 * (n * t) - t;
    if c >= n {
      MulLe(2 * n - 1, 2 * c - 1, t);
      assert false;
    }
  }

  lemma ResampleCutsAscending(n: nat, source: Pos, target: Pos)
    requires target < source
    ensures Ascending(ResampleCuts(n, source, target))
  {
    var cuts := ResampleCuts(n, source, target);
    forall k | 0 <= k < |cuts| - 1
      ensures cuts[k] <= cuts[k + 1]
    {
      CutStep(k, source, target);
    }
    AscendingFrom(cuts);
  }

  /** The rate converter. Equal rates return the input as it is; a higher
      target rate throws; a target rate of 0 (also what an absent rate
      amounts to) makes the ratio infinite and the output empty. */
  function Downsample(buffer: seq<real>, source: nat, target: nat): (r: Result<seq<real>, RateError>)
    ensures target == source ==> r == Ok(buffer)
    ensures target > source ==> r == Err(UpsamplingRejected)
    ensures target < source ==> r.Ok? && |r.value| == OutLength(|buffer|, source, target)
  {
    if target == source then Ok(buffer)
    else if target > source then Err(UpsamplingRejected)
    else if target == 0 then Ok([])
    else
      ResampleCutsAscending(|buffer|, source, target);
      Ok(BoxFilter(buffer, ResampleCuts(|buffer|, source, target)))
  }

  /** Each output sample is the mean of a non-empty window of the input, so
      the `accum / count` division never divides by zero. */
  lemma DownsampleWindows(buffer: seq<real>, source: Pos, target: Pos)
    requires target < source
    ensures var out := Downsample(buffer, source, target).value;
      forall j :: 0 <= j < |out| ==>
        var lo, hi := ResampleCut(j, source, target), Min(|buffer|, ResampleCut(j + 1, source, target));
        lo < hi && out[j] == Mean(buffer[lo..hi])
  {
    var out := Downsample(buffer, source, target).value;
    var cuts := ResampleCuts(|buffer|, source, target);
    ResampleCutsAscending(|buffer|, source, target);
    forall j | 0 <= j < |out|
      ensures var lo, hi := ResampleCut(j, source, target), Min(|buffer|, ResampleCut(j + 1, source, target));
        lo < hi && out[j] == Mean(buffer[lo..hi])
    {
      CutInside(|buffer|, j, source, target);
      CutStep(j, source, target);
      assert out[j] == Mean(Window(buffer, cuts, j));
    }
  }

  /** Consecutive windows share their boundaries: taken together they are
      the input up to the end of the last window, without gaps or overlaps. */
  lemma DownsamplePartition(buffer: seq<real>, source: Pos, target: Pos)
    requires target < source
    ensures var cuts := ResampleCuts(|buffer|, source, target);
      Ascending(cuts) &&
      |Windows(buffer, cuts)| == |Downsample(buffer, source, target).value| &&
      Flatten(Windows(buffer, cuts)) == buffer[..Min(|buffer|, ResampleCut(OutLength(|buffer|, source, target), source, target))]
  {
    var cuts := ResampleCuts(|buffer|, source, target);
    ResampleCutsAscending(|buffer|, source, target);
    WindowsPartition(buffer, cuts);
    FirstCut(source, target);
    assert cuts[0] == ResampleCut(0, source, target);
    assert cuts[|cuts| - 1] == ResampleCut(OutLength(|buffer|, source, target), source, target);
  }

  /** The first window starts at the first sample. */
  lemma FirstCut(source: Pos, target: Pos)
    ensures ResampleCut(0, source, target) == 0
  {
    DivUnique(target, 2 * target, 0);
  }

  /** Converting `[1, 2, 3, 4]` from rate 4 to rate 2 averages pairs. */
  lemma DownsampleExample()
    ensures Downsample([1.0, 2.0, 3.0, 4.0], 4, 2) == Ok([1.5, 3.5])
  {
    ExampleDownsample([1.0, 2.0, 3.0, 4.0], 4, 2);
  }

  lemma ExampleDownsample(buffer: seq<real>, source: Pos, target: Pos)
    requires buffer == [1.0, 2.0, 3.0, 4.0] && source == 4 && target == 2
    ensures Downsample(buffer, source, target) == Ok([1.5, 3.5])
  {
    ExampleCuts();
    ResampleCutsAscending(|buffer|, source, target);
    ExamplePairs(buffer, ResampleCuts(|buffer|, source, target));
  }

  lemma ExampleCuts()
    ensures var cuts := ResampleCuts(4, 4, 2);
      |cuts| == 3 && cuts[0] == 0 && cuts[1] == 2 && cuts[2] == 4
  {
    var cuts := ResampleCuts(4, 4, 2);
    assert |cuts| == 3;
    assert cuts[0] == ResampleCut(0, 4, 2) == 0;
    assert cuts[1] == ResampleCut(1, 4, 2) == 2;
    assert cuts[2] == ResampleCut(2, 4, 2) == 4;
  }

  lemma ExamplePairs(buffer: seq<real>, cuts: seq<nat>)
    requires buffer == [1.0, 2.0, 3.0, 4.0]
    requires |cuts| == 3 && cuts[0] == 0 && cuts[1] == 2 && cuts[2] == 4
    ensures Ascending(cuts) && BoxFilter(buffer, cuts) == [1.5, 3.5]
  {
    ExampleMeans();
    assert Window(buffer, cuts, 0) == [1.0, 2.0];
    assert Window(buffer, cuts, 1) == [3.0, 4.0];
  }

  lemma ExampleMeans()
    ensures Mean([1.0, 2.0]) == 1.5 && Mean([3.0, 4.0]) == 3.5
  {
    assert [1.0, 2.0][..1] == [1.0];
    assert [3.0, 4.0][..1] == [3.0];
    assert [1.0][..0] == [] && [3.0][..0] == [];
    assert Sum([1.0]) == 1.0 && Sum([3.0]) == 3.0;
    assert Sum([1.0, 2.0]) == 3.0 && Sum([3.0, 4.0]) == 7.0;
  }

  /** The inner loop of `downsampleBuffer`: `accum / count` over the
      samples from `lo` up to `hi` or the end of the input. */
  method WindowMean(buffer: seq<real>, lo: nat, hi: nat) returns (mean: real)
    requires lo < hi && lo < |buffer|
    ensures mean == Mean(buffer[lo..Min(hi, |buffer|)])
  {
    var accum := 0.0;
    var count := 0;
    var i := lo;
    while i < hi && i < |buffer|
      invariant lo <= i <= Min(hi, |buffer|)
      invariant accum == Sum(buffer[lo..i]) && count == i - lo
    {
      assert buffer[lo..i + 1][..i - lo] == buffer[lo..i];
      accum := accum + buffer[i];
      count := count + 1;
      i := i + 1;
    }
    mean := accum / (count as real);
  }

  /** The loop of `downsampleBuffer` as written: a cursor into the input that
      jumps to the rounded next boundary after each output sample. */
  method DownsampleBuffer(buffer: seq<real>, source: nat, target: nat) returns (r: Result<seq<real>, RateError>)
    ensures r == Downsample(buffer, source, target)
  {
    if target == source {
      return Ok(buffer);
    }
    if target > source {
      return Err(UpsamplingRejected);
    }
    if target == 0 {
      return Ok([]);
    }
    var newLength := OutLength(|buffer|, source, target);
    ghost var cuts := ResampleCuts(|buffer|, source, target);
    ResampleCutsAscending(|buffer|, source, target);
    var result: seq<real> := [];
    var offsetResult := 0;
    var offsetBuffer := 0;
    while offsetResult < newLength
      invariant offsetResult <= newLength
      invariant offsetBuffer == ResampleCut(offsetResult, source, target)
      invariant result == BoxFilter(buffer, cuts)[..offsetResult]
    {
      var nextOffsetBuffer := ResampleCut(offsetResult + 1, source, target);
      CutInside(|buffer|, offsetResult, source, target);
      CutStep(offsetResult, source, target);
      var mean := WindowMean(buffer, offsetBuffer, nextOffsetBuffer);
      assert Window(buffer, cuts, offsetResult) == buffer[offsetBuffer..Min(nextOffsetBuffer, |buffer|)];
      result := result + [mean];
      offsetResult := offsetResult + 1;
      offsetBuffer := nextOffsetBuffer;
    }
    assert |BoxFilter(buffer, cuts)| == newLength;
    assert result == BoxFilter(buffer, cuts);
    return Ok(result);
  }
}
