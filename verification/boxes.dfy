/** Box filtering over a layout of cut points: output `k` is the mean of the
    source samples between cut `k` and cut `k + 1`, both clipped to the
    buffer. Both the whole-buffer resampler and the streaming framer are
    instances, differing only in where they put the cuts. */
module Boxes {
  import opened Basics

  /** Cut points never go backwards. */
  predicate Ascending(cuts: seq<nat>)
  {
    forall i, j :: 0 <= i <= j < |cuts| ==> cuts[i] <= cuts[j]
  }

  /** The source samples averaged into output `k`. */
  function Window(buf: seq<real>, cuts: seq<nat>, k: nat): seq<real>
    requires Ascending(cuts) && k + 1 < |cuts|
  {
    buf[Min(cuts[k], |buf|)..Min(cuts[k + 1], |buf|)]
  }

  function Windows(buf: seq<real>, cuts: seq<nat>): seq<seq<real>>
    requires Ascending(cuts) && |cuts| >= 1
  {
    seq(|cuts| - 1, k requires 0 <= k < |cuts| - 1 => Window(buf, cuts, k))
  }

  function BoxFilter(buf: seq<real>, cuts: seq<nat>): seq<real>
    requires Ascending(cuts) && |cuts| >= 1
  {
    seq(|cuts| - 1, k requires 0 <= k < |cuts| - 1 => Mean(Window(buf, cuts, k)))
  }

  /** The windows are consecutive and do not overlap: together they are
      exactly the samples between the first and the last cut. */
  lemma {:induction false} WindowsPartition(buf: seq<real>, cuts: seq<nat>)
    requires Ascending(cuts) && |cuts| >= 1
    ensures Flatten(Windows(buf, cuts)) == buf[Min(cuts[0], |buf|)..Min(cuts[|cuts| - 1], |buf|)]
    decreases |cuts|
  {
    var ws := Windows(buf, cuts);
    if |cuts| == 1 {
      assert ws == [];
    } else {
      var rest := cuts[1..];
      assert Ascending(rest);
      WindowsPartition(buf, rest);
      assert ws[1..] == Windows(buf, rest);
      assert ws[0] == Window(buf, cuts, 0);
      var a, b, c := Min(cuts[0], |buf|), Min(cuts[1], |buf|), Min(cuts[|cuts| - 1], |buf|);
      assert buf[a..b] + buf[b..c] == buf[a..c];
    }
  }

  /** The filter reads nothing past the last cut: a buffer that reaches that
      cut gives the same output as any buffer sharing its first `c` samples. */
  lemma BoxFilterPrefix(buf: seq<real>, cuts: seq<nat>, c: nat)
    requires Ascending(cuts) && |cuts| >= 1
    requires cuts[|cuts| - 1] <= c <= |buf|
    ensures BoxFilter(buf, cuts) == BoxFilter(buf[..c], cuts)
    ensures Windows(buf, cuts) == Windows(buf[..c], cuts)
  {
    forall k | 0 <= k < |cuts| - 1
      ensures Window(buf, cuts, k) == Window(buf[..c], cuts, k)
    {
      assert cuts[k] <= cuts[k + 1] <= cuts[|cuts| - 1];
    }
  }

  /** Cut points taken from a non-decreasing function of the cut index. */
  lemma AscendingFrom(cuts: seq<nat>)
    requires forall k :: 0 <= k < |cuts| - 1 ==> cuts[k] <= cuts[k + 1]
    ensures Ascending(cuts)
  {
    forall i, j | 0 <= i <= j < |cuts|
      ensures cuts[i] <= cuts[j]
    {
      AscendingStep(cuts, i, j);
    }
  }

  lemma {:induction false} AscendingStep(cuts: seq<nat>, i: nat, j: nat)
    requires forall k :: 0 <= k < |cuts| - 1 ==> cuts[k] <= cuts[k + 1]
    requires i <= j < |cuts|
    ensures cuts[i] <= cuts[j]
    decreases j - i
  {
    if i < j {
      AscendingStep(cuts, i + 1, j);
    }
  }
}
