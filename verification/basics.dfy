/** Small shared vocabulary: optional values, results with an error side,
    integer arithmetic facts the solver does not find on its own, and
    sums, means and concatenations of sample sequences. */
module Basics {

  /** A JavaScript value that may be absent (`undefined` or `null`). */
  datatype Option<+T> = None | Some(value: T)

  /** The outcome of an operation that can throw. */
  datatype Result<+T, +E> = Ok(value: T) | Err(error: E)

  /** Strictly positive integers: sample rates and frame lengths. */
  type Pos = n: int | n > 0 witness 1

  function Min(a: int, b: int): int
  {
    if a <= b then a else b
  }

  // ---------------------------------------------------------------------
  // Integer arithmetic with a variable divisor
  // ---------------------------------------------------------------------

  lemma MulLe(a: int, b: int, c: int)
    requires a <= b && c >= 0
    ensures a * c <= b * c
  {
  }

  lemma DivMod(x: int, d: int)
    requires d > 0
    ensures x == (x / d) * d + x % d && 0 <= x % d < d
  {
  }

  /** `q` is the quotient of `x` by `d` as soon as `x` lies in `[q*d, q*d + d)`. */
  lemma DivUnique(x: int, d: int, q: int)
    requires d > 0 && q * d <= x < q * d + d
    ensures x / d == q
  {
    DivMod(x, d);
    var q0 := x / d;
    if q0 > q {
      MulLe(q + 1, q0, d);
      assert false;
    } else if q0 < q {
      MulLe(q0 + 1, q, d);
      assert false;
    }
  }

  lemma DivMono(x: int, y: int, d: int)
    requires x <= y && d > 0
    ensures x / d <= y / d
  {
    DivMod(x, d);
    DivMod(y, d);
    if x / d > y / d {
      MulLe(y / d + 1, x / d, d);
      assert false;
    }
  }

  // ---------------------------------------------------------------------
  // Sums, means, concatenation
  // ---------------------------------------------------------------------

  /** The running `sum += x` of the source's averaging loops, which add
      samples at the tail. */
  function Sum(s: seq<real>): real
  {
    if |s| == 0 then 0.0 else Sum(s[..|s| - 1]) + s[|s| - 1]
  }

  /** The box-filter value of a window: its arithmetic mean. An empty window
      would be `0 / 0`, NaN in JavaScript; the only place where one can
      occur stores it into an `Int16Array`, which turns NaN into 0, so the
      empty mean is 0 here. */
  function Mean(s: seq<real>): real
  {
    if |s| == 0 then 0.0 else Sum(s) / (|s| as real)
  }

  function Flatten<T>(ss: seq<seq<T>>): seq<T>
  {
    if |ss| == 0 then [] else ss[0] + Flatten(ss[1..])
  }

  lemma Associative<T>(x: seq<T>, y: seq<T>, z: seq<T>)
    ensures x + (y + z) == (x + y) + z
  {
  }

  lemma FlattenAppend<T>(a: seq<seq<T>>, b: seq<seq<T>>)
    ensures Flatten(a + b) == Flatten(a) + Flatten(b)
  {
    if |a| > 0 {
      assert (a + b)[1..] == a[1..] + b;
      FlattenAppend(a[1..], b);
    } else {
      assert a + b == b;
    }
  }

  /** Flattening pieces that all have length `w`. */
  lemma {:induction false} FlattenUniform<T>(ss: seq<seq<T>>, w: nat)
    requires forall i :: 0 <= i < |ss| ==> |ss[i]| == w
    ensures |Flatten(ss)| == w * |ss|
  {
    if |ss| > 0 {
      FlattenUniform(ss[1..], w);
    }
  }
}
