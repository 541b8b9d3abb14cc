/** Row-major flattening of four-dimensional coordinates.

    A tensor shape is a sequence of four dimension sizes, outermost first. The flat
    offset of a coordinate whose k-th component is d[k] is the mixed-radix number
    ((d[0] * r[1] + d[1]) * r[2] + d[2]) * r[3] + d[3]. This module proves that
    flattening is a bijection between the coordinates that fit the shape and the
    offsets below the shape's element count.
 */
module MixedRadix {

  /** Number of elements of a tensor with the four dimension sizes `r`. */
  function Volume(r: seq<nat>): nat
    requires |r| == 4
  {
    ((r[0] * r[1]) * r[2]) * r[3]
  }

  /** Every component of `d` is a valid index into the matching dimension of `r`. */
  predicate Fits(r: seq<nat>, d: seq<nat>)
    requires |r| == 4
  {
    |d| == 4 && d[0] < r[0] && d[1] < r[1] && d[2] < r[2] && d[3] < r[3]
  }

  /** Flat row-major offset of the coordinate `d` in a tensor of dimension sizes `r`. */
  function Pack(r: seq<nat>, d: seq<nat>): nat
    requires |r| == 4 && |d| == 4
  {
    ((d[0] * r[1] + d[1]) * r[2] + d[2]) * r[3] + d[3]
  }

  /** The coordinate whose flat offset is `i`. */
  function Unpack(r: seq<nat>, i: nat): (d: seq<nat>)
    requires |r| == 4 && i < Volume(r)
    ensures Fits(r, d)
    ensures Pack(r, d) == i
  {
    PositiveDims(r, i);
    var q1 := i / r[3];
    var q2 := q1 / r[2];
    DivBelow(i, (r[0] * r[1]) * r[2], r[3]);
    DivBelow(q1, r[0] * r[1], r[2]);
    DivBelow(q2, r[0], r[1]);
    [q2 / r[1], q2 % r[1], q1 % r[2], i % r[3]]
  }

  // ---------------------------------------------------------------------------
  // Two-digit facts about a * B + b with b < B, from which the four-digit ones follow.

  lemma PositiveDims(r: seq<nat>, i: nat)
    requires |r| == 4 && i < Volume(r)
    ensures r[0] > 0 && r[1] > 0 && r[2] > 0 && r[3] > 0
  {
    if r[0] == 0 || r[1] == 0 || r[2] == 0 || r[3] == 0 {
      assert false;
    }
  }

  lemma DigitBelow(a: nat, A: nat, b: nat, B: nat)
    requires a < A && b < B
    ensures a * B + b < A * B
  {
    calc {
      a * B + b;
    <  a * B + B;
    == (a + 1) * B;
    <= { MulMonotone(a + 1, A, B); }
      A * B;
    }
  }

  lemma MulMonotone(x: nat, y: nat, B: nat)
    requires x <= y
    ensures x * B <= y * B
  {
    assert y * B == x * B + (y - x) * B;
  }

  lemma DivBelow(i: nat, A: nat, B: nat)
    requires B > 0 && i < A * B
    ensures i / B < A
  {
    var q, m := i / B, i % B;
    assert i == q * B + m;
    if q >= A {
      MulMonotone(A, q, B);
      assert false;
    }
  }

  lemma DigitSplit(a: nat, b: nat, B: nat)
    requires b < B
    ensures (a * B + b) / B == a && (a * B + b) % B == b
  {
    var i := a * B + b;
    var q, m := i / B, i % B;
    assert i == q * B + m;
    if q < a {
      MulMonotone(q + 1, a, B);
      assert false;
    } else if q > a {
      MulMonotone(a + 1, q, B);
      assert false;
    }
  }

  // ---------------------------------------------------------------------------
  // Four-digit facts.

  /** Every fitting coordinate has an offset below the element count. */
  lemma PackBelowVolume(r: seq<nat>, d: seq<nat>)
    requires |r| == 4 && Fits(r, d)
    ensures Pack(r, d) < Volume(r)
  {
    DigitBelow(d[0], r[0], d[1], r[1]);
    DigitBelow(d[0] * r[1] + d[1], r[0] * r[1], d[2], r[2]);
    DigitBelow((d[0] * r[1] + d[1]) * r[2] + d[2], (r[0] * r[1]) * r[2], d[3], r[3]);
  }

  /** Unpacking the offset of a fitting coordinate gives that coordinate back. */
  lemma UnpackPack(r: seq<nat>, d: seq<nat>)
    requires |r| == 4 && Fits(r, d)
    ensures Pack(r, d) < Volume(r) && Unpack(r, Pack(r, d)) == d
  {
    PackBelowVolume(r, d);
    var a1 := d[0] * r[1] + d[1];
    var a2 := a1 * r[2] + d[2];
    DigitSplit(a2, d[3], r[3]);
    DigitSplit(a1, d[2], r[2]);
    DigitSplit(d[0], d[1], r[1]);
  }
}
