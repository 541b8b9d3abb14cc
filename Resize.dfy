/** The reference resize kernel: resampling the height and width of a 4-D tensor with
    bilinear interpolation or nearest-neighbour selection.

    Single-precision floats are modelled by exact reals, so `floorf` is `Floor`,
    the scale factor `inputExtent / outputExtent` is an exact quotient, and `sqrt` is
    left out of the nearest-neighbour distances (it is monotone, so comparing squared
    distances picks the same candidate). The read cursor is a sequence `input`, the write
    cursor an array `output`.
 */
module Resize {
  import opened MixedRadix
  import opened Layout

  /** The resampling rule. Any rule other than Bilinear takes the nearest-neighbour path. */
  datatype ResizeMethod = Bilinear | NearestNeighbor

  function Min(a: real, b: real): real { if a <= b then a else b }

  function Max(a: real, b: real): real { if a <= b then b else a }

  // ---------------------------------------------------------------------------
  // Linear interpolation.

  /** Linear interpolation from `a` (at w = 0) to `b` (at w = 1). */
  function Lerp(a: real, b: real, w: real): (r: real)
    ensures w == 0.0 ==> r == a
    ensures w == 1.0 ==> r == b
    ensures a == b ==> r == a
    ensures 0.0 <= w <= 1.0 ==> Min(a, b) <= r <= Max(a, b)
  {
    LerpBetween(a, b, w);
    w * b + (1.0 - w) * a
  }

  lemma LerpBetween(a: real, b: real, w: real)
    ensures 0.0 <= w <= 1.0 ==> Min(a, b) <= w * b + (1.0 - w) * a <= Max(a, b)
  {
    if 0.0 <= w <= 1.0 {
      assert w * b + (1.0 - w) * a == a + w * (b - a);
      assert (b - a) - w * (b - a) == (1.0 - w) * (b - a);
      MulNonNegative(w, if a <= b then b - a else a - b);
      MulNonNegative(1.0 - w, if a <= b then b - a else a - b);
    }
  }

  lemma MulNonNegative(x: real, y: real)
    requires x >= 0.0 && y >= 0.0
    ensures x * y >= 0.0
  {
  }

  /** Blend of the four corner samples of a unit square: along each row by `xw`, then
      between the rows by `yw`. */
  function BilinearBlend(s00: real, s01: real, s10: real, s11: real, xw: real, yw: real): (r: real)
    ensures 0.0 <= xw <= 1.0 && 0.0 <= yw <= 1.0 ==>
              Min(Min(s00, s01), Min(s10, s11)) <= r <= Max(Max(s00, s01), Max(s10, s11))
    ensures xw == 0.0 && yw == 0.0 ==> r == s00
    ensures s00 == s01 == s10 == s11 ==> r == s00
  {
    Lerp(Lerp(s00, s01, xw), Lerp(s10, s11, xw), yw)
  }

  // ---------------------------------------------------------------------------
  // Coordinate mapping with the top-left-corner convention.

  /** The real-valued input coordinate onto which the top-left corner of output texel `o`
      projects: `o * (inExtent / outExtent)`. */
  function SourceCoord(o: nat, inExtent: nat, outExtent: nat): (r: real)
    requires outExtent > 0
    ensures 0.0 <= r
    ensures o < outExtent && inExtent > 0 ==> r < inExtent as real
  {
    ScaleBounds(o, inExtent, outExtent);
    (o as real) * ((inExtent as real) / (outExtent as real))
  }

  lemma ScaleBounds(o: nat, inExtent: nat, outExtent: nat)
    requires outExtent > 0
    ensures 0.0 <= (o as real) * ((inExtent as real) / (outExtent as real))
    ensures o < outExtent && inExtent > 0 ==> (o as real) * ((inExtent as real) / (outExtent as real)) < inExtent as real
  {
    var scale := (inExtent as real) / (outExtent as real);
    MulNonNegative(o as real, scale);
    if o < outExtent && inExtent > 0 {
      assert (outExtent as real) * scale == inExtent as real;
      assert (outExtent as real) * scale - (o as real) * scale == ((outExtent - o) as real) * scale;
      assert ((outExtent - o) as real) * scale > 0.0;
    }
  }

  /** The floor of the projected coordinate is the integer quotient `o * inExtent / outExtent`
      and its fractional part is the remainder over `outExtent`. */
  lemma FloorOfSourceCoord(o: nat, inExtent: nat, outExtent: nat)
    requires outExtent > 0
    ensures SourceCoord(o, inExtent, outExtent).Floor == (o * inExtent) / outExtent
    ensures SourceCoord(o, inExtent, outExtent) - ((o * inExtent) / outExtent) as real
              == ((o * inExtent) % outExtent) as real / (outExtent as real)
  {
    var q, m := (o * inExtent) / outExtent, (o * inExtent) % outExtent;
    QuotientAsReal(o * inExtent, outExtent);
    ProductAsReal(o, inExtent);
    ScaledSplit(o as real, inExtent as real, outExtent as real, q as real, m as real);
  }

  /** Euclidean division of `a` by `b`, in the reals: `a = q * b + m` with the remainder
      over `b` in [0, 1). */
  lemma QuotientAsReal(a: nat, b: nat)
    requires b > 0
    ensures a as real == ((a / b) as real) * (b as real) + (a % b) as real
    ensures 0.0 <= ((a % b) as real) / (b as real) < 1.0
  {
    assert a == (a / b) * b + a % b;
  }

  lemma ProductAsReal(x: nat, y: nat)
    ensures (x * y) as real == (x as real) * (y as real)
  {
  }

  /** `o * (inE / outE)` splits into the quotient and the remainder over `outE`. */
  lemma ScaledSplit(o: real, inE: real, outE: real, q: real, m: real)
    requires outE > 0.0 && o * inE == q * outE + m
    ensures o * (inE / outE) == q + m / outE
  {
    var s := inE / outE;
    var t := q + m / outE;
    assert s * outE == inE;
    assert (o * s) * outE == o * inE;
    assert t * outE == q * outE + m;
    assert (o * s - t) * outE == 0.0;
  }

  /** An output coordinate inside the output extent maps to a base coordinate inside the
      input extent. */
  lemma BaseBelowExtent(o: nat, inExtent: nat, outExtent: nat)
    requires o < outExtent && inExtent > 0
    ensures (o * inExtent) / outExtent < inExtent
  {
    MulMonotone(o + 1, outExtent, inExtent);
    assert o * inExtent < outExtent * inExtent;
    DivBelow(o * inExtent, inExtent, outExtent);
  }

  /** The texel after `base` along an axis, clamped to the last valid index
      (`std::min(base + 1, inExtent - 1)`). */
  function ClampNext(base: nat, inExtent: nat): (r: nat)
    requires inExtent > 0
    ensures r <= base + 1 && r <= inExtent - 1
    ensures r == base + 1 || r == inExtent - 1
  {
    if base + 1 <= inExtent - 1 then base + 1 else inExtent - 1
  }

  /** What one axis of an output coordinate maps to: the floored source coordinate (as a
      real and as an index), the clamped next index and the interpolation weight. */
  datatype AxisMap = AxisMap(floor: real, base: nat, next: nat, weight: real)

  function MapAxis(o: nat, inExtent: nat, outExtent: nat): (m: AxisMap)
    requires o < outExtent && inExtent > 0
    ensures m.base < inExtent && m.next < inExtent
  {
    var src := SourceCoord(o, inExtent, outExtent);
    FloorOfSourceCoord(o, inExtent, outExtent);
    BaseBelowExtent(o, inExtent, outExtent);
    var base: nat := src.Floor;
    AxisMap(src.Floor as real, base, ClampNext(base, inExtent), src - src.Floor as real)
  }

  /** The base index is the integer quotient `o * inExtent / outExtent`, equal to the
      floored coordinate; the weight is the exact fractional part, in [0, 1); the next index
      is the base or one past it, and equals the base exactly on the last row or column. */
  lemma MapAxisFacts(o: nat, inExtent: nat, outExtent: nat)
    requires o < outExtent && inExtent > 0
    ensures var m := MapAxis(o, inExtent, outExtent);
      && m.base == (o * inExtent) / outExtent && m.floor == m.base as real
      && m.weight == ((o * inExtent) % outExtent) as real / (outExtent as real)
      && 0.0 <= m.weight < 1.0
      && (m.next == m.base || m.next == m.base + 1)
      && (m.next == m.base <==> m.base == inExtent - 1)
  {
    FloorOfSourceCoord(o, inExtent, outExtent);
  }

  // ---------------------------------------------------------------------------
  // Nearest-neighbour selection.

  function Sq(v: real): (r: real)
    ensures r >= 0.0
  {
    if v >= 0.0 then MulNonNegative(v, v); v * v else MulNonNegative(-v, -v); v * v
  }

  /** Squared Euclidean distance from the point (fx, fy) to texel (x, y). */
  function SqDistance(fx: real, fy: real, x: nat, y: nat): real
  {
    Sq(fx - x as real) + Sq(fy - y as real)
  }

  /** The (row, column) the nearest-neighbour rule reads: the base texel when its distance
      from the floored source point is at most that of the diagonal neighbour, otherwise
      that neighbour. Because the point is the floor itself, the base always wins. */
  function NearestTexel(ay: AxisMap, ax: AxisMap): (t: (nat, nat))
    ensures t == (ay.base, ax.base) || t == (ay.next, ax.next)
    ensures ay.floor == ay.base as real && ax.floor == ax.base as real ==> t == (ay.base, ax.base)
  {
    var distance0 := SqDistance(ax.floor, ay.floor, ax.base, ay.base);
    var distance1 := SqDistance(ax.floor, ay.floor, ax.next, ay.next);
    if distance0 <= distance1 then (ay.base, ax.base) else (ay.next, ax.next)
  }

  // ---------------------------------------------------------------------------
  // The value of every output element.

  /** What the kernel demands of its arguments: two four-dimensional shapes, an input of
      the input shape's size, the same batch and channel extents in both, and a non-empty
      input plane whenever some output element has to be computed. */
  predicate ValidArgs(input: seq<real>, inShape: seq<nat>, outShape: seq<nat>, layout: DataLayout)
  {
    |inShape| == 4 && |outShape| == 4 && |input| == Volume(inShape)
    && layout.Batch(outShape) == layout.Batch(inShape)
    && layout.Channels(outShape) == layout.Channels(inShape)
    && (layout.Batch(inShape) > 0 && layout.Channels(inShape) > 0
        && layout.Height(outShape) > 0 && layout.Width(outShape) > 0
        ==> layout.Height(inShape) > 0 && layout.Width(inShape) > 0)
  }

  /** The input element (n, c, h, w). */
  function Sample(input: seq<real>, shape: seq<nat>, layout: DataLayout, n: nat, c: nat, h: nat, w: nat): real
    requires |shape| == 4 && |input| == Volume(shape) && layout.Contains(shape, Coord(n, c, h, w))
  {
    input[layout.GetIndex(shape, n, c, h, w)]
  }

  /** The value the kernel writes for output element `co`. */
  function ResizedValue(input: seq<real>, inShape: seq<nat>, outShape: seq<nat>, layout: DataLayout,
                        rm: ResizeMethod, co: Coord): real
    requires ValidArgs(input, inShape, outShape, layout) && layout.Contains(outShape, co)
  {
    var ay := MapAxis(co.h, layout.Height(inShape), layout.Height(outShape));
    var ax := MapAxis(co.w, layout.Width(inShape), layout.Width(outShape));
    if rm == Bilinear then
      BilinearBlend(Sample(input, inShape, layout, co.n, co.c, ay.base, ax.base),
                    Sample(input, inShape, layout, co.n, co.c, ay.base, ax.next),
                    Sample(input, inShape, layout, co.n, co.c, ay.next, ax.base),
                    Sample(input, inShape, layout, co.n, co.c, ay.next, ax.next),
                    ax.weight, ay.weight)
    else
      var t := NearestTexel(ay, ax);
      Sample(input, inShape, layout, co.n, co.c, t.0, t.1)
  }

  /** The whole output tensor, element by flat offset. */
  function ResizedTensor(input: seq<real>, inShape: seq<nat>, outShape: seq<nat>, layout: DataLayout,
                         rm: ResizeMethod): (r: seq<real>)
    requires ValidArgs(input, inShape, outShape, layout)
    ensures |r| == Volume(outShape)
  {
    seq(Volume(outShape), i requires 0 <= i < Volume(outShape) =>
      ResizedValue(input, inShape, outShape, layout, rm, layout.CoordOf(outShape, i)))
  }

  // ---------------------------------------------------------------------------
  // The order of the writes.

  /** Strict lexicographic order on coordinates in the kernel's loop order: batch, then
      channel, then row, then column. */
  predicate Before(a: Coord, b: Coord)
  {
    a.n < b.n
    || (a.n == b.n && a.c < b.c)
    || (a.n == b.n && a.c == b.c && a.h < b.h)
    || (a.n == b.n && a.c == b.c && a.h == b.h && a.w < b.w)
  }

  /** `cur` and `cur'` split the output coordinates in the same place. */
  ghost predicate SameCut(layout: DataLayout, outShape: seq<nat>, cur: Coord, cur': Coord)
    requires |outShape| == 4
  {
    forall d :: layout.Contains(outShape, d) ==> (Before(d, cur) <==> Before(d, cur'))
  }

  /** `want` holds, at the offset of every output coordinate, that coordinate's resized
      value. */
  ghost predicate Agrees(want: seq<real>, input: seq<real>, inShape: seq<nat>, outShape: seq<nat>,
                         layout: DataLayout, rm: ResizeMethod)
    requires ValidArgs(input, inShape, outShape, layout) && |want| == Volume(outShape)
  {
    forall co {:trigger ResizedValue(input, inShape, outShape, layout, rm, co)} :: layout.Contains(outShape, co) ==>
      want[layout.GetIndex(outShape, co.n, co.c, co.h, co.w)] == ResizedValue(input, inShape, outShape, layout, rm, co)
  }

  /** While the loops stand at `cur`, every output element whose coordinate comes before
      `cur` holds the value `want` has there. */
  ghost predicate WrittenBefore(out: seq<real>, want: seq<real>, layout: DataLayout, outShape: seq<nat>, cur: Coord)
    requires |outShape| == 4 && |out| == Volume(outShape) && |want| == Volume(outShape)
  {
    forall d {:trigger Before(d, cur)} :: layout.Contains(outShape, d) && Before(d, cur) ==>
      out[layout.GetIndex(outShape, d.n, d.c, d.h, d.w)] == want[layout.GetIndex(outShape, d.n, d.c, d.h, d.w)]
  }

  /** While the loops stand at `cur`, the visited coordinates are output coordinates
      before `cur`, in strictly increasing order, and include every output coordinate
      before `cur`. */
  ghost predicate VisitedBefore(visited: seq<Coord>, layout: DataLayout, outShape: seq<nat>, cur: Coord)
    requires |outShape| == 4
  {
    (forall j :: 0 <= j < |visited| ==> layout.Contains(outShape, visited[j]) && Before(visited[j], cur))
    && (forall j, j' :: 0 <= j < j' < |visited| ==> Before(visited[j], visited[j']))
    && (forall d :: layout.Contains(outShape, d) && Before(d, cur) ==> d in visited)
  }

  /** `out` differs from `out0` at most at the output elements from `lo` (inclusive) to
      `hi` (exclusive): every element before `lo` or from `hi` on is untouched. */
  ghost predicate ChangedOnlyIn(out: seq<real>, out0: seq<real>, layout: DataLayout, outShape: seq<nat>,
                                lo: Coord, hi: Coord)
    requires |outShape| == 4 && |out| == Volume(outShape) && |out0| == Volume(outShape)
  {
    forall d {:trigger Before(d, lo)} {:trigger Before(d, hi)} ::
      layout.Contains(outShape, d) && (Before(d, lo) || !Before(d, hi)) ==>
      out[layout.GetIndex(outShape, d.n, d.c, d.h, d.w)] == out0[layout.GetIndex(outShape, d.n, d.c, d.h, d.w)]
  }

  /** Writing the value `want` has at `co` moves the written prefix one column on: the
      write lands on no earlier element. */
  lemma WriteStep(out: seq<real>, want: seq<real>, layout: DataLayout, outShape: seq<nat>, co: Coord, v: real)
    requires |outShape| == 4 && |out| == Volume(outShape) && |want| == Volume(outShape)
    requires layout.Contains(outShape, co) && v == want[layout.GetIndex(outShape, co.n, co.c, co.h, co.w)]
    requires WrittenBefore(out, want, layout, outShape, co)
    ensures WrittenBefore(out[layout.GetIndex(outShape, co.n, co.c, co.h, co.w) := v], want,
                          layout, outShape, co.(w := co.w + 1))
  {
    var o := layout.GetIndex(outShape, co.n, co.c, co.h, co.w);
    var out' := out[o := v];
    forall d | layout.Contains(outShape, d) && Before(d, co.(w := co.w + 1))
      ensures out'[layout.GetIndex(outShape, d.n, d.c, d.h, d.w)] == want[layout.GetIndex(outShape, d.n, d.c, d.h, d.w)]
    {
      if d != co {
        assert Before(d, co);
        if layout.GetIndex(outShape, d.n, d.c, d.h, d.w) == o {
          GetIndexInjective(layout, outShape, d, co);
        }
      }
    }
  }

  /** Visiting `co` moves the visited prefix one column on. */
  lemma VisitStep(visited: seq<Coord>, layout: DataLayout, outShape: seq<nat>, co: Coord)
    requires |outShape| == 4 && layout.Contains(outShape, co)
    requires VisitedBefore(visited, layout, outShape, co)
    ensures VisitedBefore(visited + [co], layout, outShape, co.(w := co.w + 1))
  {
    var v := visited + [co];
    forall d | layout.Contains(outShape, d) && Before(d, co.(w := co.w + 1)) ensures d in v {
      if d != co {
        assert d in visited;
      }
    }
  }

  /** A write at the offset of `co`, with `lo` not after `co`, widens the changed
      range by exactly that element: nothing outside [lo, co] is touched. */
  lemma FrameStep(out: seq<real>, out0: seq<real>, layout: DataLayout, outShape: seq<nat>,
                  lo: Coord, co: Coord, v: real)
    requires |outShape| == 4 && |out| == Volume(outShape) && |out0| == Volume(outShape)
    requires layout.Contains(outShape, co) && !Before(co, lo)
    requires ChangedOnlyIn(out, out0, layout, outShape, lo, co)
    ensures layout.GetIndex(outShape, co.n, co.c, co.h, co.w) < |out|
    ensures ChangedOnlyIn(out[layout.GetIndex(outShape, co.n, co.c, co.h, co.w) := v], out0,
                          layout, outShape, lo, co.(w := co.w + 1))
  {
    var o := layout.GetIndex(outShape, co.n, co.c, co.h, co.w);
    var out' := out[o := v];
    forall d | layout.Contains(outShape, d) && (Before(d, lo) || !Before(d, co.(w := co.w + 1)))
      ensures out'[layout.GetIndex(outShape, d.n, d.c, d.h, d.w)] == out0[layout.GetIndex(outShape, d.n, d.c, d.h, d.w)]
    {
      if !Before(d, lo) {
        assert !Before(d, co);
      }
      if layout.GetIndex(outShape, d.n, d.c, d.h, d.w) == o {
        GetIndexInjective(layout, outShape, d, co);
      }
    }
  }

  /** Two successive updates confined to [lo, mid) and [mid, hi) are together confined
      to [lo, hi). */
  lemma FrameCompose(a: seq<real>, b: seq<real>, c: seq<real>, layout: DataLayout, outShape: seq<nat>,
                     lo: Coord, mid: Coord, hi: Coord)
    requires |outShape| == 4 && |a| == Volume(outShape) && |b| == Volume(outShape) && |c| == Volume(outShape)
    requires !Before(mid, lo) && !Before(hi, mid)
    requires ChangedOnlyIn(b, a, layout, outShape, lo, mid)
    requires ChangedOnlyIn(c, b, layout, outShape, mid, hi)
    ensures ChangedOnlyIn(c, a, layout, outShape, lo, hi)
  {
    forall d | layout.Contains(outShape, d) && (Before(d, lo) || !Before(d, hi))
      ensures c[layout.GetIndex(outShape, d.n, d.c, d.h, d.w)] == a[layout.GetIndex(outShape, d.n, d.c, d.h, d.w)]
    {
      if Before(d, lo) {
        assert Before(d, mid);
      } else {
        assert !Before(d, mid);
      }
    }
  }

  /** Where the loops stand can be renamed to any position that splits the output
      coordinates in the same place. */
  lemma MoveCut(out: seq<real>, want: seq<real>, layout: DataLayout, outShape: seq<nat>,
                visited: seq<Coord>, out0: seq<real>, lo: Coord, cur: Coord, cur': Coord)
    requires |outShape| == 4 && |out| == Volume(outShape) && |want| == Volume(outShape) && |out0| == Volume(outShape)
    requires SameCut(layout, outShape, cur, cur')
    requires WrittenBefore(out, want, layout, outShape, cur)
    requires VisitedBefore(visited, layout, outShape, cur)
    requires ChangedOnlyIn(out, out0, layout, outShape, lo, cur)
    ensures WrittenBefore(out, want, layout, outShape, cur')
    ensures VisitedBefore(visited, layout, outShape, cur')
    ensures ChangedOnlyIn(out, out0, layout, outShape, lo, cur')
  {
  }

  /** The resized tensor holds every output coordinate's resized value at its offset. */
  lemma TensorAgrees(input: seq<real>, inShape: seq<nat>, outShape: seq<nat>, layout: DataLayout, rm: ResizeMethod)
    requires ValidArgs(input, inShape, outShape, layout)
    ensures Agrees(ResizedTensor(input, inShape, outShape, layout, rm), input, inShape, outShape, layout, rm)
  {
    var want := ResizedTensor(input, inShape, outShape, layout, rm);
    forall co | layout.Contains(outShape, co)
      ensures want[layout.GetIndex(outShape, co.n, co.c, co.h, co.w)] == ResizedValue(input, inShape, outShape, layout, rm, co)
    {
      CoordOfGetIndex(layout, outShape, co);
    }
  }

  /** Once the loops are past the last batch, the output is `want`. */
  lemma WrittenAll(out: seq<real>, want: seq<real>, layout: DataLayout, outShape: seq<nat>)
    requires |outShape| == 4 && |out| == Volume(outShape) && |want| == Volume(outShape)
    requires WrittenBefore(out, want, layout, outShape, Coord(layout.Batch(outShape), 0, 0, 0))
    ensures out == want
  {
    forall i | 0 <= i < |out| ensures out[i] == want[i] {
      var d := layout.CoordOf(outShape, i);
      assert Before(d, Coord(layout.Batch(outShape), 0, 0, 0));
    }
  }

  /** Coordinates visited in strictly increasing order are written at pairwise distinct
      offsets: no output element is written twice. */
  lemma WritesDistinct(visited: seq<Coord>, layout: DataLayout, outShape: seq<nat>)
    requires |outShape| == 4
    requires forall j :: 0 <= j < |visited| ==> layout.Contains(outShape, visited[j])
    requires forall j, j' :: 0 <= j < j' < |visited| ==> Before(visited[j], visited[j'])
    ensures forall j, j' :: 0 <= j < j' < |visited| ==>
              layout.GetIndex(outShape, visited[j].n, visited[j].c, visited[j].h, visited[j].w)
              != layout.GetIndex(outShape, visited[j'].n, visited[j'].c, visited[j'].h, visited[j'].w)
  {
    forall j, j' | 0 <= j < j' < |visited|
      ensures layout.GetIndex(outShape, visited[j].n, visited[j].c, visited[j].h, visited[j].w)
              != layout.GetIndex(outShape, visited[j'].n, visited[j'].c, visited[j'].h, visited[j'].w)
    {
      if layout.GetIndex(outShape, visited[j].n, visited[j].c, visited[j].h, visited[j].w)
         == layout.GetIndex(outShape, visited[j'].n, visited[j'].c, visited[j'].h, visited[j'].w) {
        GetIndexInjective(layout, outShape, visited[j], visited[j']);
      }
    }
  }

  // ---------------------------------------------------------------------------
  // The kernel.

  /** One output element: the body of the kernel's innermost loop. The row's projection
      (`fiy`, `y0`, `yw`) is computed once per row by the caller. */
  method Interpolate(input: seq<real>, inShape: seq<nat>, outShape: seq<nat>, layout: DataLayout,
                     resizeMethod: ResizeMethod, n: nat, c: nat, y: nat, x: nat,
                     fiy: real, y0: nat, yw: real)
    returns (interpolatedValue: real)
    requires ValidArgs(input, inShape, outShape, layout) && layout.Contains(outShape, Coord(n, c, y, x))
    requires fiy == SourceCoord(y, layout.Height(inShape), layout.Height(outShape)).Floor as real
    requires y0 as real == fiy
    requires yw == SourceCoord(y, layout.Height(inShape), layout.Height(outShape)) - fiy
    ensures interpolatedValue == ResizedValue(input, inShape, outShape, layout, resizeMethod, Coord(n, c, y, x))
  {
    var inputHeight := layout.Height(inShape);
    var inputWidth := layout.Width(inShape);
    var outputWidth := layout.Width(outShape);
    var ix := SourceCoord(x, inputWidth, outputWidth);
    var fix := ix.Floor as real;
    FloorOfSourceCoord(x, inputWidth, outputWidth);
    var x0: nat := ix.Floor;
    var xw := ix - fix;

    // The texels below and to the right of (y0, x0), clamped to the input.
    var x1 := ClampNext(x0, inputWidth);
    var y1 := ClampNext(y0, inputHeight);

    ghost var ay := MapAxis(y, inputHeight, layout.Height(outShape));
    ghost var ax := MapAxis(x, inputWidth, outputWidth);
    assert ay == AxisMap(fiy, y0, y1, yw) && ax == AxisMap(fix, x0, x1, xw);

    if resizeMethod == Bilinear {
      var input1 := input[layout.GetIndex(inShape, n, c, y0, x0)];
      var input2 := input[layout.GetIndex(inShape, n, c, y0, x1)];
      var input3 := input[layout.GetIndex(inShape, n, c, y1, x0)];
      var input4 := input[layout.GetIndex(inShape, n, c, y1, x1)];
      var ly0 := Lerp(input1, input2, xw);
      var ly1 := Lerp(input3, input4, xw);
      interpolatedValue := Lerp(ly0, ly1, yw);
    } else {
      var distance0 := SqDistance(fix, fiy, x0, y0);
      var distance1 := SqDistance(fix, fiy, x1, y1);
      var xNearest := if distance0 <= distance1 then x0 else x1;
      var yNearest := if distance0 <= distance1 then y0 else y1;
      interpolatedValue := input[layout.GetIndex(inShape, n, c, yNearest, xNearest)];
    }
  }

  /** The body of the kernel's innermost loop: computes output element (n, c, y, x) and
      stores it at its output offset, changing no other element. */
  method ResizeElement(input: seq<real>, inShape: seq<nat>, output: array<real>, outShape: seq<nat>,
                       layout: DataLayout, resizeMethod: ResizeMethod, n: nat, c: nat, y: nat, x: nat,
                       fiy: real, y0: nat, yw: real, ghost want: seq<real>)
    requires ValidArgs(input, inShape, outShape, layout) && output.Length == Volume(outShape)
    requires |want| == Volume(outShape) && Agrees(want, input, inShape, outShape, layout, resizeMethod)
    requires layout.Contains(outShape, Coord(n, c, y, x))
    requires fiy == SourceCoord(y, layout.Height(inShape), layout.Height(outShape)).Floor as real
    requires y0 as real == fiy
    requires yw == SourceCoord(y, layout.Height(inShape), layout.Height(outShape)) - fiy
    modifies output
    ensures layout.GetIndex(outShape, n, c, y, x) < |want|
    ensures output[..] == old(output[..])[layout.GetIndex(outShape, n, c, y, x) := want[layout.GetIndex(outShape, n, c, y, x)]]
  {
    var interpolatedValue := Interpolate(input, inShape, outShape, layout, resizeMethod,
                                         n, c, y, x, fiy, y0, yw);
    var o := layout.GetIndex(outShape, n, c, y, x);
    output[o] := interpolatedValue;
  }

  /** The innermost loop of the kernel: writes output row `y` of plane (n, c), column by
      column, given the row's projection (`fiy`, `y0`, `yw`). It changes no output element
      outside that row. */
  method ResizeRow(input: seq<real>, inShape: seq<nat>, output: array<real>, outShape: seq<nat>,
                   layout: DataLayout, resizeMethod: ResizeMethod, n: nat, c: nat, y: nat,
                   fiy: real, y0: nat, yw: real, ghost want: seq<real>, ghost visited: seq<Coord>)
    returns (ghost visited': seq<Coord>)
    requires ValidArgs(input, inShape, outShape, layout) && output.Length == Volume(outShape)
    requires |want| == Volume(outShape) && Agrees(want, input, inShape, outShape, layout, resizeMethod)
    requires n < layout.Batch(outShape) && c < layout.Channels(outShape) && y < layout.Height(outShape)
    requires fiy == SourceCoord(y, layout.Height(inShape), layout.Height(outShape)).Floor as real
    requires y0 as real == fiy
    requires yw == SourceCoord(y, layout.Height(inShape), layout.Height(outShape)) - fiy
    requires WrittenBefore(output[..], want, layout, outShape, Coord(n, c, y, 0))
    requires VisitedBefore(visited, layout, outShape, Coord(n, c, y, 0))
    modifies output
    ensures WrittenBefore(output[..], want, layout, outShape, Coord(n, c, y + 1, 0))
    ensures VisitedBefore(visited', layout, outShape, Coord(n, c, y + 1, 0))
    ensures ChangedOnlyIn(output[..], old(output[..]), layout, outShape, Coord(n, c, y, 0), Coord(n, c, y + 1, 0))
  {
    var outputWidth := layout.Width(outShape);
    visited' := visited;
    var x := 0;
    while x < outputWidth
      invariant x <= outputWidth
      invariant WrittenBefore(output[..], want, layout, outShape, Coord(n, c, y, x))
      invariant VisitedBefore(visited', layout, outShape, Coord(n, c, y, x))
      invariant ChangedOnlyIn(output[..], old(output[..]), layout, outShape, Coord(n, c, y, 0), Coord(n, c, y, x))
    {
      ghost var co := Coord(n, c, y, x);
      ghost var o := layout.GetIndex(outShape, n, c, y, x);
      WriteStep(output[..], want, layout, outShape, co, want[o]);
      VisitStep(visited', layout, outShape, co);
      FrameStep(output[..], old(output[..]), layout, outShape, Coord(n, c, y, 0), co, want[o]);
      ResizeElement(input, inShape, output, outShape, layout, resizeMethod, n, c, y, x, fiy, y0, yw, want);
      visited' := visited' + [co];
      x := x + 1;
    }
    MoveCut(output[..], want, layout, outShape, visited', old(output[..]),
            Coord(n, c, y, 0), Coord(n, c, y, outputWidth), Coord(n, c, y + 1, 0));
  }

  /** The middle loops' body: writes plane (n, c) of the output, row by row, projecting
      each output row onto the input once. It changes no output element outside that plane. */
  method ResizePlane(input: seq<real>, inShape: seq<nat>, output: array<real>, outShape: seq<nat>,
                     layout: DataLayout, resizeMethod: ResizeMethod, n: nat, c: nat,
                     ghost want: seq<real>, ghost visited: seq<Coord>)
    returns (ghost visited': seq<Coord>)
    requires ValidArgs(input, inShape, outShape, layout) && output.Length == Volume(outShape)
    requires |want| == Volume(outShape) && Agrees(want, input, inShape, outShape, layout, resizeMethod)
    requires n < layout.Batch(outShape) && c < layout.Channels(outShape)
    requires WrittenBefore(output[..], want, layout, outShape, Coord(n, c, 0, 0))
    requires VisitedBefore(visited, layout, outShape, Coord(n, c, 0, 0))
    modifies output
    ensures WrittenBefore(output[..], want, layout, outShape, Coord(n, c + 1, 0, 0))
    ensures VisitedBefore(visited', layout, outShape, Coord(n, c + 1, 0, 0))
    ensures ChangedOnlyIn(output[..], old(output[..]), layout, outShape, Coord(n, c, 0, 0), Coord(n, c + 1, 0, 0))
  {
    var inputHeight := layout.Height(inShape);
    var outputHeight := layout.Height(outShape);
    visited' := visited;
    var y := 0;
    while y < outputHeight
      invariant y <= outputHeight
      invariant WrittenBefore(output[..], want, layout, outShape, Coord(n, c, y, 0))
      invariant VisitedBefore(visited', layout, outShape, Coord(n, c, y, 0))
      invariant ChangedOnlyIn(output[..], old(output[..]), layout, outShape, Coord(n, c, 0, 0), Coord(n, c, y, 0))
    {
      // Real-valued, floored and discrete height coordinates in the input, and the weight.
      var iy := SourceCoord(y, inputHeight, outputHeight);
      var fiy := iy.Floor as real;
      FloorOfSourceCoord(y, inputHeight, outputHeight);
      var y0: nat := iy.Floor;
      var yw := iy - fiy;

      ghost var before := output[..];
      visited' := ResizeRow(input, inShape, output, outShape, layout, resizeMethod,
                            n, c, y, fiy, y0, yw, want, visited');
      FrameCompose(old(output[..]), before, output[..], layout, outShape,
                   Coord(n, c, 0, 0), Coord(n, c, y, 0), Coord(n, c, y + 1, 0));
      y := y + 1;
    }
    MoveCut(output[..], want, layout, outShape, visited', old(output[..]),
            Coord(n, c, 0, 0), Coord(n, c, outputHeight, 0), Coord(n, c + 1, 0, 0));
  }

  /** The channel loop: writes batch `n` of the output, plane by plane. It changes no
      output element outside that batch. */
  method ResizeBatch(input: seq<real>, inShape: seq<nat>, output: array<real>, outShape: seq<nat>,
                     layout: DataLayout, resizeMethod: ResizeMethod, n: nat,
                     ghost want: seq<real>, ghost visited: seq<Coord>)
    returns (ghost visited': seq<Coord>)
    requires ValidArgs(input, inShape, outShape, layout) && output.Length == Volume(outShape)
    requires |want| == Volume(outShape) && Agrees(want, input, inShape, outShape, layout, resizeMethod)
    requires n < layout.Batch(outShape)
    requires WrittenBefore(output[..], want, layout, outShape, Coord(n, 0, 0, 0))
    requires VisitedBefore(visited, layout, outShape, Coord(n, 0, 0, 0))
    modifies output
    ensures WrittenBefore(output[..], want, layout, outShape, Coord(n + 1, 0, 0, 0))
    ensures VisitedBefore(visited', layout, outShape, Coord(n + 1, 0, 0, 0))
    ensures ChangedOnlyIn(output[..], old(output[..]), layout, outShape, Coord(n, 0, 0, 0), Coord(n + 1, 0, 0, 0))
  {
    var channelCount := layout.Channels(inShape);
    visited' := visited;
    var c := 0;
    while c < channelCount
      invariant c <= channelCount
      invariant WrittenBefore(output[..], want, layout, outShape, Coord(n, c, 0, 0))
      invariant VisitedBefore(visited', layout, outShape, Coord(n, c, 0, 0))
      invariant ChangedOnlyIn(output[..], old(output[..]), layout, outShape, Coord(n, 0, 0, 0), Coord(n, c, 0, 0))
    {
      ghost var before := output[..];
      visited' := ResizePlane(input, inShape, output, outShape, layout, resizeMethod, n, c, want, visited');
      FrameCompose(old(output[..]), before, output[..], layout, outShape,
                   Coord(n, 0, 0, 0), Coord(n, c, 0, 0), Coord(n, c + 1, 0, 0));
      c := c + 1;
    }
    MoveCut(output[..], want, layout, outShape, visited', old(output[..]),
            Coord(n, 0, 0, 0), Coord(n, c, 0, 0), Coord(n + 1, 0, 0, 0));
  }

  /** Resamples `input` (of shape `inShape`) into `output` (of shape `outShape`). The
      ghost result lists the output coordinates in the order they are written. */
  method Resize(input: seq<real>, inShape: seq<nat>, output: array<real>, outShape: seq<nat>,
                layout: DataLayout, resizeMethod: ResizeMethod)
    returns (ghost visited: seq<Coord>)
    requires ValidArgs(input, inShape, outShape, layout)
    requires output.Length == Volume(outShape)
    modifies output
    ensures output[..] == ResizedTensor(input, inShape, outShape, layout, resizeMethod)
    ensures forall j :: 0 <= j < |visited| ==> layout.Contains(outShape, visited[j])
    ensures forall j, j' :: 0 <= j < j' < |visited| ==> Before(visited[j], visited[j'])
    ensures forall co :: layout.Contains(outShape, co) ==> co in visited
    ensures forall j, j' :: 0 <= j < j' < |visited| ==>
              layout.GetIndex(outShape, visited[j].n, visited[j].c, visited[j].h, visited[j].w)
              != layout.GetIndex(outShape, visited[j'].n, visited[j'].c, visited[j'].h, visited[j'].w)
  {
    var batchSize := layout.Batch(inShape);
    ghost var want := ResizedTensor(input, inShape, outShape, layout, resizeMethod);
    TensorAgrees(input, inShape, outShape, layout, resizeMethod);
    visited := [];

    var n := 0;
    while n < batchSize
      invariant n <= batchSize
      invariant WrittenBefore(output[..], want, layout, outShape, Coord(n, 0, 0, 0))
      invariant VisitedBefore(visited, layout, outShape, Coord(n, 0, 0, 0))
      invariant ChangedOnlyIn(output[..], old(output[..]), layout, outShape, Coord(0, 0, 0, 0), Coord(n, 0, 0, 0))
    {
      ghost var before := output[..];
      visited := ResizeBatch(input, inShape, output, outShape, layout, resizeMethod, n, want, visited);
      FrameCompose(old(output[..]), before, output[..], layout, outShape,
                   Coord(0, 0, 0, 0), Coord(n, 0, 0, 0), Coord(n + 1, 0, 0, 0));
      n := n + 1;
    }
    WrittenAll(output[..], want, layout, outShape);
    WritesDistinct(visited, layout, outShape);
  }
}
