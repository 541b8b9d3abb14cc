/** Properties of what the resize kernel writes, stated on ResizedValue and ResizedTensor,
    the functions its method is proved to agree with. */
module ResizeProperties {
  import opened MixedRadix
  import opened Layout
  import opened Resize

  // ---------------------------------------------------------------------------
  // Nearest neighbour.

  /** Every method other than Bilinear reads the base texel: the input element at row
      `h * inHeight / outHeight` and column `w * inWidth / outWidth`, whatever the
      clamped neighbour is. */
  lemma NearestReadsBase(input: seq<real>, inShape: seq<nat>, outShape: seq<nat>, layout: DataLayout,
                         rm: ResizeMethod, co: Coord)
    requires ValidArgs(input, inShape, outShape, layout) && layout.Contains(outShape, co)
    requires rm != Bilinear
    ensures var ay := MapAxis(co.h, layout.Height(inShape), layout.Height(outShape));
      var ax := MapAxis(co.w, layout.Width(inShape), layout.Width(outShape));
      && ay.base == (co.h * layout.Height(inShape)) / layout.Height(outShape)
      && ax.base == (co.w * layout.Width(inShape)) / layout.Width(outShape)
      && ResizedValue(input, inShape, outShape, layout, rm, co) == Sample(input, inShape, layout, co.n, co.c, ay.base, ax.base)
  {
    MapAxisFacts(co.h, layout.Height(inShape), layout.Height(outShape));
    MapAxisFacts(co.w, layout.Width(inShape), layout.Width(outShape));
  }

  // ---------------------------------------------------------------------------
  // Bilinear.

  /** With either method, an output element lies between the least and the greatest of
      the four input samples around its projected point: the bilinear weights are in
      [0, 1], and nearest neighbour returns one of the four. */
  lemma WithinNeighbourhood(input: seq<real>, inShape: seq<nat>, outShape: seq<nat>, layout: DataLayout,
                            rm: ResizeMethod, co: Coord)
    requires ValidArgs(input, inShape, outShape, layout) && layout.Contains(outShape, co)
    ensures var ay := MapAxis(co.h, layout.Height(inShape), layout.Height(outShape));
      var ax := MapAxis(co.w, layout.Width(inShape), layout.Width(outShape));
      var v := ResizedValue(input, inShape, outShape, layout, rm, co);
      && Min(Min(Sample(input, inShape, layout, co.n, co.c, ay.base, ax.base),
                 Sample(input, inShape, layout, co.n, co.c, ay.base, ax.next)),
             Min(Sample(input, inShape, layout, co.n, co.c, ay.next, ax.base),
                 Sample(input, inShape, layout, co.n, co.c, ay.next, ax.next))) <= v
      && v <= Max(Max(Sample(input, inShape, layout, co.n, co.c, ay.base, ax.base),
                      Sample(input, inShape, layout, co.n, co.c, ay.base, ax.next)),
                  Max(Sample(input, inShape, layout, co.n, co.c, ay.next, ax.base),
                      Sample(input, inShape, layout, co.n, co.c, ay.next, ax.next)))
  {
    MapAxisFacts(co.h, layout.Height(inShape), layout.Height(outShape));
    MapAxisFacts(co.w, layout.Width(inShape), layout.Width(outShape));
  }

  /** On the last input row the two rows of the bilinear square are the same row, on the
      last input column the two columns are the same column, and at the bottom-right
      input texel the blend is a copy of that one sample. */
  lemma BilinearBorderCollapse(input: seq<real>, inShape: seq<nat>, outShape: seq<nat>, layout: DataLayout,
                               co: Coord)
    requires ValidArgs(input, inShape, outShape, layout) && layout.Contains(outShape, co)
    ensures var ay := MapAxis(co.h, layout.Height(inShape), layout.Height(outShape));
      var ax := MapAxis(co.w, layout.Width(inShape), layout.Width(outShape));
      var v := ResizedValue(input, inShape, outShape, layout, Bilinear, co);
      && (ay.base == layout.Height(inShape) - 1 ==>
            v == Lerp(Sample(input, inShape, layout, co.n, co.c, ay.base, ax.base),
                      Sample(input, inShape, layout, co.n, co.c, ay.base, ax.next), ax.weight))
      && (ax.base == layout.Width(inShape) - 1 ==>
            v == Lerp(Sample(input, inShape, layout, co.n, co.c, ay.base, ax.base),
                      Sample(input, inShape, layout, co.n, co.c, ay.next, ax.base), ay.weight))
      && (ay.base == layout.Height(inShape) - 1 && ax.base == layout.Width(inShape) - 1 ==>
            v == Sample(input, inShape, layout, co.n, co.c, ay.base, ax.base))
  {
    MapAxisFacts(co.h, layout.Height(inShape), layout.Height(outShape));
    MapAxisFacts(co.w, layout.Width(inShape), layout.Width(outShape));
  }

  // ---------------------------------------------------------------------------
  // Top-left corner and identity.

  /** The output texel (0, 0) projects exactly onto the input texel (0, 0): either method
      copies that sample. */
  lemma TopLeftCopies(input: seq<real>, inShape: seq<nat>, outShape: seq<nat>, layout: DataLayout,
                      rm: ResizeMethod, co: Coord)
    requires ValidArgs(input, inShape, outShape, layout) && layout.Contains(outShape, co)
    requires co.h == 0 && co.w == 0
    ensures layout.Contains(inShape, Coord(co.n, co.c, 0, 0))
    ensures ResizedValue(input, inShape, outShape, layout, rm, co) == Sample(input, inShape, layout, co.n, co.c, 0, 0)
  {
    MapAxisFacts(0, layout.Height(inShape), layout.Height(outShape));
    MapAxisFacts(0, layout.Width(inShape), layout.Width(outShape));
  }

  /** An axis resized to its own extent maps every coordinate onto itself with zero weight. */
  lemma SameExtentMapsToItself(o: nat, extent: nat)
    requires o < extent
    ensures MapAxis(o, extent, extent).base == o && MapAxis(o, extent, extent).floor == o as real
    ensures MapAxis(o, extent, extent).weight == 0.0
  {
    MapAxisFacts(o, extent, extent);
    DigitSplit(o, 0, extent);
  }

  /** Resizing to the input's own height and width returns the input, with either method. */
  lemma IdentityResize(input: seq<real>, inShape: seq<nat>, outShape: seq<nat>, layout: DataLayout,
                       rm: ResizeMethod)
    requires ValidArgs(input, inShape, outShape, layout)
    requires layout.Height(outShape) == layout.Height(inShape) && layout.Width(outShape) == layout.Width(inShape)
    ensures ResizedTensor(input, inShape, outShape, layout, rm) == input
  {
    ShapeFromExtents(layout, outShape, inShape);
    var r := ResizedTensor(input, inShape, outShape, layout, rm);
    forall i | 0 <= i < |input| ensures r[i] == input[i] {
      var co := layout.CoordOf(outShape, i);
      SameExtentMapsToItself(co.h, layout.Height(inShape));
      SameExtentMapsToItself(co.w, layout.Width(inShape));
    }
  }

  // ---------------------------------------------------------------------------
  // Layout independence.

  /** Two inputs that hold the same logical image, in any two layouts, resize to the same
      logical value at every output coordinate. */
  lemma LayoutIndependentValue(in1: seq<real>, s1: seq<nat>, o1: seq<nat>, l1: DataLayout,
                               in2: seq<real>, s2: seq<nat>, o2: seq<nat>, l2: DataLayout,
                               rm: ResizeMethod, co: Coord)
    requires ValidArgs(in1, s1, o1, l1) && ValidArgs(in2, s2, o2, l2)
    requires l1.Batch(s1) == l2.Batch(s2) && l1.Channels(s1) == l2.Channels(s2)
    requires l1.Height(s1) == l2.Height(s2) && l1.Width(s1) == l2.Width(s2)
    requires l1.Height(o1) == l2.Height(o2) && l1.Width(o1) == l2.Width(o2)
    requires forall n: nat, c: nat, h: nat, w: nat :: l1.Contains(s1, Coord(n, c, h, w)) ==>
               Sample(in1, s1, l1, n, c, h, w) == Sample(in2, s2, l2, n, c, h, w)
    requires l1.Contains(o1, co)
    ensures l2.Contains(o2, co)
    ensures ResizedValue(in1, s1, o1, l1, rm, co) == ResizedValue(in2, s2, o2, l2, rm, co)
  {
    var ay := MapAxis(co.h, l1.Height(s1), l1.Height(o1));
    var ax := MapAxis(co.w, l1.Width(s1), l1.Width(o1));
    assert l1.Contains(s1, Coord(co.n, co.c, ay.base, ax.base));
    assert l1.Contains(s1, Coord(co.n, co.c, ay.base, ax.next));
    assert l1.Contains(s1, Coord(co.n, co.c, ay.next, ax.base));
    assert l1.Contains(s1, Coord(co.n, co.c, ay.next, ax.next));
  }

  /** The same, for the whole output tensors: each logical output element sits at its own
      layout's offset in each tensor and holds the same value there. */
  lemma LayoutIndependentTensor(in1: seq<real>, s1: seq<nat>, o1: seq<nat>, l1: DataLayout,
                                in2: seq<real>, s2: seq<nat>, o2: seq<nat>, l2: DataLayout,
                                rm: ResizeMethod)
    requires ValidArgs(in1, s1, o1, l1) && ValidArgs(in2, s2, o2, l2)
    requires l1.Batch(s1) == l2.Batch(s2) && l1.Channels(s1) == l2.Channels(s2)
    requires l1.Height(s1) == l2.Height(s2) && l1.Width(s1) == l2.Width(s2)
    requires l1.Height(o1) == l2.Height(o2) && l1.Width(o1) == l2.Width(o2)
    requires forall n: nat, c: nat, h: nat, w: nat :: l1.Contains(s1, Coord(n, c, h, w)) ==>
               Sample(in1, s1, l1, n, c, h, w) == Sample(in2, s2, l2, n, c, h, w)
    ensures forall co :: l1.Contains(o1, co) ==>
              && l2.Contains(o2, co)
              && ResizedTensor(in1, s1, o1, l1, rm)[l1.GetIndex(o1, co.n, co.c, co.h, co.w)]
                 == ResizedTensor(in2, s2, o2, l2, rm)[l2.GetIndex(o2, co.n, co.c, co.h, co.w)]
  {
    TensorAgrees(in1, s1, o1, l1, rm);
    TensorAgrees(in2, s2, o2, l2, rm);
    forall co | l1.Contains(o1, co)
      ensures && l2.Contains(o2, co)
              && ResizedTensor(in1, s1, o1, l1, rm)[l1.GetIndex(o1, co.n, co.c, co.h, co.w)]
                 == ResizedTensor(in2, s2, o2, l2, rm)[l2.GetIndex(o2, co.n, co.c, co.h, co.w)]
    {
      LayoutIndependentValue(in1, s1, o1, l1, in2, s2, o2, l2, rm, co);
    }
  }

  // ---------------------------------------------------------------------------
  // Worked examples: the single-channel image [[1, 2], [3, 4]].

  /** Upscaled to 4 x 4 bilinearly, the top-left output element is the top-left input
      element, 1. */
  lemma BilinearUpscaleTopLeft()
    ensures ValidArgs([1.0, 2.0, 3.0, 4.0], [1, 1, 2, 2], [1, 1, 4, 4], NCHW)
    ensures ResizedValue([1.0, 2.0, 3.0, 4.0], [1, 1, 2, 2], [1, 1, 4, 4], NCHW, Bilinear, Coord(0, 0, 0, 0)) == 1.0
  {
    var input, inShape, outShape := [1.0, 2.0, 3.0, 4.0], [1, 1, 2, 2], [1, 1, 4, 4];
    assert NCHW.GetIndex(inShape, 0, 0, 0, 0) == 0;
    assert ValidArgs(input, inShape, outShape, NCHW);
    TopLeftCopies(input, inShape, outShape, NCHW, Bilinear, Coord(0, 0, 0, 0));
  }

  /** Upscaled to 4 x 4 bilinearly, the bottom-right output element projects onto the
      last input row and column, where the clamp collapses the square onto the
      bottom-right input element, 4. */
  lemma BilinearUpscaleBottomRight()
    ensures ValidArgs([1.0, 2.0, 3.0, 4.0], [1, 1, 2, 2], [1, 1, 4, 4], NCHW)
    ensures ResizedValue([1.0, 2.0, 3.0, 4.0], [1, 1, 2, 2], [1, 1, 4, 4], NCHW, Bilinear, Coord(0, 0, 3, 3)) == 4.0
  {
    var input, inShape, outShape := [1.0, 2.0, 3.0, 4.0], [1, 1, 2, 2], [1, 1, 4, 4];
    assert NCHW.GetIndex(inShape, 0, 0, 1, 1) == 3;
    assert ValidArgs(input, inShape, outShape, NCHW);
    MapAxisFacts(3, 2, 4);
    assert MapAxis(3, 2, 4).base == 1;
    BilinearBorderCollapse(input, inShape, outShape, NCHW, Coord(0, 0, 3, 3));
  }

  /** Downscaled to 1 x 1 by nearest neighbour, the single output element is 1. */
  lemma NearestDownscaleExample()
    ensures ValidArgs([1.0, 2.0, 3.0, 4.0], [1, 1, 2, 2], [1, 1, 1, 1], NCHW)
    ensures ResizedValue([1.0, 2.0, 3.0, 4.0], [1, 1, 2, 2], [1, 1, 1, 1], NCHW, NearestNeighbor, Coord(0, 0, 0, 0)) == 1.0
  {
    var input, inShape, outShape := [1.0, 2.0, 3.0, 4.0], [1, 1, 2, 2], [1, 1, 1, 1];
    assert ValidArgs(input, inShape, outShape, NCHW);
    TopLeftCopies(input, inShape, outShape, NCHW, NearestNeighbor, Coord(0, 0, 0, 0));
  }
}
