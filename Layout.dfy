/** The two tensor memory layouts and the flat-offset computation used by the resize
    kernel (the role of armnn's DataLayoutIndexed).

    A shape lists four dimension sizes in memory order. Batch is always dimension 0;
    the layout decides where channels, height and width sit. The offset of a logical
    coordinate (n, c, h, w) is the row-major offset of that coordinate rearranged into
    memory order, which is the standard stride formula of each layout:
      NCHW: ((n * shape[1] + c) * shape[2] + h) * shape[3] + w
      NHWC: ((n * shape[1] + h) * shape[2] + w) * shape[3] + c
 */
module Layout {
  import opened MixedRadix

  /** A logical tensor coordinate: batch, channel, row, column. */
  datatype Coord = Coord(n: nat, c: nat, h: nat, w: nat)

  datatype DataLayout = NCHW | NHWC {

    /** Position of the channel dimension in a shape. */
    function ChannelsIndex(): nat
    {
      if NCHW? then 1 else 3
    }

    /** Position of the height dimension in a shape. */
    function HeightIndex(): nat
    {
      if NCHW? then 2 else 1
    }

    /** Position of the width dimension in a shape. */
    function WidthIndex(): nat
    {
      if NCHW? then 3 else 2
    }

    function Batch(shape: seq<nat>): nat
      requires |shape| == 4
    {
      shape[0]
    }

    function Channels(shape: seq<nat>): nat
      requires |shape| == 4
    {
      shape[ChannelsIndex()]
    }

    function Height(shape: seq<nat>): nat
      requires |shape| == 4
    {
      shape[HeightIndex()]
    }

    function Width(shape: seq<nat>): nat
      requires |shape| == 4
    {
      shape[WidthIndex()]
    }

    /** The logical coordinate lies inside a tensor of the given shape. */
    predicate Contains(shape: seq<nat>, co: Coord)
      requires |shape| == 4
    {
      co.n < Batch(shape) && co.c < Channels(shape) && co.h < Height(shape) && co.w < Width(shape)
    }

    /** The components of a logical coordinate, rearranged into the order of the
        shape's dimensions. */
    function MemoryOrder(n: nat, c: nat, h: nat, w: nat): (d: seq<nat>)
      ensures |d| == 4 && d[0] == n && d[ChannelsIndex()] == c
      ensures d[HeightIndex()] == h && d[WidthIndex()] == w
    {
      if NCHW? then [n, c, h, w] else [n, h, w, c]
    }

    /** Flat offset of the element (n, c, h, w) of a tensor of the given shape. */
    function GetIndex(shape: seq<nat>, n: nat, c: nat, h: nat, w: nat): (i: nat)
      requires |shape| == 4
      ensures Contains(shape, Coord(n, c, h, w)) ==> i < Volume(shape)
    {
      var d := MemoryOrder(n, c, h, w);
      if Fits(shape, d) then PackBelowVolume(shape, d); Pack(shape, d) else Pack(shape, d)
    }

    /** The logical coordinate of the element at flat offset `i`: the inverse of GetIndex. */
    function CoordOf(shape: seq<nat>, i: nat): (co: Coord)
      requires |shape| == 4 && i < Volume(shape)
      ensures Contains(shape, co)
      ensures GetIndex(shape, co.n, co.c, co.h, co.w) == i
    {
      var d := Unpack(shape, i);
      var co := if NCHW? then Coord(d[0], d[1], d[2], d[3]) else Coord(d[0], d[3], d[1], d[2]);
      assert MemoryOrder(co.n, co.c, co.h, co.w) == d;
      co
    }
  }

  /** The coordinate at the offset GetIndex computes for an element inside the tensor is
      that element: offsets of distinct elements differ. */
  lemma CoordOfGetIndex(layout: DataLayout, shape: seq<nat>, co: Coord)
    requires |shape| == 4 && layout.Contains(shape, co)
    ensures layout.GetIndex(shape, co.n, co.c, co.h, co.w) < Volume(shape)
    ensures layout.CoordOf(shape, layout.GetIndex(shape, co.n, co.c, co.h, co.w)) == co
  {
    var d := layout.MemoryOrder(co.n, co.c, co.h, co.w);
    UnpackPack(shape, d);
  }

  /** GetIndex is injective on the elements of a tensor. */
  lemma GetIndexInjective(layout: DataLayout, shape: seq<nat>, a: Coord, b: Coord)
    requires |shape| == 4 && layout.Contains(shape, a) && layout.Contains(shape, b)
    requires layout.GetIndex(shape, a.n, a.c, a.h, a.w) == layout.GetIndex(shape, b.n, b.c, b.h, b.w)
    ensures a == b
  {
    CoordOfGetIndex(layout, shape, a);
    CoordOfGetIndex(layout, shape, b);
  }

  /** The shape's four dimensions are batch, channels, height and width in some order,
      so two shapes that agree on all four logical extents are equal. */
  lemma ShapeFromExtents(layout: DataLayout, s: seq<nat>, t: seq<nat>)
    requires |s| == 4 && |t| == 4
    requires layout.Batch(s) == layout.Batch(t) && layout.Channels(s) == layout.Channels(t)
    requires layout.Height(s) == layout.Height(t) && layout.Width(s) == layout.Width(t)
    ensures s == t
  {
    assert s[0] == t[0] && s[1] == t[1] && s[2] == t[2] && s[3] == t[3];
  }
}
