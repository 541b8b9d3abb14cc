# Reference resize kernel

A Dafny model of armnn's reference `Resize` workload
(`src/backends/reference/workloads/Resize.cpp`). The kernel takes a 4-D tensor
(batch, channels, height, width) and resamples its height and width to new extents.
It supports two layouts, NCHW and NHWC.

For each output texel it projects the top-left corner of the texel onto the input with
the scale `inputExtent / outputExtent`. It splits the projected coordinate into a base
index and a fractional weight, and clamps the neighbouring index to the input. It then
does one of two things:

- **Bilinear:** blends the four surrounding samples with `Lerp`.
- **Nearest neighbour (and any other method):** picks the nearer of the two diagonal
  candidates.

Four nested loops (n, c, y, x) write every output element through the output cursor.

The model has four modules:

- `MixedRadix` — row-major flattening of four-digit coordinates. It is proved a bijection
  between the coordinates that fit a shape and the offsets below its element count.
- `Layout` — the NCHW/NHWC dimension positions and `GetIndex`, the flat offset of a
  logical coordinate. It uses the standard stride formula of each layout. `CoordOf` is
  its inverse.
- `Resize` — the following:
  - the kernel's arithmetic: `Lerp`, the coordinate projection, the clamp and the
    nearest-texel choice;
  - `ResizedValue` and `ResizedTensor`, the value of each output element and of the
    whole output;
  - the kernel itself as imperative methods over an `array<real>` output.

  `Resize.Resize` is the kernel's loop nest. Its n loop calls `ResizeBatch` (the c loop),
  which calls `ResizePlane` (the y loop), which calls `ResizeRow` (the x loop). That calls
  `ResizeElement`, the body of the innermost loop. `ResizeElement` computes the value
  with `Interpolate` and stores it. `Resize.Resize` is proved to do the following:
  - leave `output[..] == ResizedTensor(...)`;
  - visit every output coordinate, in strictly increasing lexicographic (n, c, y, x) order;
  - write the visits to pairwise distinct offsets.

  The loop methods are proved against a ghost tensor `want` that holds each output
  coordinate's resized value (`Agrees`). `Resize` passes `ResizedTensor(...)`. Each one
  ends with every element before its end cut holding `want`'s value, and with no element
  outside its own row, plane or batch changed. Within a row, the loop invariant also
  leaves every element from the cursor on untouched.
- `ResizeProperties` — what the output is:
  - in-bounds base reads;
  - nearest neighbour always reads the base texel;
  - every output value lies between the four samples around its projected point;
  - the border clamp collapses the square;
  - the top-left texel is copied;
  - resizing to the same size is the identity;
  - the result does not depend on the layout;
  - worked examples on the image `[[1, 2], [3, 4]]`.

Floats are modelled as exact reals: `floorf` is `Floor`, and the scale factor is an exact
quotient. The projected coordinate's floor is therefore the integer quotient
`o * inputExtent / outputExtent`. Its fractional part is the remainder over
`outputExtent`, which lies in [0, 1).

## Model

| member | source | states |
|---|---|---|
| Resize.Lerp | src/backends/reference/workloads/Resize.cpp:23-26 | weight 0 gives `a`, weight 1 gives `b`, equal endpoints give that endpoint, and for a weight in [0, 1] the result lies between `a` and `b` |
| Resize.BilinearBlend | src/backends/reference/workloads/Resize.cpp:101-103 | the two row lerps and the column lerp give a value between the least and greatest of the four samples when both weights are in [0, 1]; zero weights give the top-left sample; four equal samples give that sample |
| Resize.SourceCoord | src/backends/reference/workloads/Resize.cpp:64-64 | the projected coordinate `y * (inH / outH)` is non-negative, and below `inH` for an output row below `outH` |
| Resize.FloorOfSourceCoord | src/backends/reference/workloads/Resize.cpp:64-71 | the floor of `y * (inH / outH)` is the integer quotient `y * inH / outH`, and `iy - fiy` is the remainder `(y * inH) % outH` over `outH` |
| Resize.BaseBelowExtent | src/backends/reference/workloads/Resize.cpp:64-68 | an output row below `outH` has a base row `y0` below `inH` |
| Resize.ClampNext | src/backends/reference/workloads/Resize.cpp:84-85 | the clamped neighbour is at most `base + 1` and at most the last input index, and it is one of the two |
| Resize.MapAxis | src/backends/reference/workloads/Resize.cpp:76-85 | the base index and the clamped next index of an output coordinate are both inside the input extent, so every read is in bounds |
| Resize.MapAxisFacts | src/backends/reference/workloads/Resize.cpp:76-85 | for one axis: the base index is the integer quotient and equals the floored coordinate; the weight is in [0, 1); the clamped neighbour is the base or the base plus one; it equals the base exactly when the base is the last input index |
| Resize.NearestTexel | src/backends/reference/workloads/Resize.cpp:109-115 | the chosen texel is one of the two diagonal candidates, (y0, x0) or (y1, x1); when the distances are measured from the floored point, as the code does, it is always (y0, x0) |
| Layout.DataLayout.GetIndex | src/backends/reference/workloads/Resize.cpp:92-98 | the offset of a coordinate inside the shape is below the tensor's element count |
| Layout.DataLayout.CoordOf | src/backends/reference/workloads/Resize.cpp:122-123 | every offset below the element count is the offset of a coordinate inside the shape |
| Layout.CoordOfGetIndex | src/backends/reference/workloads/Resize.cpp:122-123 | decoding the offset of an in-shape coordinate gives back that coordinate |
| Layout.GetIndexInjective | src/backends/reference/workloads/Resize.cpp:122-123 | distinct in-shape coordinates have distinct offsets |
| Resize.ResizedTensor | src/backends/reference/workloads/Resize.cpp:57-73 | the output holds exactly one value per element of the output shape |
| Resize.TensorAgrees | src/backends/reference/workloads/Resize.cpp:122-123 | the resized tensor holds, at the offset of each output coordinate, that coordinate's resized value |
| Resize.Interpolate | src/backends/reference/workloads/Resize.cpp:76-120 | the value the loop body computes for (n, c, y, x), from the row projection and its own column projection, clamp and method dispatch, is the element's resized value |
| Resize.ResizeElement | src/backends/reference/workloads/Resize.cpp:76-123 | the element (n, c, y, x) receives, at its output offset, the value `want` holds there, and every other element keeps its value |
| Resize.WriteStep | src/backends/reference/workloads/Resize.cpp:122-123 | writing `want`'s value at an element's output offset keeps every earlier element's value, because no earlier element has that offset |
| Resize.FrameStep | src/backends/reference/workloads/Resize.cpp:122-123 | a write at the offset of the element under the cursor changes no element before the start of the range nor any element after the cursor |
| Resize.FrameCompose | src/backends/reference/workloads/Resize.cpp:57-127 | two successive updates confined to adjacent ranges of the loop order are together confined to the union of the ranges |
| Resize.ResizeRow | src/backends/reference/workloads/Resize.cpp:73-124 | after the x loop, every element before row y + 1 holds `want`'s value, the visited list covers them in increasing order, and no element outside row y has changed |
| Resize.ResizePlane | src/backends/reference/workloads/Resize.cpp:61-125 | after the y loop, the same holds up to the end of plane (n, c), and no element outside that plane has changed |
| Resize.ResizeBatch | src/backends/reference/workloads/Resize.cpp:59-126 | after the c loop, the same holds up to the end of batch n, and no element outside that batch has changed |
| Resize.WrittenAll | src/backends/reference/workloads/Resize.cpp:57-127 | once every coordinate before the end of the last batch holds `want`'s value, the whole output equals `want` |
| Resize.WritesDistinct | src/backends/reference/workloads/Resize.cpp:122-123 | coordinates visited in strictly increasing order are written at pairwise distinct offsets |
| Resize.Resize | src/backends/reference/workloads/Resize.cpp:30-128 | the output becomes the resized tensor; the visited coordinates are output coordinates, include every output coordinate, and come in strictly increasing lexicographic (n, c, y, x) order; distinct visits write distinct offsets; only `output` is modified |
| ResizeProperties.NearestReadsBase | src/backends/reference/workloads/Resize.cpp:106-118 | every non-bilinear method returns the input element at the base texel (`y*inH/outH`, `x*inW/outW`) whatever the clamped neighbour is |
| ResizeProperties.WithinNeighbourhood | src/backends/reference/workloads/Resize.cpp:87-120 | with either method, an output element lies between the least and the greatest of the four input samples around its projected point |
| ResizeProperties.BilinearBorderCollapse | src/backends/reference/workloads/Resize.cpp:84-103 | on the last input row the blend is the lerp along that row only; on the last column it is the lerp down that column only; at the bottom-right texel it is that single sample |
| ResizeProperties.TopLeftCopies | src/backends/reference/workloads/Resize.cpp:61-81 | the output texel (0, 0) of any plane copies input texel (0, 0), with either method |
| ResizeProperties.SameExtentMapsToItself | src/backends/reference/workloads/Resize.cpp:64-81 | an axis resized to its own extent maps each coordinate onto itself with weight 0 |
| ResizeProperties.IdentityResize | src/backends/reference/workloads/Resize.cpp:51-123 | resizing to the input's own height and width returns the input, with either method |
| ResizeProperties.LayoutIndependentValue | src/backends/reference/workloads/Resize.cpp:92-118 | two inputs holding the same logical image in any two layouts give the same value at every logical output coordinate |
| ResizeProperties.LayoutIndependentTensor | src/backends/reference/workloads/Resize.cpp:92-123 | the two resized tensors hold that same value at each logical coordinate's offset in their own layout |
| ResizeProperties.BilinearUpscaleTopLeft | src/backends/reference/workloads/Resize.cpp:64-103 | `[[1, 2], [3, 4]]` resized bilinearly to 4 x 4 has 1 at output (0, 0) |
| ResizeProperties.BilinearUpscaleBottomRight | src/backends/reference/workloads/Resize.cpp:84-103 | the same resize has 4 at output (3, 3), where both clamps collapse onto the last input texel |
| ResizeProperties.NearestDownscaleExample | src/backends/reference/workloads/Resize.cpp:106-118 | `[[1, 2], [3, 4]]` resized by nearest neighbour to 1 x 1 has 1 at its single element |

## Left out

- Single-precision rounding, including in the scale factors, `floorf`, `pow` and `std::sqrt`: values are exact reals. The floored coordinate is therefore exactly the integer quotient. In float arithmetic it may differ by one for some extents.
- `std::sqrt` and `pow` in the nearest-neighbour distances: the model compares squared distances. The square root is monotone, so the same candidate is chosen.
- `boost::numeric_cast` range checks and the exceptions they throw: every cast in the kernel is modelled as an exact conversion.
- `Decoder<float>` / `Encoder<float>` cursors and their data-type conversions: the input is a `seq<real>`, which the kernel therefore cannot modify, and the output is an `array<real>` written by index.
- `DataLayoutIndexed` and `TensorShape` are not part of this model. `GetIndex` uses the standard NCHW and NHWC stride formulas, with channels, height and width at positions 1, 2, 3 (NCHW) and 3, 1, 2 (NHWC). Both the input and the output use the kernel's one `dataLayout`.
- 32-bit `unsigned int` wrap-around: indices and extents are unbounded naturals. The only places wrap-around could occur are `inputWidth - 1u` and `inputHeight - 1u` at an empty input. `ValidArgs` excludes that case whenever an element is computed.
- Upstream validation is a precondition (`ValidArgs`). It requires the following:
  - four-dimensional shapes;
  - an input of the input shape's size;
  - equal batch and channel extents;
  - input height and width of at least 1 whenever the output has an element to compute.

  An empty output extent need not be excluded: the loops do not run, and the model computes the scale inside the loop, so it never divides by that extent.
- `ResizeMethod` has only the two values the kernel dispatches on. The `default:` label, which sends any other value to nearest neighbour, shows up in the model as `rm != Bilinear`.
- The loop nest is split into `Resize`, `ResizeBatch`, `ResizePlane`, `ResizeRow` and `ResizeElement`, one method per loop level, with `Interpolate` computing the value inside `ResizeElement`. The statement order within each level is unchanged.
- Resize.Resize: its contract does not rule out a write behind the cursor that stores the value the element already holds, because such a write leaves the final output unchanged. The visits write pairwise distinct offsets, and the loop invariants rule out any write ahead of the cursor or outside the current row, plane or batch.
- The nearest-neighbour distances are measured from the floored coordinates `fix` and `fiy`, as the code computes them. The floor is the base index, so `distance0` is 0 and the base texel (y0, x0) is always chosen (`NearestTexel`, `NearestReadsBase`).
