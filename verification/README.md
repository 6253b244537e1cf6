# Tiled SYCL kernels: matrix addition, matrix multiplication, image piece rotation

A Dafny model of the three kernels in `02-ex-ex/` of the SYCL tutorial programs,
together with the part of the SYCL 2020 execution model they rely on.

- `sycl.dfy` (module `Sycl`): the two-level index space of an nd_range launch (section
  4.9.1 of the SYCL 2020 specification). It holds the global range, its division into
  equal work-groups, and each work-item's group id and local id. The local id is the
  global id modulo the local size. It also holds the buffer shapes a matrix launch needs
  and the row-major schedule under which the model runs a launch.
- `matrix_multiplication.dfy` (module `MatrixMultiplication`): the `range_info` geometry
  (4 x 4 items in 2 x 2 work-groups, 9 local-memory slots per item).
  - `MultiplyItem` is the kernel body. A non-square global range makes the item write the
    sentinel 999. Otherwise the item stages its row of the left matrix into slots
    `[0, N)` and its column of the right matrix into slots `[N, 2N)`. It then sums their
    products in slot `2N` and writes the sum to its output cell.
  - `MultiplyLaunch` runs the kernel for every item. `Submit` and `MultiplyExample` model
    the host program.
- `matrix_addition.dfy` (module `MatrixAddition`): the same structure for the
  element-wise sum. Each item uses three local-memory slots: it zeroes them, stages one
  input cell in each of the first two, and puts their sum in the third.
- `image_piece_rotate.dfy` (module `ImagePieceRotate`): the image is split into
  256 x 256 areas. Each output pixel is copied, through one local-memory slot, from the
  pixel at its transposed position in the same area. The module also holds the host's
  size checks (multiples of 256 and of the 16 x 16 work-group size).

Kernels and launches are methods over `array2` matrices and an `array3` local memory,
and each method's `modifies` clause names what it writes. A launch is a loop that runs
the per-item method once for each global coordinate. The coordinates come in an
arbitrary order `order` that lists each one exactly once (`Sycl.Enumerates`). The
launch's postcondition gives the final output in terms of the inputs alone, so the
output does not depend on the order. This is why the sequential model stands for the
parallel launch:

- every item reads only local-memory slots it has itself written earlier;
- two items of one work-group never share a slot (`Sycl.DisjointSlots`);
- each output cell is written only by the item with that global id.

So the group barriers in the kernels have no effect on the result, and the model treats
them as no-ops (they appear as comments).

The kernels compare against reference definitions that are independent of them:

- `MatrixMultiplication.Dot` is the sum of `m0[i, t] * m1[t, j]` over `t < k`;
- `ImagePieceRotate.Source` is the transposition inside an area. Its own properties are
  proved separately: it is an involution, it stays inside the image, and it is a
  bijection.

## Model

| member | source | states |
|---|---|---|
| `Sycl.GroupId` | 02-ex-ex/02-matrix-multiplication.cpp:77 | the work-group of a global id is the `grp` with `grp * l <= g < grp * l + l` |
| `Sycl.LocalId` | 02-ex-ex/02-matrix-multiplication.cpp:47-50 | the local id is below the local size and `g == group * l + local id` |
| `Sycl.GlobalId` | 02-ex-ex/02-matrix-multiplication.cpp:47-50 | going from (group, local id) to a global id and back gives the same group and local id |
| `Sycl.ExactlyOneItem` | 01-basic-sycl/05-work-group.cpp:42-44 | a global id is the global id of a (group, local id) pair exactly when that pair is its own group and local id: one item per coordinate |
| `Sycl.GroupInRange` | 01-basic-sycl/05-work-group.cpp:38-44 | when the local size divides the global size, every global id falls into one of the `global / local` groups |
| `Sycl.DisjointSlots` | 02-ex-ex/02-matrix-multiplication.cpp:63-72 | two different items of the same work-group have different local ids, so they use disjoint local-memory slots |
| `Sycl.RowMajor` | 02-ex-ex/02-matrix-multiplication.cpp:130-136 | the row-major schedule lists every coordinate of the global range exactly once and nothing outside it |
| `MatrixMultiplication.RangeInfoValid` | 02-ex-ex/02-matrix-multiplication.cpp:8-20 | the example's nd_range is valid and square, 2 x 2 groups tile 4 x 4, and 9 slots hold a row, a column and the accumulator (`2N + 1`) |
| `MatrixMultiplication.MultiplyItem` | 02-ex-ex/02-matrix-multiplication.cpp:45-91 | non-square range: the own cell is 999 and local memory is untouched; square range: the own cell is the dot product of row `gidy` and column `gidx`, the item's slots hold the staged row, the staged column and the dot product, and no other output cell, no other item's slots and no slot above `2N` change |
| `MatrixMultiplication.MultiplyLaunch` | 02-ex-ex/02-matrix-multiplication.cpp:130-136 | for any order listing each item once, every output cell is the matrix-product entry `Dot(m0, m1, y, x, N)`, or 999 in every cell for a non-square range |
| `MatrixMultiplication.Submit` | 02-ex-ex/02-matrix-multiplication.cpp:118-138 | the host launch with the `range_info` geometry yields a fresh 4 x 4 buffer holding the matrix product of the two inputs |
| `MatrixMultiplication.MultiplyExample` | 02-ex-ex/02-matrix-multiplication.cpp:96-169 | the example's inputs produce `[[6,-13,3,3],[14,15,5,5],[4,-10,15,20],[0,2,-21,-30]]` |
| `MatrixAddition.RangeInfoValid` | 02-ex-ex/01-matrix-addition.cpp:9-20 | the example's nd_range (4 x 4 in 2 x 2 groups) is valid, and the three slots an item uses fit in `lm_offset = 3` |
| `MatrixAddition.AddItem` | 02-ex-ex/01-matrix-addition.cpp:45-80 | the own output cell is `m0 + m1` at that cell; the item's slots 0, 1 and 2 hold the two staged inputs and their sum; no other output cell, no other item's slots and no higher slot change |
| `MatrixAddition.AddLaunch` | 02-ex-ex/01-matrix-addition.cpp:116-122 | for any order listing each item once, every output cell is the sum of the input cells |
| `MatrixAddition.Submit` | 02-ex-ex/01-matrix-addition.cpp:102-124 | the host launch with the example's geometry yields a fresh 4 x 4 buffer holding the element-wise sum |
| `MatrixAddition.AddExample` | 02-ex-ex/01-matrix-addition.cpp:85-155 | the example's inputs produce `[[4,4,-4,9],[5,-1,-1,3],[3,2,5,-1],[16,19,-3,-11]]` |
| `ImagePieceRotate.AreaStart` | 02-ex-ex/03-image-piece-rotate.cpp:106-107 | the area origin is a multiple of 256 and lies within 256 below the coordinate |
| `ImagePieceRotate.AreaStartOf` | 02-ex-ex/03-image-piece-rotate.cpp:106-107 | any multiple of 256 within 256 below a coordinate is that coordinate's area origin |
| `ImagePieceRotate.Source` | 02-ex-ex/03-image-piece-rotate.cpp:109-110 | the source pixel lies in the same area, with row offset equal to the item's column offset and column offset equal to its row offset |
| `ImagePieceRotate.SourceInvolution` | 02-ex-ex/03-image-piece-rotate.cpp:106-110 | taking the source of the source gives back the original coordinate |
| `ImagePieceRotate.AreaInImage` | 02-ex-ex/03-image-piece-rotate.cpp:134-135 | if a side is a multiple of 256, the whole area of every coordinate below it lies inside the image |
| `ImagePieceRotate.SourcePermutes` | 02-ex-ex/03-image-piece-rotate.cpp:106-117 | in an image whose sides are multiples of 256, the source of every pixel is inside the image, and the mapping is injective and surjective on the image, so the output is a permutation of the input pixels |
| `ImagePieceRotate.CheckSize` | 02-ex-ex/03-image-piece-rotate.cpp:134-138 | the image passes exactly when both sides are multiples of 256 and of 16; it fails with the area error exactly when a side is not a multiple of 256 |
| `ImagePieceRotate.BlockCheckImplied` | 02-ex-ex/03-image-piece-rotate.cpp:134-164 | the block-size check never fails, and an image that passes gives a valid 16 x 16 nd_range |
| `ImagePieceRotate.RotateItem` | 02-ex-ex/03-image-piece-rotate.cpp:99-118 | the source read is inside the input, and the item's slot 0 and its own output pixel both hold the input pixel at its transposed position; no other output pixel and no other slot change |
| `ImagePieceRotate.RotateLaunch` | 02-ex-ex/03-image-piece-rotate.cpp:151-168 | for any order listing each item once, every output pixel is the input pixel at its transposed position |
| `ImagePieceRotate.PieceRotate` | 02-ex-ex/03-image-piece-rotate.cpp:131-170 | the image is refused exactly when `CheckSize` fails, with its error; otherwise a new image of the same size holds each input pixel at its transposed position |

## Left out

- Queue and device selection, `queue.submit`, the `handler`, accessor construction, `get_host_access` and the wait for completion: runtime plumbing. A launch is modelled as the loop over all items.
- Real parallel execution and the barrier semantics. Items run one after another. The reasons this is sound are given above (order-independent launch postconditions, disjoint slots).
- One local memory per work-group: the model uses a single `array3` for all groups. This is sound for the same reason, since every item writes its slots before it reads them.
- Rejection of an invalid nd_range: the SYCL runtime rejects it, not the programs. Here it is the precondition `NdRange.Valid()` (non-zero local sizes that divide the global sizes).
- Image loading and saving, the existence check of the input file, argument handling and the output-save loop (`03-image-piece-rotate.cpp` lines 37-64, 126-129, 172-185): file I/O and a foreign graphics library. `PieceRotate` takes the decoded pixels as an `array2<Color>`.
- All printing and the example vectors' setup apart from their values.
- The square-root kernels of `01-basic-sycl/03` to `07` (floating-point `sycl::sqrt` only) and the empty kernels of `01-basic-sycl/01` and `02`.
- MatrixAddition.AddItem: the example program's element type is `float`; the model uses unbounded integers, so rounding is not modelled (the example data are small integers).
- MatrixMultiplication.MultiplyItem: the accumulator is an unbounded integer; overflow of the C++ `int` sum (undefined behaviour) is not modelled.
- Image sides are `unsigned int` in the source, so every global id is below 2^32 and the `static_cast<unsigned int>` of the area index never truncates; the model uses unbounded naturals.
- ImagePieceRotate.SourcePermutes: "permutation" is stated as a bijection of pixel positions (output = input composed with `Source`), not as equality of pixel multisets.

## Notes on the source

- The multiplication kernel compares the two global range sizes (`gsizey != gsizex`) per item and writes the sentinel. It does not check the matrix sizes before the launch. The model follows the code: the square check sits inside `MultiplyItem`. With the example's `range_info` (`static_assert(gdimy == gdimx)`) the sentinel path is never taken.
- The rotate host's error text asks for `N * 256` with `N > 0`, but the check itself accepts a side of 0. `CheckSize` follows the check.
- The rotate host's second check (multiples of 16) can never fail after the first (multiples of 256); `BlockCheckImplied` proves this. That check is what makes the 16 x 16 nd_range valid.
