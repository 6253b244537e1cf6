/** The matrix-addition example: one work-item per cell zeroes three slots of its
    work-group's local memory, stages the two input cells there, adds them and writes
    the sum to its own output cell. */
module MatrixAddition {
  import opened Sycl

  // The `range_info` of the example: a 4 x 4 global range in 2 x 2 work-groups, and
  // 3 local-memory slots per work-item.
  const GDimY: nat := 4
  const GDimX: nat := 4
  const LDimY: nat := 2
  const LDimX: nat := 2
  const GSize: nat := 4 * 4
  const LmOffset: nat := 3

  /** The launch geometry of the example. */
  const Launch: NdRange := NdRange(GDimY, GDimX, LDimY, LDimX)

  /** The geometry constants are consistent: the work-groups tile the global range, so
      each cell is owned by exactly one item, and the three slots an item uses (indices
      0, 1 and 2) fit in `LmOffset`. */
  lemma RangeInfoValid()
    ensures Launch.Valid() && GSize == GDimY * GDimX
    ensures LmOffset >= 3
  {
  }

  /** The body of the kernel for the work-item at global id (gidJ, gidI). */
  method AddItem(m0: array2<int>, m1: array2<int>, m2: array2<int>, lm: array3<int>,
                 nd: NdRange, gidJ: nat, gidI: nat)
    requires nd.Valid() && MatrixBuffers(m0, m1, m2, lm, nd)
    requires gidJ < nd.globalY && gidI < nd.globalX
    requires lm.Length2 >= 3
    modifies m2, lm
    // the item's own output cell holds the sum, no other output cell changes
    ensures m2[gidJ, gidI] == m0[gidJ, gidI] + m1[gidJ, gidI]
    ensures forall y, x :: 0 <= y < m2.Length0 && 0 <= x < m2.Length1 && (y, x) != (gidJ, gidI) ==>
              m2[y, x] == old(m2[y, x])
    // its three slots hold the two staged inputs and their sum; nothing else changes
    ensures var lidJ, lidI := LocalId(gidJ, nd.localY), LocalId(gidI, nd.localX);
            lm[lidJ, lidI, 0] == m0[gidJ, gidI] && lm[lidJ, lidI, 1] == m1[gidJ, gidI] &&
            lm[lidJ, lidI, 2] == m0[gidJ, gidI] + m1[gidJ, gidI]
    ensures forall ly, lx, s ::
              (0 <= ly < lm.Length0 && 0 <= lx < lm.Length1 && 0 <= s < lm.Length2 &&
               ((ly, lx) != (LocalId(gidJ, nd.localY), LocalId(gidI, nd.localX)) || s >= 3)) ==>
              lm[ly, lx, s] == old(lm[ly, lx, s])
  {
    var lidJ, lidI := LocalId(gidJ, nd.localY), LocalId(gidI, nd.localX);

    lm[lidJ, lidI, 0] := 0;
    lm[lidJ, lidI, 1] := 0;
    lm[lidJ, lidI, 2] := 0;
    // group barrier; the three slots are zero before anything is staged
    assert lm[lidJ, lidI, 0] == 0 && lm[lidJ, lidI, 1] == 0 && lm[lidJ, lidI, 2] == 0;

    lm[lidJ, lidI, 0] := m0[gidJ, gidI];
    // group barrier
    lm[lidJ, lidI, 1] := m1[gidJ, gidI];
    // group barrier

    lm[lidJ, lidI, 2] := lm[lidJ, lidI, 0] + lm[lidJ, lidI, 1];
    m2[gidJ, gidI] := lm[lidJ, lidI, 2];
  }

  /** A launch: the kernel run once for every item of the global range, in the order
      `order`. Whatever the order, the output is the element-wise sum. */
  method AddLaunch(m0: array2<int>, m1: array2<int>, m2: array2<int>, lm: array3<int>,
                   nd: NdRange, order: seq<Coord>)
    requires nd.Valid() && MatrixBuffers(m0, m1, m2, lm, nd)
    requires lm.Length2 >= 3
    requires Enumerates(order, nd.globalY, nd.globalX)
    modifies m2, lm
    ensures forall y, x :: 0 <= y < m2.Length0 && 0 <= x < m2.Length1 ==> m2[y, x] == m0[y, x] + m1[y, x]
  {
    for k := 0 to |order|
      invariant forall y, x :: 0 <= y < m2.Length0 && 0 <= x < m2.Length1 && Coord(y, x) in order[..k] ==>
                  m2[y, x] == m0[y, x] + m1[y, x]
    {
      AddItem(m0, m1, m2, lm, nd, order[k].y, order[k].x);
      assert order[..k + 1] == order[..k] + [order[k]];
    }
    assert order[..|order|] == order;
  }

  /** The host side of the example: an output buffer and the local memory are
      allocated with the sizes of `range_info`, and the kernel is launched over its
      nd_range (items in row-major order; any other order gives the same output). */
  method Submit(m0: array2<int>, m1: array2<int>) returns (m2: array2<int>)
    requires m0.Length0 == GDimY && m0.Length1 == GDimX && m1.Length0 == GDimY && m1.Length1 == GDimX
    ensures fresh(m2) && m2.Length0 == GDimY && m2.Length1 == GDimX
    ensures forall y, x :: 0 <= y < GDimY && 0 <= x < GDimX ==> m2[y, x] == m0[y, x] + m1[y, x]
  {
    m2 := new int[GDimY, GDimX];
    var lm := new int[LDimY, LDimX, LmOffset];
    RangeInfoValid();
    var order := RowMajor(GDimY, GDimX);
    AddLaunch(m0, m1, m2, lm, Launch, order);
  }

  /** The example program: the two matrices it adds give the sum it prints. */
  method AddExample() returns (m2: array2<int>)
    ensures m2.Length0 == 4 && m2.Length1 == 4
    ensures m2[0, 0] == 4 && m2[0, 1] == 4 && m2[0, 2] == -4 && m2[0, 3] == 9
    ensures m2[1, 0] == 5 && m2[1, 1] == -1 && m2[1, 2] == -1 && m2[1, 3] == 3
    ensures m2[2, 0] == 3 && m2[2, 1] == 2 && m2[2, 2] == 5 && m2[2, 3] == -1
    ensures m2[3, 0] == 16 && m2[3, 1] == 19 && m2[3, 2] == -3 && m2[3, 3] == -11
  {
    var m0 := FromRows([[1, 2, 3, 4], [3, 2, 4, 2], [-1, -3, -2, 1], [7, 8, 4, -3]]);
    var m1 := FromRows([[3, 2, -7, 5], [2, -3, -5, 1], [4, 5, 7, -2], [9, 11, -7, -8]]);
    m2 := Submit(m0, m1);
  }
}
