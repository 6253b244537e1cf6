/** The matrix-multiplication example: one work-item per output cell stages a row of
    the left matrix and a column of the right matrix into its own slots of the
    work-group's local memory, then accumulates their dot product in a further slot
    and writes it to its output cell. */
module MatrixMultiplication {
  import opened Sycl

  // The launch geometry of `range_info`: a 4 x 4 global range in 2 x 2 work-groups,
  // and 9 local-memory slots per work-item.
  const GDimY: nat := 4
  const GDimX: nat := 4
  const LDimY: nat := 2
  const LDimX: nat := 2
  const GSize: nat := GDimY * GDimX
  const LmOffset: nat := 9

  /** What an item writes when the global range is not square. */
  const Sentinel: int := 999

  /** The launch geometry of the example. */
  const Launch: NdRange := NdRange(GDimY, GDimX, LDimY, LDimX)

  /** The geometry constants are consistent: the range is square, the work-groups tile
      it, and a work-item's 2N + 1 slots (row, column, accumulator) fit in `LmOffset`. */
  lemma RangeInfoValid()
    ensures Launch.Valid() && Launch.globalY == Launch.globalX
    ensures GSize == 16 && LmOffset >= 2 * GDimX + 1
    ensures GDimY / LDimY == 2 && GDimX / LDimX == 2
  {
  }

  /** The reference product: the sum over t < k of m0[i, t] * m1[t, j]. */
  function Dot(m0: array2<int>, m1: array2<int>, i: nat, j: nat, k: nat): int
    reads m0, m1
    requires i < m0.Length0 && k <= m0.Length1 && k <= m1.Length0 && j < m1.Length1
  {
    if k == 0 then 0 else Dot(m0, m1, i, j, k - 1) + m0[i, k - 1] * m1[k - 1, j]
  }

  /** The body of the kernel for the work-item at global id (gidy, gidx). */
  method MultiplyItem(m0: array2<int>, m1: array2<int>, m2: array2<int>, lm: array3<int>,
                      nd: NdRange, gidy: nat, gidx: nat)
    requires nd.Valid() && MatrixBuffers(m0, m1, m2, lm, nd)
    requires gidy < nd.globalY && gidx < nd.globalX
    requires nd.globalY == nd.globalX ==> lm.Length2 >= 2 * nd.globalX + 1
    modifies m2, lm
    // the item's own output cell
    ensures nd.globalY != nd.globalX ==> m2[gidy, gidx] == Sentinel
    ensures nd.globalY == nd.globalX ==> m2[gidy, gidx] == Dot(m0, m1, gidy, gidx, nd.globalX)
    // no other output cell
    ensures forall y, x :: 0 <= y < m2.Length0 && 0 <= x < m2.Length1 && (y, x) != (gidy, gidx) ==>
              m2[y, x] == old(m2[y, x])
    // the local memory: untouched on the sentinel path; otherwise only the item's own
    // slots, holding the staged row, the staged column and the accumulator
    ensures nd.globalY != nd.globalX ==> unchanged(lm)
    ensures forall ly, lx, s ::
              (0 <= ly < lm.Length0 && 0 <= lx < lm.Length1 && 0 <= s < lm.Length2 &&
               (ly, lx) != (LocalId(gidy, nd.localY), LocalId(gidx, nd.localX))) ==>
              lm[ly, lx, s] == old(lm[ly, lx, s])
    ensures nd.globalY == nd.globalX ==>
              var n, ly, lx := nd.globalX, LocalId(gidy, nd.localY), LocalId(gidx, nd.localX);
              (forall k :: 0 <= k < n ==> lm[ly, lx, k] == m0[gidy, k] && lm[ly, lx, n + k] == m1[k, gidx]) &&
              lm[ly, lx, 2 * n] == Dot(m0, m1, gidy, gidx, n) &&
              (forall s :: 2 * n < s < lm.Length2 ==> lm[ly, lx, s] == old(lm[ly, lx, s]))
  {
    var lidy, lidx := LocalId(gidy, nd.localY), LocalId(gidx, nd.localX);
    var gsizey, gsizex := nd.globalY, nd.globalX;

    if gsizey != gsizex {
      m2[gidy, gidx] := Sentinel;
      return;
    }

    // stage row gidy of the left matrix into slots [0, gsizex)
    for i := 0 to gsizex
      modifies lm
      invariant forall k :: 0 <= k < i ==> lm[lidy, lidx, k] == m0[gidy, k]
      invariant forall ly, lx, s ::
                  (0 <= ly < lm.Length0 && 0 <= lx < lm.Length1 && 0 <= s < lm.Length2 &&
                   !(ly == lidy && lx == lidx && s < i)) ==> lm[ly, lx, s] == old(lm[ly, lx, s])
    {
      lm[lidy, lidx, i] := m0[gidy, i];
    }

    // stage column gidx of the right matrix into slots [gsizex, gsizex + gsizey)
    for j := 0 to gsizey
      modifies lm
      invariant forall k :: 0 <= k < gsizex ==> lm[lidy, lidx, k] == m0[gidy, k]
      invariant forall k :: 0 <= k < j ==> lm[lidy, lidx, gsizex + k] == m1[k, gidx]
      invariant forall ly, lx, s ::
                  (0 <= ly < lm.Length0 && 0 <= lx < lm.Length1 && 0 <= s < lm.Length2 &&
                   !(ly == lidy && lx == lidx && s < gsizex + j)) ==> lm[ly, lx, s] == old(lm[ly, lx, s])
    {
      lm[lidy, lidx, j + gsizex] := m1[j, gidx];
    }

    // the accumulator is the slot right after the staged column
    var sum := gsizey + gsizex;
    lm[lidy, lidx, sum] := 0;

    // a group barrier here: the item reads only slots it has just written itself
    for i0 := 0 to gsizex
      modifies lm
      invariant forall k :: 0 <= k < gsizex ==> lm[lidy, lidx, k] == m0[gidy, k] && lm[lidy, lidx, gsizex + k] == m1[k, gidx]
      invariant lm[lidy, lidx, sum] == Dot(m0, m1, gidy, gidx, i0)
      invariant forall ly, lx, s ::
                  (0 <= ly < lm.Length0 && 0 <= lx < lm.Length1 && 0 <= s < lm.Length2 &&
                   !(ly == lidy && lx == lidx && s <= sum)) ==> lm[ly, lx, s] == old(lm[ly, lx, s])
    {
      var i1 := i0 + gsizex;
      lm[lidy, lidx, sum] := lm[lidy, lidx, sum] + lm[lidy, lidx, i0] * lm[lidy, lidx, i1];
    }

    // a second group barrier here
    m2[gidy, gidx] := lm[lidy, lidx, sum];
  }

  /** A launch: the kernel run once for every item of the global range, in the order
      `order`. Whatever the order, the output is the matrix product (or the sentinel in
      every cell when the range is not square), so running the items one after the
      other models the parallel launch and its barriers. */
  method MultiplyLaunch(m0: array2<int>, m1: array2<int>, m2: array2<int>, lm: array3<int>,
                        nd: NdRange, order: seq<Coord>)
    requires nd.Valid() && MatrixBuffers(m0, m1, m2, lm, nd)
    requires nd.globalY == nd.globalX ==> lm.Length2 >= 2 * nd.globalX + 1
    requires Enumerates(order, nd.globalY, nd.globalX)
    modifies m2, lm
    ensures nd.globalY != nd.globalX ==>
              forall y, x :: 0 <= y < m2.Length0 && 0 <= x < m2.Length1 ==> m2[y, x] == Sentinel
    ensures nd.globalY == nd.globalX ==>
              forall y, x :: 0 <= y < m2.Length0 && 0 <= x < m2.Length1 ==> m2[y, x] == Dot(m0, m1, y, x, nd.globalX)
  {
    for k := 0 to |order|
      invariant forall y, x :: 0 <= y < m2.Length0 && 0 <= x < m2.Length1 && Coord(y, x) in order[..k] ==>
                  m2[y, x] == if nd.globalY == nd.globalX then Dot(m0, m1, y, x, nd.globalX) else Sentinel
    {
      MultiplyItem(m0, m1, m2, lm, nd, order[k].y, order[k].x);
      assert order[..k + 1] == order[..k] + [order[k]];
    }
    assert order[..|order|] == order;
  }

  /** `Dot` of a row and a column of four known entries. */
  lemma Dot4(m0: array2<int>, m1: array2<int>, i: nat, j: nat, a0: int, a1: int, a2: int, a3: int,
             b0: int, b1: int, b2: int, b3: int)
    requires i < m0.Length0 && 4 <= m0.Length1 && 4 <= m1.Length0 && j < m1.Length1
    requires m0[i, 0] == a0 && m0[i, 1] == a1 && m0[i, 2] == a2 && m0[i, 3] == a3
    requires m1[0, j] == b0 && m1[1, j] == b1 && m1[2, j] == b2 && m1[3, j] == b3
    ensures Dot(m0, m1, i, j, 4) == a0 * b0 + a1 * b1 + a2 * b2 + a3 * b3
  {
    assert Dot(m0, m1, i, j, 1) == m0[i, 0] * m1[0, j];
    assert Dot(m0, m1, i, j, 2) == Dot(m0, m1, i, j, 1) + m0[i, 1] * m1[1, j];
  }

  /** The host side of the example: an output buffer and the local memory are
      allocated with the sizes of `range_info`, and the kernel is launched over its
      nd_range (items in row-major order; any other order gives the same output). */
  method Submit(m0: array2<int>, m1: array2<int>) returns (m2: array2<int>)
    requires m0.Length0 == GDimY && m0.Length1 == GDimX && m1.Length0 == GDimY && m1.Length1 == GDimX
    ensures fresh(m2) && m2.Length0 == GDimY && m2.Length1 == GDimX
    ensures forall y, x :: 0 <= y < GDimY && 0 <= x < GDimX ==> m2[y, x] == Dot(m0, m1, y, x, GDimX)
  {
    m2 := new int[GDimY, GDimX];
    var lm := new int[LDimY, LDimX, LmOffset];
    RangeInfoValid();
    var order := RowMajor(GDimY, GDimX);
    MultiplyLaunch(m0, m1, m2, lm, Launch, order);
  }

  /** The example program: the two matrices it multiplies give the product it prints. */
  method MultiplyExample() returns (m2: array2<int>)
    ensures m2.Length0 == 4 && m2.Length1 == 4
    ensures m2[0, 0] == 6 && m2[0, 1] == -13 && m2[0, 2] == 3 && m2[0, 3] == 3
    ensures m2[1, 0] == 14 && m2[1, 1] == 15 && m2[1, 2] == 5 && m2[1, 3] == 5
    ensures m2[2, 0] == 4 && m2[2, 1] == -10 && m2[2, 2] == 15 && m2[2, 3] == 20
    ensures m2[3, 0] == 0 && m2[3, 1] == 2 && m2[3, 2] == -21 && m2[3, 3] == -30
  {
    var m0 := FromRows([[1, 2, 3, 4], [3, 2, -1, -2], [-2, 2, 3, 2], [4, 2, -3, 4]]);
    var m1 := FromRows([[2, 1, -2, -3], [3, 2, 4, 5], [2, -2, 3, 4], [-2, -3, -3, -4]]);
    m2 := Submit(m0, m1);
    Dot4(m0, m1, 0, 0, 1, 2, 3, 4, 2, 3, 2, -2);
    Dot4(m0, m1, 0, 1, 1, 2, 3, 4, 1, 2, -2, -3);
    Dot4(m0, m1, 0, 2, 1, 2, 3, 4, -2, 4, 3, -3);
    Dot4(m0, m1, 0, 3, 1, 2, 3, 4, -3, 5, 4, -4);
    Dot4(m0, m1, 1, 0, 3, 2, -1, -2, 2, 3, 2, -2);
    Dot4(m0, m1, 1, 1, 3, 2, -1, -2, 1, 2, -2, -3);
    Dot4(m0, m1, 1, 2, 3, 2, -1, -2, -2, 4, 3, -3);
    Dot4(m0, m1, 1, 3, 3, 2, -1, -2, -3, 5, 4, -4);
    Dot4(m0, m1, 2, 0, -2, 2, 3, 2, 2, 3, 2, -2);
    Dot4(m0, m1, 2, 1, -2, 2, 3, 2, 1, 2, -2, -3);
    Dot4(m0, m1, 2, 2, -2, 2, 3, 2, -2, 4, 3, -3);
    Dot4(m0, m1, 2, 3, -2, 2, 3, 2, -3, 5, 4, -4);
    Dot4(m0, m1, 3, 0, 4, 2, -3, 4, 2, 3, 2, -2);
    Dot4(m0, m1, 3, 1, 4, 2, -3, 4, 1, 2, -2, -3);
    Dot4(m0, m1, 3, 2, 4, 2, -3, 4, -2, 4, 3, -3);
    Dot4(m0, m1, 3, 3, 4, 2, -3, 4, -3, 5, 4, -4);
  }
}
