/** The parts of the SYCL 2020 execution model the kernels rely on: the two-level index
    space of an nd_range launch (section 4.9.1 of the SYCL 2020 specification), a global
    range split into equal work-groups with the global, group and local ids of one
    work-item; the shapes of the buffers and of the local memory a launch works on; and
    the schedules under which the model runs the items of a launch one after the other. */
module Sycl {

  /** A 2-D nd_range: the global range and the local (work-group) range, dimension 0
      first, as `sycl::nd_range<2>{global, local}` is built. */
  datatype NdRange = NdRange(globalY: nat, globalX: nat, localY: nat, localX: nat)
  {
    /** The runtime accepts only non-empty work-groups whose size divides the global
        size in each dimension: no partial groups. */
    predicate Valid()
    {
      localY > 0 && localX > 0 && globalY % localY == 0 && globalX % localX == 0
    }

    predicate Contains(c: Coord)
    {
      c.y < globalY && c.x < globalX
    }
  }

  /** A global coordinate (global id 0, global id 1). */
  datatype Coord = Coord(y: nat, x: nat)

  /** The work-group a global id falls in, along one dimension. */
  function GroupId(g: nat, l: nat): (grp: nat)
    requires l > 0
    ensures grp * l <= g < grp * l + l
  {
    g / l
  }

  /** `nd_item::get_local_id`: the global id modulo the local size. */
  function LocalId(g: nat, l: nat): (lid: nat)
    requires l > 0
    ensures lid < l
    ensures g == GroupId(g, l) * l + lid
  {
    g % l
  }

  /** The global id of the item with local id `lid` in group `grp`. */
  function GlobalId(grp: nat, lid: nat, l: nat): (g: nat)
    requires lid < l
    ensures GroupId(g, l) == grp && LocalId(g, l) == lid
  {
    var g := grp * l + lid;
    DivModUnique(g, l, grp, lid);
    g
  }

  /** Multiplying by the same factor keeps the order. */
  lemma MulLe(a: nat, b: nat, l: nat)
    requires a <= b
    ensures a * l <= b * l
  {
  }

  /** Quotient and remainder are determined by `g == q * l + r` with `r < l`. */
  lemma DivModUnique(g: nat, l: nat, q: nat, r: nat)
    requires r < l && g == q * l + r
    ensures g / l == q && g % l == r
  {
    var q', r' := g / l, g % l;
    assert g == q' * l + r';
    if q' < q {
      MulLe(q' + 1, q, l);
      assert false;
    } else if q < q' {
      MulLe(q + 1, q', l);
      assert false;
    }
  }

  /** Every global id belongs to exactly one (group, local id) pair: the item with that
      pair is the one whose global id it is. */
  lemma ExactlyOneItem(g: nat, l: nat, grp: nat, lid: nat)
    requires lid < l
    ensures GlobalId(grp, lid, l) == g <==> grp == GroupId(g, l) && lid == LocalId(g, l)
  {
  }

  /** Two different items of the same work-group have different local ids, so slots
      indexed by local id are never shared by two items of one group. */
  lemma DisjointSlots(nd: NdRange, c: Coord, d: Coord)
    requires nd.Valid() && c != d
    requires GroupId(c.y, nd.localY) == GroupId(d.y, nd.localY)
    requires GroupId(c.x, nd.localX) == GroupId(d.x, nd.localX)
    ensures (LocalId(c.y, nd.localY), LocalId(c.x, nd.localX)) != (LocalId(d.y, nd.localY), LocalId(d.x, nd.localX))
  {
  }

  /** When the local size divides the global size, a global id below the global size
      lies in one of the `global / local` groups. */
  lemma {:induction false} GroupInRange(g: nat, size: nat, l: nat)
    requires l > 0 && size % l == 0 && g < size
    ensures GroupId(g, l) < size / l
  {
  }

  /** The items of a launch listed in some order: each one exactly once, and nothing
      outside the global range. */
  predicate Enumerates(order: seq<Coord>, rows: nat, cols: nat)
  {
    (forall k :: 0 <= k < |order| ==> order[k].y < rows && order[k].x < cols) &&
    (forall y: nat, x: nat :: y < rows && x < cols ==> Coord(y, x) in order) &&
    (forall a, b :: 0 <= a < b < |order| ==> order[a] != order[b])
  }

  /** The row-major schedule: every item of a `rows` x `cols` range exactly once, row
      after row. */
  method RowMajor(rows: nat, cols: nat) returns (order: seq<Coord>)
    ensures Enumerates(order, rows, cols)
  {
    order := [];
    for y := 0 to rows
      invariant forall k :: 0 <= k < |order| ==> order[k].y < y && order[k].x < cols
      invariant forall y': nat, x': nat :: y' < y && x' < cols ==> Coord(y', x') in order
      invariant forall a, b :: 0 <= a < b < |order| ==> order[a] != order[b]
    {
      for x := 0 to cols
        invariant forall k :: 0 <= k < |order| ==>
                    (order[k].y < y || (order[k].y == y && order[k].x < x)) && order[k].x < cols
        invariant forall y': nat, x': nat :: (y' < y && x' < cols) || (y' == y && x' < x) ==> Coord(y', x') in order
        invariant forall a, b :: 0 <= a < b < |order| ==> order[a] != order[b]
      {
        order := order + [Coord(y, x)];
      }
    }
  }

  /** The buffers of an element-wise matrix launch: three matrices the size of the global
      range (the written one a buffer of its own), and a local memory of `local range x
      slots`. */
  predicate MatrixBuffers(m0: array2<int>, m1: array2<int>, m2: array2<int>, lm: array3<int>, nd: NdRange)
  {
    m0.Length0 == nd.globalY && m1.Length0 == nd.globalY && m2.Length0 == nd.globalY &&
    m0.Length1 == nd.globalX && m1.Length1 == nd.globalX && m2.Length1 == nd.globalX &&
    m2 != m0 && m2 != m1 &&
    lm.Length0 == nd.localY && lm.Length1 == nd.localX
  }

  /** A fresh 4 x 4 buffer holding a row-major matrix literal. */
  method FromRows(rows: seq<seq<int>>) returns (m: array2<int>)
    requires |rows| == 4 && forall i :: 0 <= i < 4 ==> |rows[i]| == 4
    ensures fresh(m) && m.Length0 == 4 && m.Length1 == 4
    ensures forall i, j :: 0 <= i < 4 && 0 <= j < 4 ==> m[i, j] == rows[i][j]
  {
    m := new int[4, 4]((i, j) requires 0 <= i < 4 && 0 <= j < 4 => rows[i][j]);
  }
}
