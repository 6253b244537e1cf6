/** The image-piece-rotate example: the image is cut into 256 x 256 areas and every area
    is transposed in place, one work-item per output pixel. Each item copies the pixel
    at its transposed position within its own area through one slot of its work-group's
    local memory into its output pixel. */
module ImagePieceRotate {
  import opened Sycl

  const AreaSize: nat := 256
  const BlockSize: nat := 16
  const LmOffset: nat := 2

  newtype byte = x: int | 0 <= x < 256

  /** An RGB pixel. */
  datatype Color = Color(r: byte, g: byte, b: byte)

  /** Why the host refuses an image. */
  datatype SizeError = NotAreaMultiple | NotBlockMultiple

  datatype Outcome = Pass | Fail(error: SizeError)

  /** A rotated image, or the reason the image was refused. */
  datatype Result = Ok(image: array2<Color>) | Err(error: SizeError)

  /** The first row (or column) of the area that row (or column) `g` lies in. */
  function AreaStart(g: nat): (s: nat)
    ensures s % AreaSize == 0 && s <= g < s + AreaSize
  {
    (g / AreaSize) * AreaSize
  }

  /** An area is determined by any of its rows (or columns). */
  lemma AreaStartOf(s: nat, g: nat)
    requires s % AreaSize == 0 && s <= g < s + AreaSize
    ensures AreaStart(g) == s
  {
    DivModUnique(g, AreaSize, s / AreaSize, g - s);
  }

  /** The pixel an item copies: its own position transposed within its area. */
  function Source(c: Coord): (src: Coord)
    ensures AreaStart(src.y) == AreaStart(c.y) && AreaStart(src.x) == AreaStart(c.x)
    ensures src.y - AreaStart(c.y) == c.x - AreaStart(c.x)
    ensures src.x - AreaStart(c.x) == c.y - AreaStart(c.y)
  {
    var yStart, xStart := AreaStart(c.y), AreaStart(c.x);
    var src := Coord(c.x - xStart + yStart, c.y - yStart + xStart);
    AreaStartOf(yStart, src.y);
    AreaStartOf(xStart, src.x);
    src
  }

  /** Transposing twice gives back the original position. */
  lemma {:induction false} SourceInvolution(c: Coord)
    ensures Source(Source(c)) == c
  {
  }

  predicate InImage(c: Coord, height: nat, width: nat)
  {
    c.y < height && c.x < width
  }

  /** When both sides are multiples of the area size, the area of every pixel lies inside
      the image. */
  lemma AreaInImage(g: nat, size: nat)
    requires size % AreaSize == 0 && g < size
    ensures AreaStart(g) + AreaSize <= size
  {
  }

  /** Inside an image whose sides are multiples of the area size, the source position of
      every pixel is inside the image, and the transposition is a bijection of the image's
      positions onto themselves: the output is a permutation of the input pixels. */
  lemma SourcePermutes(height: nat, width: nat)
    requires height % AreaSize == 0 && width % AreaSize == 0
    ensures forall c :: InImage(c, height, width) ==> InImage(Source(c), height, width)
    ensures forall c, d :: InImage(c, height, width) && InImage(d, height, width) && Source(c) == Source(d) ==> c == d
    ensures forall d :: InImage(d, height, width) ==> exists c :: InImage(c, height, width) && Source(c) == d
  {
  }

  /** The host's checks before the launch: both sides a multiple of the area size, then
      both a multiple of the work-group size. */
  function CheckSize(width: nat, height: nat): (r: Outcome)
    ensures r == Pass <==>
              width % AreaSize == 0 && height % AreaSize == 0 && width % BlockSize == 0 && height % BlockSize == 0
    ensures r == Fail(NotAreaMultiple) <==> !(width % AreaSize == 0 && height % AreaSize == 0)
  {
    if width % AreaSize != 0 || height % AreaSize != 0 then Fail(NotAreaMultiple)
    else if width % BlockSize != 0 || height % BlockSize != 0 then Fail(NotBlockMultiple)
    else Pass
  }

  /** The second check never fails: a multiple of the area size is a multiple of the
      work-group size, so an image that passes the first check makes a valid nd_range. */
  lemma BlockCheckImplied(width: nat, height: nat)
    ensures CheckSize(width, height) != Fail(NotBlockMultiple)
    ensures CheckSize(width, height) == Pass ==> NdRange(height, width, BlockSize, BlockSize).Valid()
  {
    if width % AreaSize == 0 && height % AreaSize == 0 {
      AreaMultipleIsBlockMultiple(width);
      AreaMultipleIsBlockMultiple(height);
    }
  }

  /** A multiple of the area size is a multiple of the work-group size. */
  lemma AreaMultipleIsBlockMultiple(n: nat)
    requires n % AreaSize == 0
    ensures n % BlockSize == 0
  {
    var q := n / AreaSize;
    assert n == (q * 16) * BlockSize;
    DivModUnique(n, BlockSize, q * 16, 0);
  }

  /** The body of the kernel for the work-item at global id (gidy, gidx). */
  method RotateItem(input: array2<Color>, output: array2<Color>, lm: array3<Color>,
                    nd: NdRange, gidy: nat, gidx: nat)
    requires nd.Valid() && gidy < nd.globalY && gidx < nd.globalX
    requires input.Length0 == nd.globalY && input.Length1 == nd.globalX
    requires output.Length0 == nd.globalY && output.Length1 == nd.globalX && output != input
    requires nd.globalY % AreaSize == 0 && nd.globalX % AreaSize == 0
    requires lm.Length0 == nd.localY && lm.Length1 == nd.localX && lm.Length2 >= 1
    modifies output, lm
    ensures var src := Source(Coord(gidy, gidx));
            src.y < input.Length0 && src.x < input.Length1 &&
            output[gidy, gidx] == input[src.y, src.x] &&
            lm[LocalId(gidy, nd.localY), LocalId(gidx, nd.localX), 0] == input[src.y, src.x]
    ensures forall y, x :: 0 <= y < output.Length0 && 0 <= x < output.Length1 && (y, x) != (gidy, gidx) ==>
              output[y, x] == old(output[y, x])
    ensures forall ly, lx, s ::
              (0 <= ly < lm.Length0 && 0 <= lx < lm.Length1 && 0 <= s < lm.Length2 &&
               (ly, lx, s) != (LocalId(gidy, nd.localY), LocalId(gidx, nd.localX), 0)) ==>
              lm[ly, lx, s] == old(lm[ly, lx, s])
  {
    var lidy, lidx := LocalId(gidy, nd.localY), LocalId(gidx, nd.localX);
    var yStart, xStart := AreaStart(gidy), AreaStart(gidx);
    var srcGidy, srcGidx := gidx - xStart + yStart, gidy - yStart + xStart;
    AreaInImage(gidy, nd.globalY);
    AreaInImage(gidx, nd.globalX);

    lm[lidy, lidx, 0] := input[srcGidy, srcGidx];
    // group barrier
    output[gidy, gidx] := lm[lidy, lidx, 0];
  }

  /** A launch: the kernel run once for every item of the global range, in the order
      `order`. Whatever the order, every output pixel is the input pixel at its
      transposed position. */
  method RotateLaunch(input: array2<Color>, output: array2<Color>, lm: array3<Color>,
                      nd: NdRange, order: seq<Coord>)
    requires nd.Valid()
    requires input.Length0 == nd.globalY && input.Length1 == nd.globalX
    requires output.Length0 == nd.globalY && output.Length1 == nd.globalX && output != input
    requires nd.globalY % AreaSize == 0 && nd.globalX % AreaSize == 0
    requires lm.Length0 == nd.localY && lm.Length1 == nd.localX && lm.Length2 >= 1
    requires Enumerates(order, nd.globalY, nd.globalX)
    modifies output, lm
    ensures forall y, x :: 0 <= y < output.Length0 && 0 <= x < output.Length1 ==>
              var src := Source(Coord(y, x));
              src.y < input.Length0 && src.x < input.Length1 && output[y, x] == input[src.y, src.x]
  {
    for k := 0 to |order|
      invariant forall y, x :: 0 <= y < output.Length0 && 0 <= x < output.Length1 && Coord(y, x) in order[..k] ==>
                  var src := Source(Coord(y, x));
                  src.y < input.Length0 && src.x < input.Length1 && output[y, x] == input[src.y, src.x]
    {
      RotateItem(input, output, lm, nd, order[k].y, order[k].x);
      assert order[..k + 1] == order[..k] + [order[k]];
    }
    assert order[..|order|] == order;
  }

  /** The host program, without the image file and its loading and saving: the image is
      refused unless its sizes pass `CheckSize`; otherwise an output image of the same
      size and the local memory are allocated and the kernel is launched over the whole
      image in 16 x 16 work-groups. The output holds the input's pixels, each area
      transposed: the pixel at (y, x) of the input is at `Source((y, x))` of the output. */
  method PieceRotate(input: array2<Color>) returns (r: Result)
    ensures r.Err? <==> CheckSize(input.Length1, input.Length0) != Pass
    ensures r.Err? ==> CheckSize(input.Length1, input.Length0) == Fail(r.error)
    ensures r.Ok? ==> r.image.Length0 == input.Length0 && r.image.Length1 == input.Length1 && r.image != input
    ensures r.Ok? ==> forall y, x :: 0 <= y < input.Length0 && 0 <= x < input.Length1 ==>
              var dst := Source(Coord(y, x));
              dst.y < input.Length0 && dst.x < input.Length1 && r.image[dst.y, dst.x] == input[y, x]
  {
    var height, width := input.Length0, input.Length1;
    var check := CheckSize(width, height);
    if check.Fail? {
      return Err(check.error);
    }
    BlockCheckImplied(width, height);
    var nd := NdRange(height, width, BlockSize, BlockSize);
    var output := new Color[height, width];
    var lm := new Color[BlockSize, BlockSize, LmOffset];
    var order := RowMajor(height, width);
    RotateLaunch(input, output, lm, nd, order);
    forall y, x | 0 <= y < height && 0 <= x < width
      ensures var dst := Source(Coord(y, x));
              dst.y < height && dst.x < width && output[dst.y, dst.x] == input[y, x]
    {
      SourceInvolution(Coord(y, x));
      AreaInImage(y, height);
      AreaInImage(x, width);
    }
    r := Ok(output);
  }
}
