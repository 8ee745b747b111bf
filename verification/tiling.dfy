/** The 2×2 scan of monoquome: bands of two rows, cells of two columns, with
positions that fall outside an odd-sized image padded black.

The per-pixel colour classifier is not modelled; the image arrives already
classified, `colors[x][y]`, addressed the way the source addresses its pixel
buffer (shape `[width, height]`, read as `get(x, y)`).
 */
module Tiling {
  import opened Glyphs

  /** A classified image. `width` and `height` are kept apart from `colors`
      so that an image of width zero still has a height. */
  datatype Image = Image(width: nat, height: nat, colors: seq<seq<Color>>) {

    /** `colors` holds one column of `height` labels for every x. */
    predicate Valid() {
      |colors| == width && forall x :: 0 <= x < width ==> |colors[x]| == height
    }

    /** The classified pixel at (x, y); only in-image positions may be read. */
    function At(x: nat, y: nat): Color
      requires Valid() && x < width && y < height
    {
      colors[x][y]
    }

    /** The image extended with black beyond its right and bottom edges. */
    function Padded(x: nat, y: nat): Color
      requires Valid()
    {
      if x < width && y < height then At(x, y) else B
    }
  }

  /** The number of two-wide steps from 0 that stay below `n`: ceil(n / 2). */
  function CeilHalf(n: int): nat {
    if n <= 0 then 0 else (n + 1) / 2
  }

  /** An image of the given size with every pixel labelled `c`. */
  function Filled(width: nat, height: nat, c: Color): (img: Image)
    ensures img.Valid() && img.width == width && img.height == height
    ensures forall x: nat, y: nat :: x < width && y < height ==> img.At(x, y) == c
  {
    Image(width, height, seq(width, _ => seq(height, _ => c)))
  }

  /** The cell whose top-left pixel is (x, y). Its left-top is always read;
      the bottom row is read only when y is not the last row, the right column
      only when x is not the last column, and every unread position is black. */
  function ChunkAt(img: Image, x: nat, y: nat): (c: Chunk)
    requires img.Valid() && x < img.width && y < img.height
    ensures c.leftTop == img.At(x, y)
    ensures y + 1 == img.height ==> c.leftBottom == B && c.rightBottom == B
    ensures x + 1 == img.width ==> c.rightTop == B && c.rightBottom == B
    ensures c == Chunk(img.Padded(x, y), img.Padded(x, y + 1), img.Padded(x + 1, y), img.Padded(x + 1, y + 1))
  {
    var hasBottom := y < img.height - 1;
    var leftBottom := if hasBottom then img.At(x, y + 1) else B;
    var hasRight := x < img.width - 1;
    var rightTop := if hasRight then img.At(x + 1, y) else B;
    var rightBottom := if hasRight && hasBottom then img.At(x + 1, y + 1) else B;
    Chunk(img.At(x, y), leftBottom, rightTop, rightBottom)
  }

  /** The cells of the band at row y, from column x rightwards in steps of two. */
  function BandFrom(img: Image, y: nat, x: nat): (band: seq<Chunk>)
    requires img.Valid() && y < img.height
    ensures |band| == CeilHalf(img.width - x)
    decreases img.width - x
  {
    if x < img.width then [ChunkAt(img, x, y)] + BandFrom(img, y, x + 2) else []
  }

  /** The bands from row y downwards in steps of two. */
  function BandsFrom(img: Image, y: nat): (bands: seq<seq<Chunk>>)
    requires img.Valid()
    ensures |bands| == CeilHalf(img.height - y)
    ensures forall j :: 0 <= j < |bands| ==> |bands[j]| == CeilHalf(img.width)
    decreases img.height - y
  {
    if y < img.height then [BandFrom(img, y, 0)] + BandsFrom(img, y + 2) else []
  }

  /** All bands of the image, top to bottom, each a row of cells left to right. */
  function GetChunks(img: Image): (bands: seq<seq<Chunk>>)
    requires img.Valid()
    ensures |bands| == CeilHalf(img.height)
  {
    BandsFrom(img, 0)
  }

  /** A band from column x has one cell per two columns left, and its i-th cell
      starts at column x + 2i. */
  lemma {:induction false} BandFromSpec(img: Image, y: nat, x: nat)
    requires img.Valid() && y < img.height
    ensures |BandFrom(img, y, x)| == CeilHalf(img.width - x)
    ensures forall i :: 0 <= i < |BandFrom(img, y, x)| ==>
              x + 2 * i < img.width && BandFrom(img, y, x)[i] == ChunkAt(img, x + 2 * i, y)
    decreases img.width - x
  {
    if x < img.width {
      BandFromSpec(img, y, x + 2);
      var rest := BandFrom(img, y, x + 2);
      assert BandFrom(img, y, x) == [ChunkAt(img, x, y)] + rest;
      forall i | 0 <= i < |BandFrom(img, y, x)|
        ensures x + 2 * i < img.width && BandFrom(img, y, x)[i] == ChunkAt(img, x + 2 * i, y)
      {
        if i > 0 {
          assert BandFrom(img, y, x)[i] == rest[i - 1];
        }
      }
    }
  }

  /** The bands from row y are one per two rows left, and the j-th one is the
      band at row y + 2j. */
  lemma {:induction false} BandsFromSpec(img: Image, y: nat)
    requires img.Valid()
    ensures |BandsFrom(img, y)| == CeilHalf(img.height - y)
    ensures forall j :: 0 <= j < |BandsFrom(img, y)| ==>
              y + 2 * j < img.height && BandsFrom(img, y)[j] == BandFrom(img, y + 2 * j, 0)
    decreases img.height - y
  {
    if y < img.height {
      BandsFromSpec(img, y + 2);
      var rest := BandsFrom(img, y + 2);
      assert BandsFrom(img, y) == [BandFrom(img, y, 0)] + rest;
      forall j | 0 <= j < |BandsFrom(img, y)|
        ensures y + 2 * j < img.height && BandsFrom(img, y)[j] == BandFrom(img, y + 2 * j, 0)
      {
        if j > 0 {
          assert BandsFrom(img, y)[j] == rest[j - 1];
        }
      }
    }
  }

  /** The scan yields ceil(height / 2) bands of ceil(width / 2) cells each, and
      the cell in band j, column i is the one whose top-left pixel is (2i, 2j). */
  lemma GetChunksSpec(img: Image)
    requires img.Valid()
    ensures |GetChunks(img)| == CeilHalf(img.height)
    ensures forall j :: 0 <= j < |GetChunks(img)| ==> |GetChunks(img)[j]| == CeilHalf(img.width)
    ensures forall j, i :: 0 <= j < |GetChunks(img)| && 0 <= i < |GetChunks(img)[j]| ==>
              2 * i < img.width && 2 * j < img.height && GetChunks(img)[j][i] == ChunkAt(img, 2 * i, 2 * j)
  {
    var bands := GetChunks(img);
    BandsFromSpec(img, 0);
    forall j | 0 <= j < |bands|
      ensures |bands[j]| == CeilHalf(img.width)
      ensures forall i :: 0 <= i < |bands[j]| ==>
                2 * i < img.width && bands[j][i] == ChunkAt(img, 2 * i, 2 * j)
    {
      BandFromSpec(img, 2 * j, 0);
    }
  }

  /** 0 or 1: the offset of a quadrant inside its cell. */
  function Offset(b: bool): nat {
    if b then 1 else 0
  }

  /** The scan tiles the black-padded image exactly: quadrant (right, bottom)
      of the cell in band j, column i shows the pixel (2i + right, 2j + bottom). */
  lemma TilesArePaddedImage(img: Image)
    requires img.Valid()
    ensures forall j, i, right: bool, bottom: bool ::
              0 <= j < |GetChunks(img)| && 0 <= i < |GetChunks(img)[j]| ==>
                Quadrant(GetChunks(img)[j][i], right, bottom) == img.Padded(2 * i + Offset(right), 2 * j + Offset(bottom))
  {
    GetChunksSpec(img);
  }

  /** Every pixel of the image is shown, in the cell (x / 2, y / 2) at the
      quadrant given by the parities of x and y. */
  lemma EveryPixelShown(img: Image, x: nat, y: nat)
    requires img.Valid() && x < img.width && y < img.height
    ensures y / 2 < |GetChunks(img)| && x / 2 < |GetChunks(img)[y / 2]|
    ensures Quadrant(GetChunks(img)[y / 2][x / 2], x % 2 == 1, y % 2 == 1) == img.At(x, y)
  {
    GetChunksSpec(img);
    TilesArePaddedImage(img);
    assert 2 * (x / 2) + Offset(x % 2 == 1) == x;
    assert 2 * (y / 2) + Offset(y % 2 == 1) == y;
  }
}
