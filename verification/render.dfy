/** Line assembly of monoquome: the glyphs of each band are concatenated left
to right and trailing white space is trimmed, giving one text line per band.
 */
module Render {
  import opened Glyphs
  import opened Tiling

  /** The characters JavaScript's `trimRight` removes: the ECMAScript
      WhiteSpace production (TAB, VT, FF, ZWNBSP and every Unicode "Zs"
      space separator) and the LineTerminator production (LF, CR, LS, PS). */
  predicate IsWhiteSpace(c: char) {
    || c == '\t' || c == '\U{000B}' || c == '\U{000C}' || c == '\U{FEFF}'
    || c == ' ' || c == '\U{00A0}' || c == '\U{1680}'
    || ('\U{2000}' <= c <= '\U{200A}')
    || c == '\U{202F}' || c == '\U{205F}' || c == '\U{3000}'
    || c == '\n' || c == '\r' || c == '\U{2028}' || c == '\U{2029}'
  }

  /** The string with all trailing white space removed: a prefix of `s` that
      does not end in white space, and everything cut off is white space. */
  function TrimRight(s: string): (r: string)
    ensures r <= s
    ensures |r| > 0 ==> !IsWhiteSpace(r[|r| - 1])
    ensures forall i :: |r| <= i < |s| ==> IsWhiteSpace(s[i])
  {
    if |s| > 0 && IsWhiteSpace(s[|s| - 1]) then TrimRight(s[..|s| - 1]) else s
  }

  /** Trimming is determined by its contract: cutting a white suffix off `s`
      so that what remains does not end in white space gives `TrimRight(s)`. */
  lemma TrimRightUnique(s: string, t: string)
    requires t <= s
    requires |t| > 0 ==> !IsWhiteSpace(t[|t| - 1])
    requires forall i :: |t| <= i < |s| ==> IsWhiteSpace(s[i])
    ensures TrimRight(s) == t
  {
  }

  /** Trimming a trimmed string changes nothing. */
  lemma TrimRightIdempotent(s: string)
    ensures TrimRight(TrimRight(s)) == TrimRight(s)
  {
  }

  /** The glyphs of a band, appended one by one as the source's `line += getChar(chunk)`. */
  function Line(band: seq<Chunk>): (line: string)
    ensures |line| == |band|
  {
    if |band| == 0 then "" else Line(band[..|band| - 1]) + [GetChar(band[|band| - 1])]
  }

  /** A band's line has one glyph per cell, in cell order. */
  lemma {:induction false} LineSpec(band: seq<Chunk>)
    ensures |Line(band)| == |band|
    ensures forall i :: 0 <= i < |band| ==> Line(band)[i] == GetChar(band[i])
    decreases |band|
  {
    if |band| > 0 {
      LineSpec(band[..|band| - 1]);
    }
  }

  /** A glyph is white space exactly when it draws the blank chunk. */
  lemma GlyphIsWhiteSpaceIffBlank(c: Chunk)
    ensures IsWhiteSpace(GetChar(c)) <==> c == Blank
  {
  }

  /** The band without its trailing blank cells. */
  function DropTrailingBlanks(band: seq<Chunk>): (r: seq<Chunk>)
    ensures r <= band
    ensures |r| > 0 ==> r[|r| - 1] != Blank
    ensures forall i :: |r| <= i < |band| ==> band[i] == Blank
  {
    if |band| > 0 && band[|band| - 1] == Blank then DropTrailingBlanks(band[..|band| - 1]) else band
  }

  /** Trimming a band's line removes exactly the glyphs of its trailing blank
      cells: the trimmed line is the line of the band without them. */
  lemma TrimmedLineDropsBlankCells(band: seq<Chunk>)
    ensures TrimRight(Line(band)) == Line(DropTrailingBlanks(band))
  {
    var kept := DropTrailingBlanks(band);
    var s := Line(band);
    var t := Line(kept);
    LineSpec(band);
    LineSpec(kept);
    forall i | 0 <= i < |kept|
      ensures t[i] == s[i]
    {
      assert kept[i] == band[i];
    }
    assert t <= s;
    if |t| > 0 {
      GlyphIsWhiteSpaceIffBlank(kept[|kept| - 1]);
    }
    forall i | |t| <= i < |s|
      ensures IsWhiteSpace(s[i])
    {
      GlyphIsWhiteSpaceIffBlank(band[i]);
    }
    TrimRightUnique(s, t);
  }

  /** The trimmed line of a band shows, cell by cell, the glyphs of the band
      up to its trailing run of blank cells, and never ends in a space. */
  lemma TrimmedLineSpec(band: seq<Chunk>)
    ensures |TrimRight(Line(band))| <= |band|
    ensures forall i :: 0 <= i < |TrimRight(Line(band))| ==> TrimRight(Line(band))[i] == GetChar(band[i])
    ensures forall i :: |TrimRight(Line(band))| <= i < |band| ==> band[i] == Blank
    ensures |TrimRight(Line(band))| > 0 ==> TrimRight(Line(band))[|TrimRight(Line(band))| - 1] != ' '
  {
    var kept := DropTrailingBlanks(band);
    TrimmedLineDropsBlankCells(band);
    LineSpec(kept);
    forall i | 0 <= i < |kept|
      ensures Line(kept)[i] == GetChar(band[i])
    {
      assert kept[i] == band[i];
    }
  }

  /** One trimmed line per band, pushed in band order. */
  function RenderBands(bands: seq<seq<Chunk>>): (lines: seq<string>)
    ensures |lines| == |bands|
  {
    if |bands| == 0 then []
    else RenderBands(bands[..|bands| - 1]) + [TrimRight(Line(bands[|bands| - 1]))]
  }

  lemma {:induction false} RenderBandsSpec(bands: seq<seq<Chunk>>)
    ensures |RenderBands(bands)| == |bands|
    ensures forall j :: 0 <= j < |bands| ==> RenderBands(bands)[j] == TrimRight(Line(bands[j]))
    decreases |bands|
  {
    if |bands| > 0 {
      RenderBandsSpec(bands[..|bands| - 1]);
    }
  }

  /** The rendering of a classified image: one text line per band of two rows. */
  function Monoquome(img: Image): (lines: seq<string>)
    requires img.Valid()
    ensures |lines| == CeilHalf(img.height)
  {
    RenderBands(GetChunks(img))
  }

  /** Line j of the rendering shows, left to right, the glyphs of the cells
      whose top-left pixels are (0, 2j), (2, 2j), ...; it stops exactly before
      the run of blank cells that ends the band, so it never ends in a space. */
  lemma RenderedLine(img: Image, j: nat)
    requires img.Valid() && j < CeilHalf(img.height)
    ensures 2 * j < img.height && |Monoquome(img)[j]| <= CeilHalf(img.width)
    ensures forall i :: 0 <= i < |Monoquome(img)[j]| ==>
              2 * i < img.width && Monoquome(img)[j][i] == GetChar(ChunkAt(img, 2 * i, 2 * j))
    ensures forall i :: |Monoquome(img)[j]| <= i < CeilHalf(img.width) ==>
              2 * i < img.width && ChunkAt(img, 2 * i, 2 * j) == Blank
    ensures |Monoquome(img)[j]| > 0 ==> Monoquome(img)[j][|Monoquome(img)[j]| - 1] != ' '
  {
    var bands := GetChunks(img);
    var band := bands[j];
    assert Monoquome(img)[j] == TrimRight(Line(band)) by {
      RenderBandsSpec(bands);
    }
    assert 2 * j < img.height && |band| == CeilHalf(img.width) by {
      GetChunksSpec(img);
    }
    assert forall i :: 0 <= i < |band| ==> 2 * i < img.width && band[i] == ChunkAt(img, 2 * i, 2 * j) by {
      GetChunksSpec(img);
    }
    var line := Monoquome(img)[j];
    TrimmedLineSpec(band);
    forall i | 0 <= i < |line|
      ensures 2 * i < img.width && line[i] == GetChar(ChunkAt(img, 2 * i, 2 * j))
    {
      assert line[i] == GetChar(band[i]);
    }
    forall i | |line| <= i < CeilHalf(img.width)
      ensures 2 * i < img.width && ChunkAt(img, 2 * i, 2 * j) == Blank
    {
      assert band[i] == Blank;
    }
  }

  /** The image renders as ceil(height / 2) lines, top band first, and every
      line is its band's glyph row cut exactly before the band's trailing run of
      blank cells: no non-blank cell is ever cut and no line ends in a space. */
  lemma MonoquomeSpec(img: Image)
    requires img.Valid()
    ensures |Monoquome(img)| == CeilHalf(img.height)
    ensures forall j :: 0 <= j < |Monoquome(img)| ==>
              2 * j < img.height && |Monoquome(img)[j]| <= CeilHalf(img.width)
    ensures forall j, i :: 0 <= j < |Monoquome(img)| && 0 <= i < |Monoquome(img)[j]| ==>
              2 * i < img.width && Monoquome(img)[j][i] == GetChar(ChunkAt(img, 2 * i, 2 * j))
    ensures forall j, i :: 0 <= j < |Monoquome(img)| && |Monoquome(img)[j]| <= i < CeilHalf(img.width) ==>
              2 * i < img.width && ChunkAt(img, 2 * i, 2 * j) == Blank
    ensures forall j :: 0 <= j < |Monoquome(img)| && |Monoquome(img)[j]| > 0 ==>
              Monoquome(img)[j][|Monoquome(img)[j]| - 1] != ' '
  {
    forall j | 0 <= j < |Monoquome(img)|
      ensures 2 * j < img.height && |Monoquome(img)[j]| <= CeilHalf(img.width)
      ensures forall i :: 0 <= i < |Monoquome(img)[j]| ==>
                2 * i < img.width && Monoquome(img)[j][i] == GetChar(ChunkAt(img, 2 * i, 2 * j))
      ensures forall i :: |Monoquome(img)[j]| <= i < CeilHalf(img.width) ==>
                2 * i < img.width && ChunkAt(img, 2 * i, 2 * j) == Blank
      ensures |Monoquome(img)[j]| > 0 ==> Monoquome(img)[j][|Monoquome(img)[j]| - 1] != ' '
    {
      RenderedLine(img, j);
    }
  }

  /** An image with no rows renders as no lines, whatever its width. */
  lemma EmptyImageRendersNothing(img: Image)
    requires img.Valid() && img.height == 0
    ensures Monoquome(img) == []
  {
  }

  /** A single white pixel shows only its upper-left quadrant. */
  lemma SingleWhitePixel()
    ensures Monoquome(Image(1, 1, [[W]])) == ["\U{2598}"]
  {
    var img := Image(1, 1, [[W]]);
    var lines := Monoquome(img);
    MonoquomeSpec(img);
    var c := ChunkAt(img, 0, 0);
    assert c == Chunk(W, B, B, B);
    GetCharShadesWhiteQuadrants(c);
    assert |lines| == 1;
    assert lines[0] == "\U{2598}";
  }

  /** An all-black image renders as ceil(height / 2) empty lines. */
  lemma AllBlackRendersEmptyLines(width: nat, height: nat)
    ensures Monoquome(Filled(width, height, B)) == seq(CeilHalf(height), _ => "")
  {
    var img := Filled(width, height, B);
    var lines := Monoquome(img);
    MonoquomeSpec(img);
    forall j | 0 <= j < |lines|
      ensures lines[j] == ""
    {
      if |lines[j]| > 0 {
        assert ChunkAt(img, 0, 2 * j) == Blank;
        OnlyBlankIsSpace(Blank);
        assert false;
      }
    }
  }

  /** In an all-white image a cell's glyph shades its upper-left quadrant
      always, its right column only when column x + 1 exists and its lower row
      only when row y + 1 exists. */
  lemma WhiteCellGlyph(width: nat, height: nat, x: nat, y: nat)
    requires x < width && y < height
    ensures GetChar(ChunkAt(Filled(width, height, W), x, y)) ==
              QuadrantGlyph(true, x + 1 < width, y + 1 < height, x + 1 < width && y + 1 < height)
  {
    var c := ChunkAt(Filled(width, height, W), x, y);
    assert c == Chunk(W, if y + 1 < height then W else B, if x + 1 < width then W else B,
                      if x + 1 < width && y + 1 < height then W else B);
    GetCharShadesWhiteQuadrants(c);
  }

  /** An all-white image renders as ceil(height / 2) lines of ceil(width / 2)
      glyphs with nothing trimmed; the glyph of cell (i, j) shades the quadrants
      that lie inside the image, so only an odd last column or row shows black. */
  lemma AllWhiteShowsPaddedEdges(width: nat, height: nat)
    ensures |Monoquome(Filled(width, height, W))| == CeilHalf(height)
    ensures forall j :: 0 <= j < CeilHalf(height) ==> |Monoquome(Filled(width, height, W))[j]| == CeilHalf(width)
    ensures forall j, i :: 0 <= j < CeilHalf(height) && 0 <= i < CeilHalf(width) ==>
              Monoquome(Filled(width, height, W))[j][i] ==
                QuadrantGlyph(true, 2 * i + 1 < width, 2 * j + 1 < height, 2 * i + 1 < width && 2 * j + 1 < height)
  {
    var img := Filled(width, height, W);
    var lines := Monoquome(img);
    MonoquomeSpec(img);
    forall j | 0 <= j < CeilHalf(height)
      ensures |lines[j]| == CeilHalf(width)
    {
      if CeilHalf(width) > 0 {
        var last := CeilHalf(width) - 1;
        assert ChunkAt(img, 2 * last, 2 * j).leftTop == W;
      }
    }
    forall j, i | 0 <= j < CeilHalf(height) && 0 <= i < CeilHalf(width)
      ensures lines[j][i] ==
                QuadrantGlyph(true, 2 * i + 1 < width, 2 * j + 1 < height, 2 * i + 1 < width && 2 * j + 1 < height)
    {
      WhiteCellGlyph(width, height, 2 * i, 2 * j);
    }
  }

  /** With even width and height an all-white image is all full blocks. */
  lemma AllWhiteEvenIsFullBlocks(width: nat, height: nat)
    requires width % 2 == 0 && height % 2 == 0
    ensures Monoquome(Filled(width, height, W)) == seq(height / 2, _ => seq(width / 2, _ => '\U{2588}'))
  {
    var lines := Monoquome(Filled(width, height, W));
    var expected := seq(height / 2, _ => seq(width / 2, _ => '\U{2588}'));
    AllWhiteShowsPaddedEdges(width, height);
    forall j | 0 <= j < |lines|
      ensures lines[j] == expected[j]
    {
      assert forall i :: 0 <= i < width / 2 ==> lines[j][i] == '\U{2588}';
    }
  }

  /** Trimming is right-sided: a band of blank, full, blank cells renders as a
      leading space followed by the full block. */
  lemma TrimKeepsLeadingSpace()
    ensures TrimRight(Line([Blank, Chunk(W, W, W, W), Blank])) == " \U{2588}"
  {
    var band := [Blank, Chunk(W, W, W, W), Blank];
    TrimmedLineDropsBlankCells(band);
    assert DropTrailingBlanks(band) == band[..2];
    LineSpec(band[..2]);
    GetCharShadesWhiteQuadrants(Blank);
    GetCharShadesWhiteQuadrants(Chunk(W, W, W, W));
  }

  /** A 4×4 image of 2×2 blocks, white at top-left and bottom-right, scans
      into a full cell then a blank one, and a blank cell then a full one. */
  lemma CheckerboardChunks(img: Image)
    requires img.Valid() && img.width == 4 && img.height == 4
    requires forall x: nat, y: nat :: x < 4 && y < 4 ==> img.At(x, y) == if (x < 2) == (y < 2) then W else B
    ensures GetChunks(img) == [[Chunk(W, W, W, W), Blank], [Blank, Chunk(W, W, W, W)]]
  {
    var full := Chunk(W, W, W, W);
    var bands := GetChunks(img);
    GetChunksSpec(img);
    assert ChunkAt(img, 0, 0) == full;
    assert ChunkAt(img, 2, 0) == Blank;
    assert ChunkAt(img, 0, 2) == Blank;
    assert ChunkAt(img, 2, 2) == full;
    assert |bands| == 2 && |bands[0]| == 2 && |bands[1]| == 2;
    assert bands[0] == [full, Blank];
    assert bands[1] == [Blank, full];
  }

  /** The checkerboard's bands render as two lines: the first loses its
      trailing blank, the second keeps its leading one. */
  lemma CheckerboardLines()
    ensures RenderBands([[Chunk(W, W, W, W), Blank], [Blank, Chunk(W, W, W, W)]]) == ["\U{2588}", " \U{2588}"]
  {
    var full := Chunk(W, W, W, W);
    var bands := [[full, Blank], [Blank, full]];
    RenderBandsSpec(bands);
    TrimmedLineDropsBlankCells(bands[0]);
    TrimmedLineDropsBlankCells(bands[1]);
    assert DropTrailingBlanks(bands[0]) == [full];
    assert DropTrailingBlanks(bands[1]) == bands[1];
    LineSpec([full]);
    LineSpec(bands[1]);
    GetCharShadesWhiteQuadrants(full);
    GetCharShadesWhiteQuadrants(Blank);
    var lines := RenderBands(bands);
    assert lines[0] == Line([full]) == "\U{2588}";
    assert lines[1] == Line(bands[1]) == " \U{2588}";
  }

  /** The checkerboard image renders as those two lines. */
  lemma Checkerboard(img: Image)
    requires img.Valid() && img.width == 4 && img.height == 4
    requires forall x: nat, y: nat :: x < 4 && y < 4 ==> img.At(x, y) == if (x < 2) == (y < 2) then W else B
    ensures Monoquome(img) == ["\U{2588}", " \U{2588}"]
  {
    CheckerboardChunks(img);
    CheckerboardLines();
  }
}
