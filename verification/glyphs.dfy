/** Pixel labels, 2×2 chunks and the quadrant-glyph table of monoquome.

The table is searched linearly, first match wins, and the caller asserts that
a match exists. The lemmas below show that assertion can never fail: every
one of the 16 chunks has exactly one row, and the glyphs are the Unicode
quadrant characters that shade exactly the white quadrants.
 */
module Glyphs {

  /** The two labels a pixel is classified into. */
  datatype Color = White | Black

  // Short names that keep the table readable. Match patterns must use the
  // constructors instead, since a constant's name in a pattern binds a new variable.
  const W: Color := White
  const B: Color := Black

  /** One 2×2 cell. The source writes it as the nested pair
      `[[leftTop, leftBottom], [rightTop, rightBottom]]`; the fields keep that order. */
  datatype Chunk = Chunk(leftTop: Color, leftBottom: Color, rightTop: Color, rightBottom: Color)

  datatype Option<+T> = None | Some(value: T)

  /** The cell with no white pixel; it is what out-of-image positions pad to. */
  const Blank: Chunk := Chunk(B, B, B, B)

  /** The colour of one quadrant of a chunk. */
  function Quadrant(c: Chunk, right: bool, bottom: bool): Color {
    match (right, bottom)
    case (false, false) => c.leftTop
    case (false, true) => c.leftBottom
    case (true, false) => c.rightTop
    case (true, true) => c.rightBottom
  }

  /** The glyph table, in the source's row order: (glyph, pattern). */
  const Chars: seq<(char, Chunk)> := [
    ('\U{2598}', Chunk(W, B, B, B)),
    ('\U{2596}', Chunk(B, W, B, B)),
    ('\U{2597}', Chunk(B, B, B, W)),
    ('\U{259D}', Chunk(B, B, W, B)),
    ('\U{258C}', Chunk(W, W, B, B)),
    ('\U{259A}', Chunk(W, B, B, W)),
    ('\U{259E}', Chunk(B, W, W, B)),
    ('\U{2590}', Chunk(B, B, W, W)),
    (' ',        Chunk(B, B, B, B)),
    ('\U{2588}', Chunk(W, W, W, W)),
    ('\U{2599}', Chunk(W, W, B, W)),
    ('\U{259F}', Chunk(B, W, W, W)),
    ('\U{259B}', Chunk(W, W, W, B)),
    ('\U{259C}', Chunk(W, B, W, W)),
    ('\U{2580}', Chunk(W, B, W, B)),
    ('\U{2584}', Chunk(B, W, B, W))
  ]

  /** Linear search for the first row whose pattern equals `c`, matching all
      four positions; `None` when no row matches. */
  function FindRow(table: seq<(char, Chunk)>, c: Chunk): (r: Option<nat>)
    ensures r.Some? ==> r.value < |table| && table[r.value].1 == c
    ensures r.Some? ==> forall j :: 0 <= j < r.value ==> table[j].1 != c
    ensures r.None? ==> forall j :: 0 <= j < |table| ==> table[j].1 != c
  {
    if |table| == 0 then None
    else if table[0].1 == c then Some(0)
    else match FindRow(table[1..], c)
      case None => None
      case Some(i) => Some(i + 1)
  }

  /** Every chunk has a row in the table. */
  lemma TableComplete(c: Chunk)
    ensures exists i :: 0 <= i < |Chars| && Chars[i].1 == c
  {
    var i :=
      match c
      case Chunk(White, Black, Black, Black) => 0
      case Chunk(Black, White, Black, Black) => 1
      case Chunk(Black, Black, Black, White) => 2
      case Chunk(Black, Black, White, Black) => 3
      case Chunk(White, White, Black, Black) => 4
      case Chunk(White, Black, Black, White) => 5
      case Chunk(Black, White, White, Black) => 6
      case Chunk(Black, Black, White, White) => 7
      case Chunk(Black, Black, Black, Black) => 8
      case Chunk(White, White, White, White) => 9
      case Chunk(White, White, Black, White) => 10
      case Chunk(Black, White, White, White) => 11
      case Chunk(White, White, White, Black) => 12
      case Chunk(White, Black, White, White) => 13
      case Chunk(White, Black, White, Black) => 14
      case Chunk(Black, White, Black, White) => 15;
    assert Chars[i].1 == c;
  }

  /** No two rows share a pattern or a glyph, so there are exactly 16 rows for
      the 16 chunks and each chunk matches exactly one of them. */
  lemma TableInjective()
    ensures |Chars| == 16
    ensures forall i, j :: 0 <= i < j < |Chars| ==> Chars[i].1 != Chars[j].1
    ensures forall i, j :: 0 <= i < j < |Chars| ==> Chars[i].0 != Chars[j].0
  {
  }

  /** The glyph for a chunk: the table lookup whose match is asserted to exist. */
  function GetChar(c: Chunk): (g: char)
    ensures (g, c) in Chars
  {
    TableComplete(c);
    var row := FindRow(Chars, c);
    Chars[row.value].0
  }

  /** Exactly one row of the table matches any chunk. */
  lemma ExactlyOneRow(c: Chunk)
    ensures exists i :: 0 <= i < |Chars| && Chars[i].1 == c
    ensures forall i, j :: 0 <= i < |Chars| && 0 <= j < |Chars| && Chars[i].1 == c && Chars[j].1 == c ==> i == j
  {
    TableComplete(c);
    TableInjective();
  }

  /** Different chunks get different glyphs. */
  lemma GetCharInjective(c1: Chunk, c2: Chunk)
    ensures GetChar(c1) == GetChar(c2) <==> c1 == c2
  {
    TableInjective();
  }

  /** The blank chunk is the only one drawn as a space. */
  lemma OnlyBlankIsSpace(c: Chunk)
    ensures GetChar(c) == ' ' <==> c == Blank
  {
  }

  /** The Unicode character that shades exactly the given quadrants
      (Unicode block "Block Elements", U+2580..U+259F, plus SPACE for none). */
  function QuadrantGlyph(upperLeft: bool, upperRight: bool, lowerLeft: bool, lowerRight: bool): char {
    match (upperLeft, upperRight, lowerLeft, lowerRight)
    case (false, false, false, false) => ' '          // SPACE
    case (true, false, false, false) => '\U{2598}'    // QUADRANT UPPER LEFT
    case (false, true, false, false) => '\U{259D}'    // QUADRANT UPPER RIGHT
    case (false, false, true, false) => '\U{2596}'    // QUADRANT LOWER LEFT
    case (false, false, false, true) => '\U{2597}'    // QUADRANT LOWER RIGHT
    case (true, true, false, false) => '\U{2580}'     // UPPER HALF BLOCK
    case (false, false, true, true) => '\U{2584}'     // LOWER HALF BLOCK
    case (true, false, true, false) => '\U{258C}'     // LEFT HALF BLOCK
    case (false, true, false, true) => '\U{2590}'     // RIGHT HALF BLOCK
    case (true, false, false, true) => '\U{259A}'     // QUADRANT UPPER LEFT AND LOWER RIGHT
    case (false, true, true, false) => '\U{259E}'     // QUADRANT UPPER RIGHT AND LOWER LEFT
    case (true, true, true, false) => '\U{259B}'      // QUADRANT UPPER LEFT AND UPPER RIGHT AND LOWER LEFT
    case (true, true, false, true) => '\U{259C}'      // QUADRANT UPPER LEFT AND UPPER RIGHT AND LOWER RIGHT
    case (true, false, true, true) => '\U{2599}'      // QUADRANT UPPER LEFT AND LOWER LEFT AND LOWER RIGHT
    case (false, true, true, true) => '\U{259F}'      // QUADRANT UPPER RIGHT AND LOWER LEFT AND LOWER RIGHT
    case (true, true, true, true) => '\U{2588}'       // FULL BLOCK
  }

  /** The table draws every chunk as the character that shades exactly its white quadrants. */
  lemma GetCharShadesWhiteQuadrants(c: Chunk)
    ensures GetChar(c) == QuadrantGlyph(c.leftTop == W, c.rightTop == W, c.leftBottom == W, c.rightBottom == W)
  {
  }
}
