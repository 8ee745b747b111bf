# monoquome in Dafny

monoquome renders a raster image as text. Each 2×2 block of pixels becomes one
Unicode quadrant glyph (`▘ ▖ ▗ ▝ ▌ ▚ ▞ ▐ █ ▙ ▟ ▛ ▜ ▀ ▄` or a space), and each band
of two pixel rows becomes one line of text.

This project models the rendering core of `monoquome.ts`:

- `glyphs.dfy` (module `Glyphs`) holds the two pixel labels `Color`, the
  2×2 `Chunk` in the source's `[[leftTop, leftBottom], [rightTop, rightBottom]]`
  order, the 16-row glyph table `Chars`, and `GetChar`. `GetChar` is a
  first-match linear search, and it must find a row.
- `tiling.dfy` (module `Tiling`) holds the classified `Image` and the scan.
  The scan has an outer loop over `y` in steps of two and an inner loop over
  `x` in steps of two. `ChunkAt` builds one cell and pads positions beyond
  the last row or column with black.
- `render.dfy` (module `Render`) builds each band's line by appending glyphs.
  It trims trailing white space the way JavaScript's `trimRight` does, and
  `Monoquome` collects the trimmed lines top to bottom.

The image is taken already classified: `colors[x][y]` is the label of pixel
(x, y). This is the source's addressing (`pixels.get(x, y, …)` with shape
`[width, height]`). `Image.At` may only be called with `x < width` and
`y < height`. `ChunkAt` verifies against that precondition, so the scan never
reads a pixel outside the image.

A non-empty all-white image renders as full blocks only when its width and
height are both even. The code pads an odd last column or row with black
(`monoquome.ts:67-71`), so such an image ends its lines with `▌`, ends with a
line of `▀`, or shows `▘` at the corner. `Render.AllWhiteShowsPaddedEdges`
states this behaviour, and `Render.AllWhiteEvenIsFullBlocks` states the
full-block case for even sizes.

## Model

| member | source | states |
|---|---|---|
| `Glyphs.FindRow` | monoquome.ts:54-58 | The search returns the index of the first row whose pattern equals the chunk in all four positions. It returns `None` only when no row matches. |
| `Glyphs.TableComplete` | monoquome.ts:34-51 | Each of the 16 possible chunks has a row in the table, so the non-null assertion after `find` never fails. |
| `Glyphs.TableInjective` | monoquome.ts:34-51 | The table has 16 rows. No two rows share a pattern, and no two rows share a glyph. |
| `Glyphs.ExactlyOneRow` | monoquome.ts:34-51 | Every chunk matches exactly one row. |
| `Glyphs.GetChar` | monoquome.ts:53-59 | The lookup always succeeds, and the returned glyph is the one paired with the chunk's own pattern in the table. |
| `Glyphs.GetCharInjective` | monoquome.ts:34-51 | Two chunks get the same glyph if and only if they are the same chunk. |
| `Glyphs.OnlyBlankIsSpace` | monoquome.ts:43 | A chunk is drawn as a space if and only if all four of its positions are black. |
| `Glyphs.GetCharShadesWhiteQuadrants` | monoquome.ts:35-50 | Every chunk is drawn as the Unicode block-element character that shades exactly its white quadrants. The reference for this is an independent table taken from the Unicode character names. |
| `Tiling.ChunkAt` | monoquome.ts:66-72 | Left-top is always read from (x, y). Left-bottom and right-bottom are black on the last row. Right-top and right-bottom are black in the last column. Every quadrant equals the image extended with black, and only in-image pixels are read. |
| `Tiling.BandFrom` | monoquome.ts:65-73 | The inner loop over x in steps of two; a band from column x has ceil((width − x) / 2) cells. Its cells are specified by `Tiling.BandFromSpec`. |
| `Tiling.BandsFrom` | monoquome.ts:63-75 | The outer loop over y in steps of two; from row y it yields ceil((height − y) / 2) bands of ceil(width / 2) cells each. Its bands are specified by `Tiling.BandsFromSpec`. |
| `Tiling.GetChunks` | monoquome.ts:61-75 | The whole scan: ceil(height / 2) bands. Specified by `Tiling.GetChunksSpec`, `Tiling.TilesArePaddedImage` and `Tiling.EveryPixelShown`. |
| `Tiling.BandFromSpec` | monoquome.ts:65-73 | The inner loop from column x gives ceil((width − x) / 2) cells. Cell i is the one at column x + 2i, which is inside the image. |
| `Tiling.BandsFromSpec` | monoquome.ts:63-75 | The outer loop from row y gives ceil((height − y) / 2) bands. Band j is the band at row y + 2j, which is inside the image. |
| `Tiling.GetChunksSpec` | monoquome.ts:61-75 | The scan gives ceil(height / 2) bands, top to bottom, with ceil(width / 2) cells each, left to right. The cell in band j, column i has its top-left pixel at (2i, 2j). |
| `Tiling.TilesArePaddedImage` | monoquome.ts:63-72 | Quadrant (right, bottom) of cell (i, j) is pixel (2i + right, 2j + bottom) of the image extended with black. |
| `Tiling.EveryPixelShown` | monoquome.ts:63-72 | Every pixel of the image appears in cell (x / 2, y / 2), in the quadrant given by the parities of x and y. |
| `Render.IsWhiteSpace` | monoquome.ts:29 | The characters `trimRight` removes: the ECMAScript WhiteSpace and LineTerminator sets. Among the glyphs only the space belongs to it (`Render.GlyphIsWhiteSpaceIffBlank`). |
| `Render.TrimRight` | monoquome.ts:29 | The result is a prefix of the line and does not end in white space. Everything removed is white space. |
| `Render.TrimRightUnique` | monoquome.ts:29 | Any prefix that leaves only white space behind and does not itself end in white space is the result of trimming. |
| `Render.TrimRightIdempotent` | monoquome.ts:29 | Trimming an already trimmed line changes nothing. |
| `Render.Line` | monoquome.ts:25-28 | `line += getChar(chunk)` over a band: one glyph per cell. Its contents are specified by `Render.LineSpec`. |
| `Render.LineSpec` | monoquome.ts:25-28 | The untrimmed line has one glyph per cell of the band, in cell order. |
| `Render.GlyphIsWhiteSpaceIffBlank` | monoquome.ts:29 | Among the table's glyphs, `trimRight` treats only the blank chunk's glyph as white space. |
| `Render.DropTrailingBlanks` | monoquome.ts:29 | The result is a prefix of the band that does not end in a blank cell. Everything removed is blank. |
| `Render.TrimmedLineDropsBlankCells` | monoquome.ts:25-29 | Trimming a band's line removes exactly the glyphs of its trailing blank cells, and nothing before them. |
| `Render.TrimmedLineSpec` | monoquome.ts:25-29 | A band's trimmed line shows the band's glyphs cell by cell up to its trailing run of blank cells, every removed cell is blank, and the line never ends in a space. |
| `Render.RenderBands` | monoquome.ts:24-30 | `lines.push(line.trimRight())` once per band: as many lines as bands. Its contents are specified by `Render.RenderBandsSpec`. |
| `Render.RenderBandsSpec` | monoquome.ts:23-31 | One line is pushed per band, in band order. Line j is band j's glyph string, trimmed. |
| `Render.Monoquome` | monoquome.ts:23-31 | The rendering of a classified image: ceil(height / 2) lines. Specified by `Render.MonoquomeSpec` and `Render.RenderedLine`. |
| `Render.RenderedLine` | monoquome.ts:23-31 | Line j shows the glyph of the cell at (2i, 2j) at position i, stops exactly where the band's trailing run of blank cells starts, and never ends in a space. |
| `Render.MonoquomeSpec` | monoquome.ts:23-31 | The output has ceil(height / 2) lines. Position i of line j holds the glyph of the cell at (2i, 2j). A line is cut exactly where the band's trailing run of blank cells starts, so it never ends in a space. |
| `Render.EmptyImageRendersNothing` | monoquome.ts:63 | An image of height 0 gives no lines, whatever its width. |
| `Render.SingleWhitePixel` | monoquome.ts:66-72 | A 1×1 white image renders as the single line `▘`. |
| `Render.AllBlackRendersEmptyLines` | monoquome.ts:24-31 | An all-black image renders as ceil(height / 2) empty lines. |
| `Render.WhiteCellGlyph` | monoquome.ts:66-71 | In an all-white image, each cell's glyph shades exactly the quadrants that lie inside the image. |
| `Render.AllWhiteShowsPaddedEdges` | monoquome.ts:61-75 | An all-white image renders as ceil(height / 2) untrimmed lines of ceil(width / 2) glyphs. The glyphs show black only in an odd last column or row. |
| `Render.AllWhiteEvenIsFullBlocks` | monoquome.ts:44 | An all-white image of even width and height renders as lines of full blocks only. |
| `Render.TrimKeepsLeadingSpace` | monoquome.ts:29 | The band (blank, full, blank) renders as `" █"`: the leading space is kept and the trailing one is removed. |
| `Render.CheckerboardChunks` | monoquome.ts:61-75 | A 4×4 image of 2×2 blocks, white at top-left and bottom-right, scans to the bands (full, blank) and (blank, full). |
| `Render.CheckerboardLines` | monoquome.ts:24-30 | The bands (full, blank) and (blank, full) render as `"█"` and `" █"`: the trailing blank is trimmed and the leading one is kept. |
| `Render.Checkerboard` | monoquome.ts:23-31 | That checkerboard renders as the lines `"█"` and `" █"`. |

## Left out

- Image decoding and normalisation (`sharp(...).flatten().toFormat("png")`, `getPixels`, and the choice of the first frame of a 4-D buffer). These are foreign libraries and asynchronous I/O. The model starts from the classified image.
- The per-pixel colour classifier (`getColor`: the `nearest-color` match of the `rgb-hex` string against white and black). Its distance metric and its tie-break live in libraries whose code is not part of this model. The classifier is replaced by the pre-classified `colors` grid.
- `async`/`Promise` and the generator laziness of `getChunks`. The bands are computed eagerly as a sequence. Nothing in the core depends on that order of evaluation.
- JavaScript strings are UTF-16, and Dafny strings here are sequences of Unicode scalar values. Every glyph in the table is a single UTF-16 code unit, so the two views agree on the rendered lines.
- `Render.IsWhiteSpace` lists the Unicode "Zs" space separators of current Unicode versions. A JavaScript engine built on an older Unicode table might differ, but only on characters the renderer never produces.
