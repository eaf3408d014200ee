/**
 * The cell styler: the font style picked from the bold and italic flags,
 * the alternating row background, and the cells the report table holds.
 */
module Styling {

  /** The four font styles of the PDF library. */
  datatype FontStyle = Normal | Bold | Italic | BoldItalic

  /** Horizontal alignment of a cell's content. */
  datatype HAlign = Left | Center | Right

  /** The two backgrounds a cell can get: white or a 95% gray tint. */
  datatype Background = White | LightGray

  /** What a cell shows: a phrase in one font, or an image scaled to fit a box. */
  datatype Content =
    | Text(text: string, style: FontStyle, fontSize: nat)
    | Picture(path: string, fitWidth: nat, fitHeight: nat)

  /** Everything about a cell except its background. */
  datatype CellBody = CellBody(content: Content, align: HAlign, fixedHeight: nat, bottomBorder: nat)

  /** A cell as appended to the table. */
  datatype Cell = Cell(body: CellBody, background: Background)

  /** Font size and cell height the text-cell helper uses unless told otherwise. */
  const DefaultFontSize: nat := 12
  const DefaultCellHeight: nat := 25

  /** Width of the only border a cell draws, the bottom one. */
  const BottomBorderWidth: nat := 1

  predicate IsBold(s: FontStyle) { s == Bold || s == BoldItalic }

  predicate IsItalic(s: FontStyle) { s == Italic || s == BoldItalic }

  /** The style chosen from the two flags: bold exactly when asked, italic exactly when asked. */
  function StyleFor(bold: bool, italic: bool): (s: FontStyle)
    ensures IsBold(s) == bold && IsItalic(s) == italic
  {
    if bold && italic then BoldItalic
    else if bold then Bold
    else if italic then Italic
    else Normal
  }

  /** Every style is chosen by exactly one pair of flags: its own. */
  lemma StyleForOnto(s: FontStyle)
    ensures StyleFor(IsBold(s), IsItalic(s)) == s
    ensures forall b: bool, i: bool :: StyleFor(b, i) == s ==> b == IsBold(s) && i == IsItalic(s)
  {
  }

  /**
   * The background for a cell appended while `completedRows` rows of the
   * table are complete: gray when that count is odd, white when even.
   */
  function BackgroundFor(completedRows: nat): (bg: Background)
    ensures bg == LightGray <==> completedRows % 2 == 1
  {
    if completedRows % 2 == 1 then LightGray else White
  }

  /** Backgrounds alternate: one more completed row flips the colour. */
  lemma BackgroundAlternates(completedRows: nat)
    ensures BackgroundFor(completedRows + 1) != BackgroundFor(completedRows)
    ensures BackgroundFor(completedRows + 2) == BackgroundFor(completedRows)
  {
  }

  /** The body of a text cell: the text in the chosen style, bottom border only. */
  function TextBody(text: string, align: HAlign, bold: bool, italic: bool, fontSize: nat, height: nat): CellBody
  {
    CellBody(Text(text, StyleFor(bold, italic), fontSize), align, height, BottomBorderWidth)
  }

  /** The body of an image cell: the picture fitted to a box, centred, bottom border only. */
  function ImageBody(path: string, fitWidth: nat, fitHeight: nat, height: nat): CellBody
  {
    CellBody(Picture(path, fitWidth, fitHeight), Center, height, BottomBorderWidth)
  }
}
