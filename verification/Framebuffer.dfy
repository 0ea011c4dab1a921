/** The framebuffer in memory: scanlines of bytes, two to four bytes a pixel, and
  the text cells drawn on it. */
module Framebuffer {
  import opened Common

  const CELL_W := 8
  const CELL_H := 16
  const GLYPH_H := 8
  const GLYPH_OFFSET_Y := (CELL_H - GLYPH_H) / 2
  const SPACE: byte := 32

  /** A text cell: a character and the number of its colour. */
  datatype Cell = Cell(ch: byte, color: byte)

  const NO_DOTS: seq<byte> := [0, 0, 0, 0, 0, 0, 0, 0]

  /** The glyphs of the characters from 32 to 127: eight rows of eight dots, the
      leftmost dot in the highest bit. */
  type Font = f: seq<seq<byte>> | |f| == 96 && forall k :: 0 <= k < 96 ==> |f[k]| == GLYPH_H
    witness seq(96, _ => NO_DOTS)

  /** The pixel values of the sixteen colours. */
  type Palette = p: seq<nat> | |p| == 16 witness seq(16, _ => 0)

  datatype Style = Style(font: Font, palette: Palette)

  /** Colour 0 is black, and the space glyph has no dots. */
  predicate GoodStyle(s: Style) {
    s.palette[0] == 0 && s.font[0] == NO_DOTS
  }

  function Halved(bits: byte, n: nat): byte {
    if n == 0 then bits else Halved(bits, n - 1) / 2
  }

  /** The dot at a column of a glyph's row: its bit is `0x80 >> col`. */
  predicate HasDot(bits: byte, col: nat) {
    col < 8 && Halved(bits, 7 - col) % 2 == 1
  }

  /** Characters without a glyph are drawn as spaces. */
  function Glyph(ch: byte): (g: byte)
    ensures SPACE <= g < SPACE + 96
  {
    if ch < 32 || ch > 127 then SPACE else ch
  }

  /** Whether a dot of a cell has the text colour: a dot of its glyph, or the underline of the cursor. */
  predicate Shines(s: Style, cell: Cell, row: nat, col: nat, underlined: bool) {
    || (GLYPH_OFFSET_Y <= row < GLYPH_OFFSET_Y + GLYPH_H
        && HasDot(s.font[Glyph(cell.ch) - SPACE][row - GLYPH_OFFSET_Y], col))
    || (underlined && row >= CELL_H - 2)
  }

  function PixelColor(s: Style, cell: Cell, row: nat, col: nat, underlined: bool): nat {
    if Shines(s, cell, row, col, underlined) then s.palette[cell.color % 16] else s.palette[0]
  }

  /** Byte `k` of a colour, the lowest first. */
  function ByteOf(color: nat, k: nat): byte {
    if k == 0 then color % 0x100
    else if k == 1 then color / 0x100 % 0x100
    else if k == 2 then color / 0x1_0000 % 0x100
    else color / 0x100_0000 % 0x100
  }

  /** 16, 24 or 32 bits a pixel. */
  predicate PixelBytes(bpp: nat) {
    bpp == 2 || bpp == 3 || bpp == 4
  }

  /** The number of colours that fit a pixel. */
  function PixelRange(bpp: nat): nat {
    if bpp == 2 then 0x1_0000 else if bpp == 3 then 0x100_0000 else 0x1_0000_0000
  }

  /** The low bytes of a number, put together again. */
  lemma BytesTogether(n: nat)
    ensures ByteOf(n, 0) + 0x100 * ByteOf(n, 1) == n % PixelRange(2)
    ensures n % PixelRange(2) + 0x1_0000 * ByteOf(n, 2) == n % PixelRange(3)
    ensures n % PixelRange(3) + 0x100_0000 * ByteOf(n, 3) == n % PixelRange(4)
  {
    var q1, q2, q3, q4 := n / 0x100, n / 0x100 / 0x100, n / 0x100 / 0x100 / 0x100, n / 0x100 / 0x100 / 0x100 / 0x100;
    var low2 := n % 0x100 + 0x100 * (q1 % 0x100);
    var low3 := low2 + 0x1_0000 * (q2 % 0x100);
    QuotientIs(n, 0x1_0000, q2, low2);
    QuotientIs(n, 0x100_0000, q3, low3);
    QuotientIs(n, 0x1_0000_0000, q4, low3 + 0x100_0000 * (q3 % 0x100));
  }

  /** The pixel column that a byte of a scanline belongs to, and the byte's place in it. */
  function PixelAt(b: nat, bpp: nat): nat {
    if bpp == 2 then b / 2 else if bpp == 3 then b / 3 else b / 4
  }

  function PlaceAt(b: nat, bpp: nat): nat {
    if bpp == 2 then b % 2 else if bpp == 3 then b % 3 else b % 4
  }

  lemma PixelArithmetic(x: nat, k: nat, bpp: nat)
    requires PixelBytes(bpp) && k < bpp
    ensures PixelAt(x * bpp + k, bpp) == x && PlaceAt(x * bpp + k, bpp) == k
  {
  }

  lemma PixelSplit(b: nat, bpp: nat)
    requires PixelBytes(bpp)
    ensures b == PixelAt(b, bpp) * bpp + PlaceAt(b, bpp) && PlaceAt(b, bpp) < bpp
  {
  }

  /** The byte at offset `b` of scanline `y` when `cell` is drawn there. */
  function CellByte(s: Style, cell: Cell, y: nat, b: nat, bpp: nat, underlined: bool): byte {
    ByteOf(PixelColor(s, cell, y % CELL_H, PixelAt(b, bpp) % CELL_W, underlined), PlaceAt(b, bpp))
  }

  // ----- Cells on the screen -----

  /** Where a cell stands in memory: `cols` further for every row. */
  function Index(x: nat, y: nat, cols: nat): (i: nat)
    ensures i >= x
  {
    if y == 0 then x else Index(x, y - 1, cols) + cols
  }

  /** The number of cells in `rows` rows. */
  function Area(cols: nat, rows: nat): nat {
    Index(0, rows, cols)
  }

  lemma {:induction false} IndexIsProduct(x: nat, y: nat, cols: nat)
    ensures Index(x, y, cols) == y * cols + x
  {
    if y > 0 { IndexIsProduct(x, y - 1, cols); }
  }

  lemma {:induction false} IndexSplit(x: nat, y: nat, cols: nat)
    ensures Index(x, y, cols) == Area(cols, y) + x
  {
    if y > 0 { IndexSplit(x, y - 1, cols); }
  }

  lemma {:induction false} AreaGrows(cols: nat, y: nat, rows: nat)
    requires y < rows
    ensures Area(cols, y) + cols <= Area(cols, rows)
    decreases rows
  {
    if y + 1 < rows { AreaGrows(cols, y, rows - 1); }
  }

  lemma IndexInRange(x: nat, y: nat, cols: nat, rows: nat)
    requires x < cols && y < rows
    ensures Index(x, y, cols) < Area(cols, rows)
  {
    IndexSplit(x, y, cols);
    AreaGrows(cols, y, rows);
  }

  lemma IndexIsInjective(x: nat, y: nat, x': nat, y': nat, cols: nat)
    requires x < cols && x' < cols
    ensures Index(x, y, cols) == Index(x', y', cols) <==> x == x' && y == y'
  {
  }

  function Blank(color: byte): Cell {
    Cell(SPACE, color)
  }

  function Blanks(n: nat, color: byte): (r: seq<Cell>)
    ensures |r| == n && forall k :: 0 <= k < n ==> r[k] == Blank(color)
  {
    seq(n, _ => Blank(color))
  }

  /** The cells after a scroll by one row. */
  function ScrolledOne(cells: seq<Cell>, cols: nat, color: byte): (r: seq<Cell>)
    requires |cells| >= cols
    ensures |r| == |cells|
  {
    cells[cols..] + Blanks(cols, color)
  }

  lemma BlankIsBlack(s: Style, color: byte, y: nat, b: nat, bpp: nat)
    requires GoodStyle(s)
    ensures CellByte(s, Blank(color), y, b, bpp, false) == 0
  {
  }

  /** Where the cursor's underline is drawn, if it is. */
  datatype Overlay = NoCursor | CursorAt(x: nat, y: nat)

  function MovedUp(over: Overlay): Overlay {
    if over.CursorAt? && over.y > 0 then CursorAt(over.x, over.y - 1) else NoCursor
  }

  predicate OverlayFits(g: Geometry, over: Overlay) {
    over.CursorAt? ==> over.x < g.cols && over.y < g.rows
  }

  /** The size of the terminal on a framebuffer. */
  datatype Geometry = Geometry(cols: nat, rows: nat, bpp: nat)

  predicate OnTerminal(g: Geometry, y: nat, b: nat) {
    y / CELL_H < g.rows && PixelAt(b, g.bpp) / CELL_W < g.cols
  }

  /** The simple picture: the byte that the terminal should show at a place. */
  function Picture(s: Style, g: Geometry, cells: seq<Cell>, over: Overlay, y: nat, b: nat): byte
    requires |cells| == Area(g.cols, g.rows) && OnTerminal(g, y, b)
  {
    var cx, cy := PixelAt(b, g.bpp) / CELL_W, y / CELL_H;
    IndexInRange(cx, cy, g.cols, g.rows);
    CellByte(s, cells[Index(cx, cy, g.cols)], y, b, g.bpp, over == CursorAt(cx, cy))
  }

  /** The dot at a column, by the weight of its bit. */
  predicate IsLit(bits: byte, col: nat) {
    match col
    case 0 => bits >= 128
    case 1 => bits % 128 >= 64
    case 2 => bits % 64 >= 32
    case 3 => bits % 32 >= 16
    case 4 => bits % 16 >= 8
    case 5 => bits % 8 >= 4
    case 6 => bits % 4 >= 2
    case 7 => bits % 2 >= 1
    case _ => false
  }

  lemma DotIsBit(bits: byte, col: nat)
    ensures HasDot(bits, col) <==> IsLit(bits, col)
  {
    if col < 8 {
      assert Halved(bits, 0) == bits && Halved(bits, 1) == bits / 2 && Halved(bits, 2) == bits / 4;
      assert Halved(bits, 3) == bits / 8 && Halved(bits, 4) == bits / 16 && Halved(bits, 5) == bits / 32;
      assert Halved(bits, 6) == bits / 64 && Halved(bits, 7) == bits / 128;
    }
  }

  /** The colour of a dot of a cell, sixteen rows of eight: the character's colour where its
      glyph has a dot, in the middle eight rows, and on the lowest two rows if it is
      underlined; colour 0 elsewhere. Characters without a glyph look like a space. */
  function DotColor(s: Style, ch: byte, color: byte, row: nat, col: nat, underlined: bool): nat {
    if (4 <= row < 12 && IsLit(s.font[if 32 <= ch <= 127 then ch - 32 else 0][row - 4], col))
       || (underlined && row >= 14)
    then s.palette[color % 16] else s.palette[0]
  }

  lemma DotColorIsPixelColor(s: Style, cell: Cell, row: nat, col: nat, underlined: bool)
    ensures PixelColor(s, cell, row, col, underlined) == DotColor(s, cell.ch, cell.color, row, col, underlined)
  {
    if 4 <= row < 12 {
      DotIsBit(s.font[if 32 <= cell.ch <= 127 then cell.ch - 32 else 0][row - 4], col);
    }
  }

  class Memory {
    const bytes: array2<byte>
    const style: Style
    const g: Geometry

    ghost predicate Valid() {
      && GoodStyle(style) && PixelBytes(g.bpp) && g.cols > 0 && g.rows > 0
      && g.cols * CELL_W * g.bpp <= bytes.Length1 && g.rows * CELL_H <= bytes.Length0
    }

    /** The terminal's part of the framebuffer shows the picture. */
    ghost predicate Coherent(cells: seq<Cell>, over: Overlay)
      requires Valid() && |cells| == Area(g.cols, g.rows)
      reads bytes
    {
      forall y, b :: 0 <= y < bytes.Length0 && 0 <= b < bytes.Length1 && OnTerminal(g, y, b) ==>
        bytes[y, b] == Picture(style, g, cells, over, y, b)
    }

    constructor (height: nat, pitch: nat, style: Style, g: Geometry)
      requires GoodStyle(style) && PixelBytes(g.bpp) && g.cols > 0 && g.rows > 0
      requires g.cols * CELL_W * g.bpp <= pitch && g.rows * CELL_H <= height
      ensures Valid() && fresh(bytes) && this.g == g && this.style == style
    {
      this.style := style;
      this.g := g;
      bytes := new byte[height, pitch]((i, j) => 0);
    }

    /** One pixel: two, three or four bytes. */
    method StorePixel(x: nat, y: nat, color: nat)
      requires Valid() && y < bytes.Length0 && (x + 1) * g.bpp <= bytes.Length1
      modifies bytes
      ensures forall y', b :: 0 <= y' < bytes.Length0 && 0 <= b < bytes.Length1 ==>
                bytes[y', b] == if y' == y && PixelAt(b, g.bpp) == x then ByteOf(color, PlaceAt(b, g.bpp))
                                else old(bytes[y', b])
    {
      for k := 0 to g.bpp
        invariant forall y', b :: 0 <= y' < bytes.Length0 && 0 <= b < bytes.Length1 ==>
                    bytes[y', b] == if y' == y && PixelAt(b, g.bpp) == x && PlaceAt(b, g.bpp) < k
                                    then ByteOf(color, PlaceAt(b, g.bpp)) else old(bytes[y', b])
      {
        PixelArithmetic(x, k, g.bpp);
        forall b | 0 <= b < bytes.Length1 && PixelAt(b, g.bpp) == x && PlaceAt(b, g.bpp) == k
          ensures b == x * g.bpp + k
        {
          PixelSplit(b, g.bpp);
        }
        bytes[y, x * g.bpp + k] := ByteOf(color, k);
      }
      forall b | 0 <= b < bytes.Length1 ensures PlaceAt(b, g.bpp) < g.bpp {
        PixelSplit(b, g.bpp);
      }
    }

    /** One row of dots of a cell. */
    method DrawRow(x: nat, y: nat, row: nat, cell: Cell, underlined: bool)
      requires Valid() && x < g.cols && y < g.rows && row < CELL_H
      modifies bytes
      ensures forall y', b :: 0 <= y' < bytes.Length0 && 0 <= b < bytes.Length1 ==>
                bytes[y', b] == if y' == y * CELL_H + row && PixelAt(b, g.bpp) / CELL_W == x
                                then CellByte(style, cell, y', b, g.bpp, underlined) else old(bytes[y', b])
    {
      var line := y * CELL_H + row;
      for col := 0 to CELL_W
        invariant forall y', b :: 0 <= y' < bytes.Length0 && 0 <= b < bytes.Length1 ==>
                    bytes[y', b] == if y' == line && PixelAt(b, g.bpp) / CELL_W == x && PixelAt(b, g.bpp) % CELL_W < col
                                    then CellByte(style, cell, y', b, g.bpp, underlined) else old(bytes[y', b])
      {
        RowFits(x, col);
        StorePixel(x * CELL_W + col, line, PixelColor(style, cell, row, col, underlined));
      }
    }

    lemma RowFits(x: nat, col: nat)
      requires Valid() && x < g.cols && col < CELL_W
      ensures (x * CELL_W + col + 1) * g.bpp <= bytes.Length1
    {
      assert x * CELL_W + col + 1 <= g.cols * CELL_W;
      assert (x * CELL_W + col + 1) * g.bpp <= g.cols * CELL_W * g.bpp;
    }

    /** The colour of a pixel, put together from its bytes in memory, the lowest first. */
    ghost function PixelValue(x: nat, y: nat): nat
      requires y < bytes.Length0 && x * g.bpp + g.bpp <= bytes.Length1 && PixelBytes(g.bpp)
      reads bytes
    {
      var b := x * g.bpp;
      bytes[y, b] + 0x100 * bytes[y, b + 1]
      + (if g.bpp > 2 then 0x1_0000 * bytes[y, b + 2] else 0)
      + (if g.bpp > 3 then 0x100_0000 * bytes[y, b + 3] else 0)
    }

    /** One dot of the cell at column `cx` and row `cy` of the terminal. */
    ghost predicate ShowsDot(cx: nat, cy: nat, row: nat, col: nat, ch: byte, color: byte, underlined: bool)
      requires Valid()
      reads bytes
    {
      var x, y := cx * 8 + col, cy * 16 + row;
      && y < bytes.Length0 && x * g.bpp + g.bpp <= bytes.Length1
      && PixelValue(x, y) == DotColor(style, ch, color, row, col, underlined) % PixelRange(g.bpp)
    }

    /** All 128 dots of a cell. */
    ghost predicate ShowsCell(cx: nat, cy: nat, ch: byte, color: byte, underlined: bool)
      requires Valid()
      reads bytes
    {
      forall row, col :: 0 <= row < 16 && 0 <= col < 8 ==> ShowsDot(cx, cy, row, col, ch, color, underlined)
    }

    /** Every byte of a cell in memory is the one that drawing the cell writes. */
    ghost predicate IsDrawn(cx: nat, cy: nat, cell: Cell, underlined: bool)
      requires Valid()
      reads bytes
    {
      forall y, b | 0 <= y < bytes.Length0 && 0 <= b < bytes.Length1 && y / CELL_H == cy
                    && PixelAt(b, g.bpp) / CELL_W == cx ::
                    bytes[y, b] == CellByte(style, cell, y, b, g.bpp, underlined)
    }

    lemma DotFits(cx: nat, cy: nat, row: nat, col: nat)
      requires Valid() && cx < g.cols && cy < g.rows && row < 16 && col < 8
      ensures cy * 16 + row < bytes.Length0 && (cx * 8 + col) * g.bpp + g.bpp <= bytes.Length1
    {
      RowFits(cx, col);
    }

    lemma DotByte(cx: nat, cy: nat, row: nat, col: nat, k: nat, cell: Cell, underlined: bool)
      requires Valid() && row < 16 && col < 8 && k < g.bpp && IsDrawn(cx, cy, cell, underlined)
      requires cy * 16 + row < bytes.Length0 && (cx * 8 + col) * g.bpp + g.bpp <= bytes.Length1
      ensures bytes[cy * 16 + row, (cx * 8 + col) * g.bpp + k]
              == ByteOf(PixelColor(style, cell, row, col, underlined), k)
    {
      PixelArithmetic(cx * 8 + col, k, g.bpp);
      QuotientIs(cy * 16 + row, 16, cy, row);
      QuotientIs(cx * 8 + col, 8, cx, col);
    }

    lemma DotShown(cx: nat, cy: nat, row: nat, col: nat, cell: Cell, underlined: bool)
      requires Valid() && cx < g.cols && cy < g.rows && row < 16 && col < 8 && IsDrawn(cx, cy, cell, underlined)
      ensures ShowsDot(cx, cy, row, col, cell.ch, cell.color, underlined)
    {
      DotFits(cx, cy, row, col);
      var x, y, color := cx * 8 + col, cy * 16 + row, PixelColor(style, cell, row, col, underlined);
      forall k | 0 <= k < g.bpp ensures HasByte(x, y, k, color) {
        DotByte(cx, cy, row, col, k, cell, underlined);
      }
      PixelFromBytes(x, y, color);
      DotColorIsPixelColor(style, cell, row, col, underlined);
    }

    ghost predicate HasByte(x: nat, y: nat, k: nat, color: nat)
      requires y < bytes.Length0 && x * g.bpp + k < bytes.Length1
      reads bytes
    {
      bytes[y, x * g.bpp + k] == ByteOf(color, k)
    }

    lemma PixelFromBytes(x: nat, y: nat, color: nat)
      requires y < bytes.Length0 && x * g.bpp + g.bpp <= bytes.Length1 && PixelBytes(g.bpp)
      requires forall k :: 0 <= k < g.bpp ==> HasByte(x, y, k, color)
      ensures PixelValue(x, y) == color % PixelRange(g.bpp)
    {
      BytesTogether(color);
      assert HasByte(x, y, 0, color) && HasByte(x, y, 1, color);
      if g.bpp > 2 { assert HasByte(x, y, 2, color); }
      if g.bpp > 3 { assert HasByte(x, y, 3, color); }
    }

    lemma DrawnShows(cx: nat, cy: nat, cell: Cell, underlined: bool)
      requires Valid() && cx < g.cols && cy < g.rows && IsDrawn(cx, cy, cell, underlined)
      ensures ShowsCell(cx, cy, cell.ch, cell.color, underlined)
    {
      forall row, col | 0 <= row < 16 && 0 <= col < 8
        ensures ShowsDot(cx, cy, row, col, cell.ch, cell.color, underlined)
      {
        DotShown(cx, cy, row, col, cell, underlined);
      }
    }

    /** A right picture shows every cell, dot by dot, and the underline under the cursor alone. */
    lemma CoherentShows(cells: seq<Cell>, over: Overlay, cx: nat, cy: nat)
      requires Valid() && |cells| == Area(g.cols, g.rows) && Coherent(cells, over) && cx < g.cols && cy < g.rows
      ensures Index(cx, cy, g.cols) < |cells|
      ensures var cell := cells[Index(cx, cy, g.cols)];
              ShowsCell(cx, cy, cell.ch, cell.color, over == CursorAt(cx, cy))
    {
      IndexInRange(cx, cy, g.cols, g.rows);
      DrawnShows(cx, cy, cells[Index(cx, cy, g.cols)], over == CursorAt(cx, cy));
    }

    /** A cell of the terminal, with or without the underline. */
    method DrawCell(x: nat, y: nat, cell: Cell, underlined: bool)
      requires Valid() && x < g.cols && y < g.rows
      modifies bytes
      ensures forall y', b :: 0 <= y' < bytes.Length0 && 0 <= b < bytes.Length1 ==>
                bytes[y', b] == if y' / CELL_H == y && PixelAt(b, g.bpp) / CELL_W == x
                                then CellByte(style, cell, y', b, g.bpp, underlined) else old(bytes[y', b])
      ensures ShowsCell(x, y, cell.ch, cell.color, underlined)
    {
      for row := 0 to CELL_H
        invariant forall y', b :: 0 <= y' < bytes.Length0 && 0 <= b < bytes.Length1 ==>
                    bytes[y', b] == if y' / CELL_H == y && y' % CELL_H < row && PixelAt(b, g.bpp) / CELL_W == x
                                    then CellByte(style, cell, y', b, g.bpp, underlined) else old(bytes[y', b])
      {
        DrawRow(x, y, row, cell, underlined);
      }
      DrawnShows(x, y, cell, underlined);
    }

    /** Drawing one cell over a coherent picture whose cursor, if any, is on that cell. */
    method Paint(x: nat, y: nat, cell: Cell, underlined: bool, ghost cells: seq<Cell>, ghost over: Overlay)
      requires Valid() && x < g.cols && y < g.rows && |cells| == Area(g.cols, g.rows) && Coherent(cells, over)
      requires over == NoCursor || over == CursorAt(x, y)
      requires Index(x, y, g.cols) < |cells|
      modifies bytes
      ensures Coherent(cells[Index(x, y, g.cols) := cell], if underlined then CursorAt(x, y) else NoCursor)
    {
      DrawCell(x, y, cell, underlined);
      ghost var cells', over' := cells[Index(x, y, g.cols) := cell], if underlined then CursorAt(x, y) else NoCursor;
      forall y', b | 0 <= y' < bytes.Length0 && 0 <= b < bytes.Length1 && OnTerminal(g, y', b)
        ensures bytes[y', b] == Picture(style, g, cells', over', y', b)
      {
        ghost var cx, cy := PixelAt(b, g.bpp) / CELL_W, y' / CELL_H;
        IndexInRange(cx, cy, g.cols, g.rows);
        IndexIsInjective(cx, cy, x, y, g.cols);
      }
    }

    /** `redesenha_tela`: every cell again, whatever was there. */
    method Redraw(cells: seq<Cell>)
      requires Valid() && |cells| == Area(g.cols, g.rows)
      modifies bytes
      ensures Coherent(cells, NoCursor)
    {
      for y := 0 to g.rows
        invariant forall y', b ::
                    0 <= y' < bytes.Length0 && 0 <= b < bytes.Length1 && OnTerminal(g, y', b) && y' / CELL_H < y ==>
                    bytes[y', b] == Picture(style, g, cells, NoCursor, y', b)
      {
        for x := 0 to g.cols
          invariant forall y', b | 0 <= y' < bytes.Length0 && 0 <= b < bytes.Length1 && OnTerminal(g, y', b)
                      && (y' / CELL_H < y || (y' / CELL_H == y && PixelAt(b, g.bpp) / CELL_W < x)) ::
                      bytes[y', b] == Picture(style, g, cells, NoCursor, y', b)
        {
          IndexInRange(x, y, g.cols, g.rows);
          DrawCell(x, y, cells[Index(x, y, g.cols)], false);
        }
      }
    }

    /** `fb_clear_all`: a black screen is a screen of blanks. */
    method ClearAll(ghost color: byte)
      requires Valid()
      modifies bytes
      ensures Coherent(Blanks(Area(g.cols, g.rows), color), NoCursor)
    {
      for y := 0 to bytes.Length0
        invariant forall y', b :: 0 <= y' < y && 0 <= b < bytes.Length1 ==> bytes[y', b] == 0
      {
        ZeroLine(y, bytes.Length1);
      }
      forall y, b | 0 <= y < bytes.Length0 && 0 <= b < bytes.Length1 && OnTerminal(g, y, b)
        ensures bytes[y, b] == Picture(style, g, Blanks(Area(g.cols, g.rows), color), NoCursor, y, b)
      {
        IndexInRange(PixelAt(b, g.bpp) / CELL_W, y / CELL_H, g.cols, g.rows);
        BlankIsBlack(style, color, y, b, g.bpp);
      }
    }

    /** The first `width` bytes of a scanline become zero. */
    method ZeroLine(y: nat, width: nat)
      requires y < bytes.Length0 && width <= bytes.Length1
      modifies bytes
      ensures forall y', b :: 0 <= y' < bytes.Length0 && 0 <= b < bytes.Length1 ==>
                bytes[y', b] == if y' == y && b < width then 0 else old(bytes[y', b])
    {
      for k := 0 to width
        invariant forall y', b :: 0 <= y' < bytes.Length0 && 0 <= b < bytes.Length1 ==>
                    bytes[y', b] == if y' == y && b < k then 0 else old(bytes[y', b])
      {
        bytes[y, k] := 0;
      }
    }

    /** The first `width` bytes of scanline `from` are copied to scanline `y`. */
    method CopyLine(y: nat, from: nat, width: nat)
      requires y < bytes.Length0 && from < bytes.Length0 && y != from && width <= bytes.Length1
      modifies bytes
      ensures forall y', b :: 0 <= y' < bytes.Length0 && 0 <= b < bytes.Length1 ==>
                bytes[y', b] == if y' == y && b < width then old(bytes[from, b]) else old(bytes[y', b])
    {
      for k := 0 to width
        invariant forall y', b :: 0 <= y' < bytes.Length0 && 0 <= b < bytes.Length1 ==>
                    bytes[y', b] == if y' == y && b < k then old(bytes[from, b]) else old(bytes[y', b])
      {
        bytes[y, k] := bytes[from, k];
      }
    }

    /** `fb_scroll_terminal` on a terminal of more than one row: scanlines move up in
        place, from the top, and the last sixteen become black. */
    method ShiftLines()
      requires Valid() && g.rows > 1
      modifies bytes
      ensures var height, width := g.rows * CELL_H, g.cols * CELL_W * g.bpp;
              forall y, b :: 0 <= y < bytes.Length0 && 0 <= b < bytes.Length1 ==>
                bytes[y, b] == if b >= width || y >= height then old(bytes[y, b])
                               else if y < height - CELL_H then old(bytes[y + CELL_H, b])
                               else 0
    {
      var height, width := g.rows * CELL_H, g.cols * CELL_W * g.bpp;
      for line := 0 to height - CELL_H
        invariant forall y, b :: 0 <= y < bytes.Length0 && 0 <= b < bytes.Length1 ==>
                    bytes[y, b] == if b < width && y < line then old(bytes[y + CELL_H, b]) else old(bytes[y, b])
      {
        CopyLine(line, line + CELL_H, width);
      }
      for line := height - CELL_H to height
        invariant forall y, b :: 0 <= y < bytes.Length0 && 0 <= b < bytes.Length1 ==>
                    bytes[y, b] == if b >= width || y >= line then old(bytes[y, b])
                                   else if y < height - CELL_H then old(bytes[y + CELL_H, b])
                                   else 0
      {
        ZeroLine(line, width);
      }
    }

    lemma OnTerminalWidth(b: nat)
      requires Valid()
      ensures PixelAt(b, g.bpp) / CELL_W < g.cols <==> b < g.cols * CELL_W * g.bpp
    {
      PixelSplit(b, g.bpp);
      var p := PixelAt(b, g.bpp);
      if p < g.cols * CELL_W {
        assert (p + 1) * g.bpp <= g.cols * CELL_W * g.bpp;
      } else {
        assert p * g.bpp >= g.cols * CELL_W * g.bpp;
      }
    }

    /** Moving pixels gives what scrolling the cells and drawing them all again would
        give, except that a cursor on the screen moves up with them. */
    method FastScroll(ghost cells: seq<Cell>, ghost color: byte, ghost over: Overlay)
      requires Valid() && g.rows > 1 && |cells| == Area(g.cols, g.rows) && OverlayFits(g, over) && Coherent(cells, over)
      modifies bytes
      ensures g.cols <= |cells| && Coherent(ScrolledOne(cells, g.cols, color), MovedUp(over))
    {
      AreaGrows(g.cols, 0, g.rows);
      ShiftLines();
      ghost var after := ScrolledOne(cells, g.cols, color);
      forall y, b | 0 <= y < bytes.Length0 && 0 <= b < bytes.Length1 && OnTerminal(g, y, b)
        ensures bytes[y, b] == Picture(style, g, after, MovedUp(over), y, b)
      {
        OnTerminalWidth(b);
        ScrolledPicture(cells, color, over, y, b);
        if y / CELL_H + 1 < g.rows {
          assert old(bytes[y + CELL_H, b]) == Picture(style, g, cells, over, y + CELL_H, b);
        }
      }
    }

    /** The picture of the scrolled cells: the picture sixteen scanlines lower, or black. */
    lemma ScrolledPicture(cells: seq<Cell>, color: byte, over: Overlay, y: nat, b: nat)
      requires Valid() && |cells| == Area(g.cols, g.rows) && OverlayFits(g, over) && OnTerminal(g, y, b)
      requires g.cols <= |cells|
      ensures y / CELL_H + 1 < g.rows ==> OnTerminal(g, y + CELL_H, b)
      ensures Picture(style, g, ScrolledOne(cells, g.cols, color), MovedUp(over), y, b)
              == if y / CELL_H + 1 < g.rows then Picture(style, g, cells, over, y + CELL_H, b) else 0
    {
      var cx, cy := PixelAt(b, g.bpp) / CELL_W, y / CELL_H;
      IndexInRange(cx, cy, g.cols, g.rows);
      ScrolledCell(cells, color, cx, cy);
      if cy + 1 >= g.rows { BlankIsBlack(style, color, y, b, g.bpp); }
    }

    lemma ScrolledCell(cells: seq<Cell>, color: byte, cx: nat, cy: nat)
      requires Valid() && |cells| == Area(g.cols, g.rows) && cx < g.cols && cy < g.rows
      requires Index(cx, cy, g.cols) < |cells| && g.cols <= |cells|
      ensures cy + 1 < g.rows ==> Index(cx, cy + 1, g.cols) < |cells|
      ensures ScrolledOne(cells, g.cols, color)[Index(cx, cy, g.cols)]
              == if cy + 1 < g.rows then cells[Index(cx, cy + 1, g.cols)] else Blank(color)
    {
      IndexSplit(cx, cy, g.cols);
      if cy + 1 < g.rows { IndexInRange(cx, cy + 1, g.cols, g.rows); }
    }
  }
}
