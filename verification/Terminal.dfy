/** The text terminal of `vga.c`: a grid of cells in memory, scrolled in place, and
  its picture on a framebuffer or in text-mode video memory. */
module Terminal {
  import opened Common
  import opened Framebuffer

  const TAB_STOP := 4
  const CELLS_MAX := 160 * 80
  const TEXT_COLS := 80
  const TEXT_ROWS := 25
  const FB_COLS_MAX := 140
  const FB_ROWS_MAX := 70

  const NEWLINE: byte := 10
  const BACKSPACE: byte := 8
  const TAB: byte := 9

  // ----- The grid that the code works on -----

  /** Rows of cells one behind the other, the cursor and the current colour. */
  datatype Grid = Grid(cells: seq<Cell>, x: nat, y: nat, color: byte)

  /** The fixed size of the grid. */
  datatype Size = Size(cols: nat, rows: nat)

  predicate GoodSize(z: Size) {
    z.cols > 0 && z.rows > 0
  }

  predicate Fits(g: Grid, z: Size) {
    GoodSize(z) && |g.cells| == Area(z.cols, z.rows) && g.x < z.cols && g.y < z.rows
  }

  function Written(g: Grid, z: Size, x: nat, y: nat, ch: byte): (r: Grid)
    requires |g.cells| == Area(z.cols, z.rows) && x < z.cols && y < z.rows
    ensures |r.cells| == |g.cells|
  {
    IndexInRange(x, y, z.cols, z.rows);
    g.(cells := g.cells[Index(x, y, z.cols) := Cell(ch, g.color)])
  }

  /** The cursor moves on by one column, and to the next row after the last one. */
  function Stepped(g: Grid, z: Size): Grid {
    if g.x + 1 >= z.cols then g.(x := 0, y := g.y + 1) else g.(x := g.x + 1)
  }

  /** Up to `n` blanks, not beyond the end of the row. */
  function Tabbed(g: Grid, z: Size, n: nat): Grid
    requires |g.cells| == Area(z.cols, z.rows) && g.x < z.cols && g.y < z.rows
    decreases n
  {
    if n == 0 then g
    else
      var g1 := Stepped(Written(g, z, g.x, g.y, SPACE), z);
      if g1.x == 0 then g1 else Tabbed(g1, z, n - 1)
  }

  /** A row that has just been left below the last one scrolls the grid. */
  function Scrolled(g: Grid, z: Size): Grid
    requires |g.cells| == Area(z.cols, z.rows) && GoodSize(z)
  {
    if g.y < z.rows then g
    else
      AreaGrows(z.cols, z.rows - 1, z.rows);
      g.(cells := ScrolledOne(g.cells, z.cols, g.color), y := g.y - 1)
  }

  /** One byte of a message. */
  function Put(g: Grid, z: Size, b: byte): Grid
    requires Fits(g, z)
  {
    Scrolled(Placed(g, z, b), z)
  }

  /** The byte without the scroll that may follow. */
  function Placed(g: Grid, z: Size, b: byte): (r: Grid)
    requires Fits(g, z)
    ensures |r.cells| == |g.cells|
  {
    if b == NEWLINE then g.(x := 0, y := g.y + 1)
    else if b == BACKSPACE then
      var g1 := if g.x > 0 then g.(x := g.x - 1) else if g.y > 0 then g.(x := z.cols - 1, y := g.y - 1) else g;
      Written(g1, z, g1.x, g1.y, SPACE)
    else if b == TAB then
      TabbedFits(g, z, TAB_STOP);
      Tabbed(g, z, TAB_STOP)
    else Stepped(Written(g, z, g.x, g.y, b), z)
  }

  lemma {:induction false} TabbedFits(g: Grid, z: Size, n: nat)
    requires Fits(g, z)
    ensures var t := Tabbed(g, z, n);
            |t.cells| == |g.cells| && t.x < z.cols && t.color == g.color && g.y <= t.y <= g.y + 1
              && (t.y > g.y ==> t.x == 0)
    decreases n
  {
    if n > 0 {
      var g1 := Stepped(Written(g, z, g.x, g.y, SPACE), z);
      if g1.x != 0 { TabbedFits(g1, z, n - 1); }
    }
  }

  /** The cursor is inside the grid after every byte; a byte leaves it at most one row below. */
  lemma PutFits(g: Grid, z: Size, b: byte)
    requires Fits(g, z)
    ensures Fits(Put(g, z, b), z) && Put(g, z, b).color == g.color
    ensures Placed(g, z, b).x < z.cols && Placed(g, z, b).y <= z.rows && Placed(g, z, b).color == g.color
  {
  }

  function PutAll(g: Grid, z: Size, msg: seq<byte>): (r: Grid)
    requires Fits(g, z)
    ensures Fits(r, z) && r.color == g.color
    decreases |msg|
  {
    if msg == [] then g
    else
      PutFits(g, z, msg[0]);
      PutAll(Put(g, z, msg[0]), z, msg[1..])
  }

  /** One printable character: where it stands afterwards, and where the cursor is. */
  lemma PrintedCell(g: Grid, z: Size, ch: byte)
    requires Fits(g, z) && z.rows > 1 && 32 <= ch
    ensures var wraps := g.x + 1 >= z.cols;
            var scrolls := wraps && g.y + 1 >= z.rows;
            var y := if scrolls then g.y - 1 else g.y;
            var g' := PutAll(g, z, [ch]);
            && Index(g.x, y, z.cols) < |g'.cells| && g'.cells[Index(g.x, y, z.cols)] == Cell(ch, g.color)
            && g'.x == (if wraps then 0 else g.x + 1)
            && g'.y == (if wraps && !scrolls then g.y + 1 else g.y)
  {
    assert PutAll(g, z, [ch]) == Put(g, z, ch) by { assert [ch][1..] == []; }
    IndexInRange(g.x, g.y, z.cols, z.rows);
    var placed := Stepped(Written(g, z, g.x, g.y, ch), z);
    assert Put(g, z, ch) == Scrolled(placed, z);
    assert placed.cells[Index(g.x, g.y, z.cols)] == Cell(ch, g.color);
    if placed.y >= z.rows { ScrolledUp(placed, z, g.x, g.y); }
  }

  /** Scrolling moves a cell to the row above. */
  lemma ScrolledUp(g: Grid, z: Size, x: nat, y: nat)
    requires |g.cells| == Area(z.cols, z.rows) && GoodSize(z) && g.y >= z.rows && x < z.cols && 0 < y < z.rows
    ensures Index(x, y, z.cols) < |g.cells| && Index(x, y - 1, z.cols) < |Scrolled(g, z).cells|
    ensures Scrolled(g, z).cells[Index(x, y - 1, z.cols)] == g.cells[Index(x, y, z.cols)]
  {
    IndexInRange(x, y, z.cols, z.rows);
    IndexInRange(x, y - 1, z.cols, z.rows);
    assert Index(x, y, z.cols) == Index(x, y - 1, z.cols) + z.cols;
  }

  // ----- The unbounded page -----

  /** A page that only grows: all cells ever shown, the row the view begins at, and
      a position counted in cells from the very first one. */
  datatype Page = Page(cells: seq<Cell>, top: nat, pos: nat, color: byte)

  /** The view is the last `rows` rows, and the position lies in it. */
  predicate PageFits(p: Page, z: Size) {
    GoodSize(z) && |p.cells| == Area(z.cols, p.top + z.rows) && Area(z.cols, p.top) <= p.pos < |p.cells|
  }

  /** `n` blanks from the position on. */
  function Filled(p: Page, n: nat): Page
    requires p.pos <= |p.cells|
  {
    var rest := if p.pos + n <= |p.cells| then p.cells[p.pos + n..] else [];
    p.(cells := p.cells[..p.pos] + Blanks(n, p.color) + rest, pos := p.pos + n)
  }

  function Min(a: nat, b: nat): nat {
    if a < b then a else b
  }

  /** One byte on the page: lines are only a matter of counting. */
  function PagePlaced(p: Page, z: Size, b: byte): Page
    requires PageFits(p, z)
  {
    if b == 10 then p.(pos := (p.pos / z.cols + 1) * z.cols)
    else if b == 8 then
      var pos := if p.pos > Area(z.cols, p.top) then p.pos - 1 else p.pos;
      p.(cells := p.cells[pos := Cell(32, p.color)], pos := pos)
    else if b == 9 then
      Filled(p, Min(4, z.cols - p.pos % z.cols))
    else p.(cells := p.cells[p.pos := Cell(b, p.color)], pos := p.pos + 1)
  }

  /** At the end of the page a blank row is added and the view moves down by one. */
  function PagePut(p: Page, z: Size, b: byte): Page
    requires PageFits(p, z)
  {
    var q := PagePlaced(p, z, b);
    if q.pos >= |q.cells| then q.(cells := q.cells + Blanks(z.cols, q.color), top := q.top + 1) else q
  }

  /** What the view shows, with the cursor in rows and columns. */
  ghost predicate Views(p: Page, g: Grid, z: Size) {
    && PageFits(p, z) && Fits(g, z)
    && p.color == g.color
    && g.cells == p.cells[Area(z.cols, p.top)..]
    && p.pos == Area(z.cols, p.top) + Index(g.x, g.y, z.cols)
  }

  // ----- The grid is the end of the page -----

  lemma RowAndColumn(x: nat, y: nat, cols: nat)
    requires x < cols
    ensures Index(x, y, cols) / cols == y && Index(x, y, cols) % cols == x
  {
    IndexIsProduct(x, y, cols);
    QuotientIs(y * cols + x, cols, y, x);
  }

  lemma CellIndex(x: nat, y: nat, cols: nat)
    ensures y * cols + x == Area(cols, y) + x
  {
    IndexIsProduct(x, y, cols);
    IndexSplit(x, y, cols);
  }

  lemma {:induction false} AreaAdds(cols: nat, a: nat, b: nat)
    ensures Area(cols, a + b) == Area(cols, a) + Area(cols, b)
    decreases b
  {
    if b > 0 { AreaAdds(cols, a, b - 1); }
  }

  /** Position and coordinates: rows above the view, then the cell in the view. */
  lemma PositionIsIndex(p: Page, g: Grid, z: Size)
    requires Views(p, g, z)
    ensures p.pos == Index(g.x, p.top + g.y, z.cols)
    ensures p.pos / z.cols == p.top + g.y && p.pos % z.cols == g.x
    ensures |p.cells| == Area(z.cols, p.top) + Area(z.cols, z.rows)
    ensures Area(z.cols, p.top) <= p.pos
  {
    IndexSplit(g.x, g.y, z.cols);
    IndexSplit(g.x, p.top + g.y, z.cols);
    AreaAdds(z.cols, p.top, g.y);
    AreaAdds(z.cols, p.top, z.rows);
    RowAndColumn(g.x, p.top + g.y, z.cols);
  }

  /** `g` shows page `p`, except that the cursor may stand at the start of the row below the view. */
  ghost predicate ViewsBelow(p: Page, g: Grid, z: Size) {
    && GoodSize(z) && |p.cells| == Area(z.cols, p.top + z.rows) && |g.cells| == Area(z.cols, z.rows)
    && Area(z.cols, p.top) <= |p.cells| && p.color == g.color && g.x < z.cols && g.y <= z.rows
       && (g.y == z.rows ==> g.x == 0)
    && g.cells == p.cells[Area(z.cols, p.top)..]
    && p.pos == Area(z.cols, p.top) + Index(g.x, g.y, z.cols)
  }

  /** Writing a cell and stepping on is the same on both sides. */
  lemma WriteStepViews(p: Page, g: Grid, z: Size, ch: byte)
    requires Views(p, g, z)
    ensures ViewsBelow(p.(cells := p.cells[p.pos := Cell(ch, p.color)], pos := p.pos + 1),
                       Stepped(Written(g, z, g.x, g.y, ch), z), z)
  {
    PositionIsIndex(p, g, z);
    IndexInRange(g.x, g.y, z.cols, z.rows);
    IndexSplit(g.x, g.y, z.cols);
    IndexSplit(g.x + 1, g.y, z.cols);
    var i := Index(g.x, g.y, z.cols);
    assert p.cells[p.pos := Cell(ch, p.color)][Area(z.cols, p.top)..] == g.cells[i := Cell(ch, g.color)];
  }

  lemma BackViews(p: Page, g: Grid, z: Size)
    requires Views(p, g, z)
    ensures ViewsBelow(PagePlaced(p, z, BACKSPACE), Placed(g, z, BACKSPACE), z)
  {
    PositionIsIndex(p, g, z);
    IndexSplit(g.x, g.y, z.cols);
    var g1 := if g.x > 0 then g.(x := g.x - 1) else if g.y > 0 then g.(x := z.cols - 1, y := g.y - 1) else g;
    var pos := if p.pos > Area(z.cols, p.top) then p.pos - 1 else p.pos;
    IndexSplit(g1.x, g1.y, z.cols);
    IndexInRange(g1.x, g1.y, z.cols, z.rows);
    if g.x == 0 && g.y == 0 { assert Area(z.cols, 0) == 0; }
    assert pos == Area(z.cols, p.top) + Index(g1.x, g1.y, z.cols);
    assert p.cells[pos := Blank(p.color)][Area(z.cols, p.top)..]
           == g.cells[Index(g1.x, g1.y, z.cols) := Blank(g.color)];
  }

  lemma NewlineViews(p: Page, g: Grid, z: Size)
    requires Views(p, g, z)
    ensures ViewsBelow(PagePlaced(p, z, NEWLINE), Placed(g, z, NEWLINE), z)
  {
    PositionIsIndex(p, g, z);
    IndexIsProduct(0, p.top + g.y + 1, z.cols);
    AreaAdds(z.cols, p.top, g.y + 1);
  }

  lemma FilledStep(p: Page, n: nat)
    requires p.pos + n <= |p.cells| && n > 0
    ensures Filled(p, n) == Filled(p.(cells := p.cells[p.pos := Blank(p.color)], pos := p.pos + 1), n - 1)
  {
  }

  lemma RowFitsView(p: Page, g: Grid, z: Size)
    requires Views(p, g, z)
    ensures p.pos + (z.cols - g.x) <= |p.cells|
  {
    PositionIsIndex(p, g, z);
    IndexSplit(g.x, g.y, z.cols);
    AreaGrows(z.cols, g.y, z.rows);
  }

  /** One blank of a tab, on both sides. */
  lemma BlankStepViews(p: Page, g: Grid, z: Size)
    requires Views(p, g, z)
    ensures var p1 := p.(cells := p.cells[p.pos := Blank(p.color)], pos := p.pos + 1);
            var g1 := Stepped(Written(g, z, g.x, g.y, SPACE), z);
            ViewsBelow(p1, g1, z) && (g1.x != 0 ==> Views(p1, g1, z))
  {
    WriteStepViews(p, g, z, SPACE);
    var g1 := Stepped(Written(g, z, g.x, g.y, SPACE), z);
    if g1.x != 0 {
      IndexInRange(g1.x, g1.y, z.cols, z.rows);
      AreaAdds(z.cols, p.top, z.rows);
    }
  }

  lemma FilledNothing(p: Page)
    requires p.pos <= |p.cells|
    ensures Filled(p, 0) == p
  {
  }

  lemma {:induction false} TabViews(p: Page, g: Grid, z: Size, n: nat)
    requires Views(p, g, z)
    ensures ViewsBelow(Filled(p, Min(n, z.cols - g.x)), Tabbed(g, z, n), z)
    decreases n
  {
    RowFitsView(p, g, z);
    if n == 0 {
      FilledNothing(p);
    } else {
      var p1 := p.(cells := p.cells[p.pos := Blank(p.color)], pos := p.pos + 1);
      var g1 := Stepped(Written(g, z, g.x, g.y, SPACE), z);
      BlankStepViews(p, g, z);
      FilledStep(p, Min(n, z.cols - g.x));
      if g1.x == 0 {
        FilledNothing(p1);
      } else {
        TabViews(p1, g1, z, n - 1);
      }
    }
  }

  lemma PlacedViews(p: Page, g: Grid, z: Size, b: byte)
    requires Views(p, g, z)
    ensures ViewsBelow(PagePlaced(p, z, b), Placed(g, z, b), z)
  {
    PositionIsIndex(p, g, z);
    if b == NEWLINE { NewlineViews(p, g, z); }
    else if b == BACKSPACE { BackViews(p, g, z); }
    else if b == TAB { TabViews(p, g, z, TAB_STOP); }
    else { WriteStepViews(p, g, z, b); }
  }

  /** The scroll of the grid is the growth of the page. */
  lemma ScrollViews(q: Page, g: Grid, z: Size)
    requires ViewsBelow(q, g, z)
    ensures var p' := if q.pos >= |q.cells| then q.(cells := q.cells + Blanks(z.cols, q.color), top := q.top + 1)
                      else q;
            Views(p', Scrolled(g, z), z)
  {
    AreaAdds(z.cols, q.top, z.rows);
    IndexSplit(g.x, g.y, z.cols);
    if g.y < z.rows {
      IndexInRange(g.x, g.y, z.cols, z.rows);
    } else {
      AreaAdds(z.cols, q.top + 1, z.rows);
      AreaAdds(z.cols, q.top, 1);
      AreaGrows(z.cols, z.rows - 1, z.rows);
      var cells' := q.cells + Blanks(z.cols, q.color);
      assert cells'[Area(z.cols, q.top + 1)..] == ScrolledOne(g.cells, z.cols, g.color);
      AreaAdds(z.cols, q.top + 1, z.rows - 1);
      AreaAdds(z.cols, 1, z.rows - 1);
      IndexInRange(0, z.rows - 1, z.cols, z.rows);
      IndexSplit(0, z.rows - 1, z.cols);
    }
  }

  /** What has scrolled out of the view is never written again. */
  lemma PagePutKeepsPast(p: Page, g: Grid, z: Size, b: byte)
    requires Views(p, g, z)
    ensures p.cells[..Area(z.cols, p.top)] <= PagePut(p, z, b).cells
  {
  }

  /** One byte: the grid keeps showing the end of the page. */
  lemma PutViews(p: Page, g: Grid, z: Size, b: byte)
    requires Views(p, g, z)
    ensures Views(PagePut(p, z, b), Put(g, z, b), z)
  {
    PlacedViews(p, g, z, b);
    ScrollViews(PagePlaced(p, z, b), Placed(g, z, b), z);
  }

  /** Every grid is such a view: of the page that is just the grid. */
  lemma EveryGridIsAView(g: Grid, z: Size)
    requires Fits(g, z)
    ensures Views(Page(g.cells, 0, Index(g.x, g.y, z.cols), g.color), g, z)
  {
    IndexInRange(g.x, g.y, z.cols, z.rows);
  }

  function PagePutAll(p: Page, g: Grid, z: Size, msg: seq<byte>): Page
    requires Views(p, g, z)
    decreases |msg|
  {
    if msg == [] then p
    else
      PutViews(p, g, z, msg[0]);
      PagePutAll(PagePut(p, z, msg[0]), Put(g, z, msg[0]), z, msg[1..])
  }

  /** Any message on the scrolling grid shows what writing it on the unbounded page
      shows in its last rows, and what has scrolled away stays on the page as it was. */
  lemma {:induction false} PrintViews(p: Page, g: Grid, z: Size, msg: seq<byte>)
    requires Views(p, g, z)
    ensures Views(PagePutAll(p, g, z, msg), PutAll(g, z, msg), z)
    ensures p.cells[..Area(z.cols, p.top)] <= PagePutAll(p, g, z, msg).cells
    decreases |msg|
  {
    if msg != [] {
      var q := PagePut(p, z, msg[0]);
      PutViews(p, g, z, msg[0]);
      PrintViews(q, Put(g, z, msg[0]), z, msg[1..]);
      PagePutKeepsPast(p, g, z, msg[0]);
      if q.top > p.top { AreaGrows(z.cols, p.top, q.top); }
      assert p.cells[..Area(z.cols, p.top)] <= q.cells[..Area(z.cols, q.top)];
    }
  }

  // ----- Runs of the public operations -----

  datatype Op = Print(msg: seq<byte>) | MoveTo(x: int, y: int) | Color(color: byte) | Clear

  function Clamped(v: int, limit: nat): nat
    requires limit > 0
  {
    if v < 0 then 0 else if v >= limit then limit - 1 else v
  }

  function Done(g: Grid, z: Size, op: Op): (r: Grid)
    requires Fits(g, z)
    ensures Fits(r, z)
  {
    match op
    case Print(msg) => PutAll(g, z, msg)
    case MoveTo(x, y) => g.(x := Clamped(x, z.cols), y := Clamped(y, z.rows))
    case Color(color) => g.(color := color)
    case Clear => Grid(Blanks(Area(z.cols, z.rows), g.color), 0, 0, g.color)
  }

  /** A position outside the grid is moved to the nearest one inside; nothing else changes. */
  lemma MoveMeaning(g: Grid, z: Size, x: int, y: int)
    requires Fits(g, z)
    ensures var g' := Done(g, z, MoveTo(x, y));
            && g' == g.(x := g'.x, y := g'.y)
            && (0 <= x < z.cols ==> g'.x == x) && (x < 0 ==> g'.x == 0) && (x >= z.cols ==> g'.x + 1 == z.cols)
            && (0 <= y < z.rows ==> g'.y == y) && (y < 0 ==> g'.y == 0) && (y >= z.rows ==> g'.y + 1 == z.rows)
  {
  }

  /** Clearing leaves spaces in the current colour and the cursor in the first cell; a new
      colour changes nothing that is there. */
  lemma ClearMeaning(g: Grid, z: Size, color: byte)
    requires Fits(g, z)
    ensures var g' := Done(g, z, Clear);
            && g'.x == 0 && g'.y == 0 && g'.color == g.color && |g'.cells| == |g.cells|
            && (forall k :: 0 <= k < |g'.cells| ==> g'.cells[k] == Cell(32, g.color))
    ensures Done(g, z, Color(color)) == Grid(g.cells, g.x, g.y, color)
  {
  }

  function DoneAll(g: Grid, z: Size, ops: seq<Op>): (r: Grid)
    requires Fits(g, z)
    ensures Fits(r, z)
    decreases |ops|
  {
    if ops == [] then g else DoneAll(Done(g, z, ops[0]), z, ops[1..])
  }

  // ----- The size of the grid -----

  /** `configurar_geometria_texto`. A framebuffer holds the whole terminal exactly when
      it is at least as large as the text mode; the memory for the cells always does. */
  method ConfigureGeometry(usingFb: bool, width: nat, height: nat) returns (z: Size)
    ensures !usingFb ==> z == Size(80, 25)
    ensures 80 <= z.cols <= 140 && 25 <= z.rows <= 70 && Area(z.cols, z.rows) <= 12800
    ensures usingFb ==> (z.cols * 8 <= width && z.rows * 16 <= height <==> width >= 640 && height >= 400)
    ensures usingFb && width >= 640 && z.cols < 140 ==> width < (z.cols + 1) * 8
    ensures usingFb && height >= 400 && z.rows < 70 ==> height < (z.rows + 1) * 16
  {
    if !usingFb {
      z := Size(TEXT_COLS, TEXT_ROWS);
      IndexIsProduct(0, z.rows, z.cols);
      return;
    }
    var cols, rows := width / CELL_W, height / CELL_H;
    if cols > FB_COLS_MAX { cols := FB_COLS_MAX; }
    if rows > FB_ROWS_MAX { rows := FB_ROWS_MAX; }
    if cols < TEXT_COLS { cols := TEXT_COLS; }
    if rows < TEXT_ROWS { rows := TEXT_ROWS; }
    LargestFits(cols, rows);
    cols, rows := Shrink(cols, rows);
    IndexIsProduct(0, rows, cols);
    return Size(cols, rows);
  }

  lemma LargestFits(cols: nat, rows: nat)
    requires cols <= FB_COLS_MAX && rows <= FB_ROWS_MAX
    ensures cols * rows <= CELLS_MAX
  {
    assert cols * rows <= FB_COLS_MAX * rows;
  }

  /** The last two loops give up rows, then columns, until the cells fit their memory. */
  method Shrink(cols: nat, rows: nat) returns (c: nat, r: nat)
    requires cols >= TEXT_COLS && rows >= TEXT_ROWS
    ensures TEXT_COLS <= c <= cols && TEXT_ROWS <= r <= rows && c * r <= CELLS_MAX
    ensures cols * rows <= CELLS_MAX ==> c == cols && r == rows
  {
    c, r := cols, rows;
    while c * r > CELLS_MAX && r > TEXT_ROWS
      invariant r == rows || cols * rows > CELLS_MAX
      invariant TEXT_ROWS <= r <= rows
    {
      Narrower(c, r, rows);
      r := r - 1;
    }
    while c * r > CELLS_MAX && c > TEXT_COLS
      invariant c * r > CELLS_MAX ==> r == TEXT_ROWS
      invariant c == cols || cols * rows > CELLS_MAX
      invariant TEXT_COLS <= c <= cols
    {
      Narrower(cols, r, rows);
      Narrower(r, c, cols);
      c := c - 1;
    }
  }

  lemma Narrower(c: nat, r: nat, rows: nat)
    requires r <= rows
    ensures c * r <= c * rows && r * c == c * r
  {
  }

  // ----- The terminal in memory -----

  class Screen {
    const z: Size
    const usingFb: bool
    const cells: array<Cell>
    const video: array<byte>
    const fb: Memory
    var x: nat
    var y: nat
    var color: byte
    var batch: bool
    var cursorDrawn: bool
    var drawnX: nat
    var drawnY: nat
    var hardwareCursor: nat

    ghost predicate Valid() {
      && GoodSize(z) && z.rows > 1 && cells.Length == 12800 && Area(z.cols, z.rows) <= 12800
      && video.Length == 2 * CELLS_MAX
      && (usingFb ==> fb.Valid() && fb.g.cols == z.cols && fb.g.rows == z.rows)
    }

    ghost function Shadow(): (r: seq<Cell>)
      requires Valid()
      reads cells
      ensures |r| == Area(z.cols, z.rows)
    {
      cells[..Area(z.cols, z.rows)]
    }

    ghost function Now(): Grid
      requires Valid()
      reads this, cells
    {
      Grid(Shadow(), x, y, color)
    }

    ghost function Over(): Overlay
      reads this
    {
      if cursorDrawn then CursorAt(drawnX, drawnY) else NoCursor
    }

    /** Text-mode video memory holds the cells as pairs of bytes. */
    ghost predicate TextShown()
      requires Valid()
      reads cells, video
    {
      TextShownTo(Area(z.cols, z.rows))
    }

    ghost predicate TextShownTo(n: nat)
      requires Valid() && n <= Area(z.cols, z.rows)
      reads cells, video
    {
      forall i {:trigger cells[i]} :: 0 <= i < n ==> video[2 * i] == cells[i].ch && video[2 * i + 1] == cells[i].color
    }

    /** While a message is being written: no cursor is drawn, and the pixels are right unless they wait for a redraw. */
    ghost predicate Drawing()
      reads this, cells, video, fb.bytes
    {
      && Valid()
      && if usingFb then !cursorDrawn && (!batch ==> fb.Coherent(Shadow(), NoCursor))
         else TextShown() && !batch
    }

    /** Between operations: the display shows the cells, with the cursor where it is and nowhere else. */
    ghost predicate Settled()
      reads this, cells, video, fb.bytes
    {
      && Valid() && Fits(Now(), z) && !batch
      && if usingFb then cursorDrawn && drawnX == x && drawnY == y && fb.Coherent(Shadow(), CursorAt(x, y))
         else TextShown() && hardwareCursor == Index(x, y, z.cols)
    }

    constructor (z: Size, usingFb: bool, fb: Memory, video: array<byte>)
      requires GoodSize(z) && z.rows > 1 && Area(z.cols, z.rows) <= CELLS_MAX && video.Length == 2 * CELLS_MAX
      requires usingFb ==> fb.Valid() && fb.g.cols == z.cols && fb.g.rows == z.rows
      ensures Valid() && fresh(cells) && this.z == z && this.usingFb == usingFb && this.fb == fb && this.video == video
      ensures !batch && !cursorDrawn
    {
      this.z, this.usingFb, this.fb, this.video := z, usingFb, fb, video;
      cells := new Cell[CELLS_MAX](_ => Blank(15));
      x, y, color, batch, cursorDrawn, drawnX, drawnY, hardwareCursor := 0, 0, 15, false, false, 0, 0, 0;
    }

    /** One cell of the shadow grid, and of video memory in text mode. */
    method SetCell(i: nat, c: Cell)
      requires Valid() && i < Area(z.cols, z.rows)
      modifies cells, video
      ensures cells[..] == old(cells[..])[i := c]
      ensures !usingFb && old(TextShown()) ==> TextShown()
      ensures !usingFb && old(TextShownTo(i)) ==> TextShownTo(i + 1)
    {
      cells[i] := c;
      if !usingFb {
        video[2 * i] := c.ch;
        video[2 * i + 1] := c.color;
      }
    }

    /** `grava_celula`. */
    method WriteCell(cx: nat, cy: nat, ch: byte)
      requires Drawing() && cx < z.cols && cy < z.rows
      modifies cells, video, fb.bytes
      ensures Drawing() && Now() == Written(old(Now()), z, cx, cy, ch)
    {
      var index := cy * z.cols + cx;
      IndexIsProduct(cx, cy, z.cols);
      IndexInRange(cx, cy, z.cols, z.rows);
      ghost var before := Shadow();
      SetCell(index, Cell(ch, color));
      assert Shadow() == before[index := Cell(ch, color)];
      if usingFb {
        if !batch {
          fb.Paint(cx, cy, Cell(ch, color), false, before, NoCursor);
        }
      }
    }

    // ----- The cursor -----

    /** `limpa_cursor_desenhado`. */
    method EraseCursor()
      requires Valid() && usingFb && OverlayFits(fb.g, Over()) && fb.Coherent(Shadow(), Over())
      modifies this`cursorDrawn, fb.bytes
      ensures !cursorDrawn && fb.Coherent(Shadow(), NoCursor)
    {
      if !cursorDrawn { return; }
      var index := drawnY * z.cols + drawnX;
      IndexIsProduct(drawnX, drawnY, z.cols);
      IndexInRange(drawnX, drawnY, z.cols, z.rows);
      fb.Paint(drawnX, drawnY, cells[index], false, Shadow(), Over());
      assert Shadow()[index := cells[index]] == Shadow();
      cursorDrawn := false;
    }

    /** `cursor`: the underline, or the cursor registers of text mode. */
    method ShowCursor()
      requires Valid() && Fits(Now(), z) && !batch
      requires if usingFb then OverlayFits(fb.g, Over()) && fb.Coherent(Shadow(), Over()) else TextShown()
      modifies this`cursorDrawn, this`drawnX, this`drawnY, this`hardwareCursor, fb.bytes
      ensures Settled() && Now() == old(Now())
    {
      var index := y * z.cols + x;
      IndexIsProduct(x, y, z.cols);
      IndexInRange(x, y, z.cols, z.rows);
      if usingFb {
        DrawCursor(index);
      } else {
        hardwareCursor := index;
      }
    }

    method DrawCursor(index: nat)
      requires Valid() && Fits(Now(), z) && usingFb && index == Index(x, y, z.cols) < Area(z.cols, z.rows)
      requires OverlayFits(fb.g, Over()) && fb.Coherent(Shadow(), Over())
      modifies this`cursorDrawn, this`drawnX, this`drawnY, fb.bytes
      ensures cursorDrawn && drawnX == x && drawnY == y && fb.Coherent(Shadow(), CursorAt(x, y))
    {
      EraseCursor();
      fb.Paint(x, y, cells[index], true, Shadow(), NoCursor);
      assert Shadow()[index := cells[index]] == Shadow();
      cursorDrawn, drawnX, drawnY := true, x, y;
    }

    // ----- Scrolling -----

    /** One row of the grid takes the row `n` below it. */
    method CopyRow(row: nat, n: nat)
      requires Valid() && n > 0 && row + n < z.rows
      modifies cells, video
      ensures forall i :: 0 <= i < CELLS_MAX ==>
                cells[i] == if Area(z.cols, row) <= i < Area(z.cols, row) + z.cols && i + Area(z.cols, n) < CELLS_MAX
                            then old(cells[i + Area(z.cols, n)]) else old(cells[i])
      ensures !usingFb && old(TextShown()) ==> TextShown()
    {
      AreaAdds(z.cols, row, n);
      AreaGrows(z.cols, row + n, z.rows);
      AreaGrows(z.cols, 0, n);
      for col := 0 to z.cols
        invariant forall i :: 0 <= i < CELLS_MAX ==>
                    cells[i] == if Area(z.cols, row) <= i < Area(z.cols, row) + col && i + Area(z.cols, n) < CELLS_MAX
                                then old(cells[i + Area(z.cols, n)]) else old(cells[i])
        invariant !usingFb && old(TextShown()) ==> TextShown()
      {
        var dst, src := row * z.cols + col, (row + n) * z.cols + col;
        CellIndex(col, row, z.cols);
        CellIndex(col, row + n, z.cols);
        SetCell(dst, cells[src]);
      }
    }

    method BlankRow(row: nat)
      requires Valid() && row < z.rows
      modifies cells, video
      ensures forall i :: 0 <= i < CELLS_MAX ==>
                cells[i] == if Area(z.cols, row) <= i < Area(z.cols, row) + z.cols then Blank(color) else old(cells[i])
      ensures !usingFb && old(TextShown()) ==> TextShown()
    {
      AreaGrows(z.cols, row, z.rows);
      for col := 0 to z.cols
        invariant forall i :: 0 <= i < CELLS_MAX ==>
                    cells[i] == if Area(z.cols, row) <= i < Area(z.cols, row) + col then Blank(color) else old(cells[i])
        invariant !usingFb && old(TextShown()) ==> TextShown()
      {
        IndexIsProduct(col, row, z.cols);
        IndexSplit(col, row, z.cols);
        SetCell(row * z.cols + col, Blank(color));
      }
    }

    /** The first loop of the scroll: rows move up by `n`. */
    method MoveRows(n: nat)
      requires Valid() && 0 < n <= z.rows
      modifies cells, video
      ensures Area(z.cols, z.rows) == Area(z.cols, z.rows - n) + Area(z.cols, n)
      ensures forall i :: 0 <= i < Area(z.cols, z.rows - n) ==> cells[i] == old(cells[i + Area(z.cols, n)])
      ensures !usingFb && old(TextShown()) ==> TextShown()
    {
      AreaAdds(z.cols, z.rows - n, n);
      for row := 0 to z.rows - n
        invariant Area(z.cols, row) <= Area(z.cols, z.rows - n)
        invariant forall i :: 0 <= i < Area(z.cols, row) ==> cells[i] == old(cells[i + Area(z.cols, n)])
        invariant forall i :: Area(z.cols, row) <= i < CELLS_MAX ==> cells[i] == old(cells[i])
        invariant !usingFb && old(TextShown()) ==> TextShown()
      {
        AreaAdds(z.cols, row, n);
        AreaGrows(z.cols, row, z.rows - n);
        AreaGrows(z.cols, 0, n);
        CopyRow(row, n);
      }
    }

    /** The second loop: the last `n` rows become blank. */
    method BlankRows(n: nat)
      requires Valid() && 0 < n <= z.rows
      modifies cells, video
      ensures forall i :: 0 <= i < Area(z.cols, z.rows) ==>
                cells[i] == if i < Area(z.cols, z.rows - n) then old(cells[i]) else Blank(color)
      ensures !usingFb && old(TextShown()) ==> TextShown()
    {
      for row := z.rows - n to z.rows
        invariant Area(z.cols, z.rows - n) <= Area(z.cols, row)
        invariant forall i :: 0 <= i < CELLS_MAX ==>
                    cells[i] == if Area(z.cols, z.rows - n) <= i < Area(z.cols, row) then Blank(color)
                      else old(cells[i])
        invariant !usingFb && old(TextShown()) ==> TextShown()
      {
        AreaGrows(z.cols, row, z.rows);
        AreaAdds(z.cols, row, 1);
        BlankRow(row);
      }
    }

    /** The cells move up by `n` rows in place; blanks come in from below. */
    method ScrollCells(n: nat)
      requires Valid() && 0 < n <= z.rows
      modifies cells, video
      ensures Area(z.cols, n) <= Area(z.cols, z.rows)
      ensures Shadow() == old(Shadow())[Area(z.cols, n)..] + Blanks(Area(z.cols, n), color)
      ensures !usingFb && old(TextShown()) ==> TextShown()
    {
      MoveRows(n);
      BlankRows(n);
    }

    /** `scroll_linhas` with no cursor drawn. */
    method ScrollLines(lines: nat)
      requires Drawing()
      modifies cells, video, fb.bytes
      ensures Drawing()
      ensures var n := if lines > z.rows then z.rows else lines;
              Area(z.cols, n) <= Area(z.cols, z.rows)
              && Now() == old(Now()).(cells := old(Shadow())[Area(z.cols, n)..] + Blanks(Area(z.cols, n), color))
    {
      var n := if lines > z.rows then z.rows else lines;
      if n == 0 {
        assert Shadow()[0..] + Blanks(0, color) == Shadow();
        return;
      }
      ghost var before := Shadow();
      ScrollCells(n);
      if usingFb && !batch {
        if n == 1 {
          IndexIsProduct(0, 1, z.cols);
          fb.FastScroll(before, color, NoCursor);
          assert Shadow() == ScrolledOne(before, z.cols, color);
        } else {
          fb.Redraw(cells[..Visible()]);
        }
      }
    }

    // ----- Messages -----

    /** The tab's loop: up to four blanks, left early at the end of the row. */
    method PlaceTab()
      requires Drawing() && Fits(Now(), z)
      modifies this`x, this`y, cells, video, fb.bytes
      ensures Drawing() && Now() == Tabbed(old(Now()), z, TAB_STOP)
    {
      var j := 0;
      while j < TAB_STOP
        invariant 0 <= j <= TAB_STOP && Drawing() && Fits(Now(), z)
        invariant Tabbed(Now(), z, TAB_STOP - j) == Tabbed(old(Now()), z, TAB_STOP)
      {
        PlaceBlank();
        if x == 0 { break; }
        j := j + 1;
      }
    }

    method PlaceBlank()
      requires Drawing() && Fits(Now(), z)
      modifies this`x, this`y, cells, video, fb.bytes
      ensures Drawing() && Now() == Stepped(Written(old(Now()), z, old(x), old(y), SPACE), z)
    {
      WriteCell(x, y, SPACE);
      x := x + 1;
      if x >= z.cols {
        x, y := 0, y + 1;
      }
    }

    method PlaceBack()
      requires Drawing() && Fits(Now(), z)
      modifies this`x, this`y, cells, video, fb.bytes
      ensures Drawing() && Now() == Placed(old(Now()), z, BACKSPACE)
    {
      if x > 0 {
        x := x - 1;
      } else if y > 0 {
        y := y - 1;
        x := z.cols - 1;
      }
      WriteCell(x, y, SPACE);
    }

    /** The branches of `print`, up to the wrap at the end of a row. */
    method PlaceByte(b: byte)
      requires Drawing() && Fits(Now(), z)
      modifies this`x, this`y, cells, video, fb.bytes
      ensures Drawing() && Now() == Placed(old(Now()), z, b)
    {
      TabbedFits(Now(), z, TAB_STOP);
      if b == NEWLINE {
        x, y := 0, y + 1;
      } else if b == BACKSPACE {
        PlaceBack();
      } else if b == TAB {
        PlaceTab();
      } else {
        WriteCell(x, y, b);
        x := x + 1;
      }
      if x >= z.cols {
        x, y := 0, y + 1;
      }
    }

    /** The end of the loop of `print`: a row below the last one scrolls, and the pixels wait. */
    method ScrollIfBelow()
      requires Drawing() && x < z.cols && y <= z.rows
      modifies this`y, this`batch, cells, video, fb.bytes
      ensures Drawing() && Now() == Scrolled(old(Now()), z)
    {
      if y >= z.rows {
        var lines := y - z.rows + 1;
        if usingFb { batch := true; }
        IndexIsProduct(0, 1, z.cols);
        ScrollLines(lines);
        y := y - lines;
      }
    }

    /** One byte of `print`. */
    method PutByte(b: byte)
      requires Drawing() && Fits(Now(), z)
      modifies this`x, this`y, this`batch, cells, video, fb.bytes
      ensures Drawing() && Now() == Put(old(Now()), z, b)
    {
      PutFits(Now(), z, b);
      PlaceByte(b);
      ScrollIfBelow();
    }

    /** `print`. */
    method Print(msg: seq<byte>)
      requires Settled()
      modifies this`x, this`y, this`batch, this`cursorDrawn, this`drawnX, this`drawnY, this`hardwareCursor, cells,
               video, fb.bytes
      ensures Settled() && Now() == PutAll(old(Now()), z, msg)
    {
      if usingFb { EraseCursor(); }
      batch := false;
      for i := 0 to |msg|
        invariant Drawing() && Fits(Now(), z)
        invariant PutAll(Now(), z, msg[i..]) == PutAll(old(Now()), z, msg)
      {
        PutFits(Now(), z, msg[i]);
        assert msg[i..][0] == msg[i] && msg[i..][1..] == msg[i + 1..];
        PutByte(msg[i]);
      }
      if usingFb && batch {
        fb.Redraw(cells[..Visible()]);
        batch := false;
      }
      ShowCursor();
    }

    /** What the display shows of a cell: its dots, or its two bytes in text mode. */
    ghost predicate Displays(cx: nat, cy: nat, ch: byte, color: byte, underlined: bool)
      requires Valid()
      reads video, fb.bytes
    {
      if usingFb then fb.ShowsCell(cx, cy, ch, color, underlined)
      else
        var at := 2 * (cy * z.cols + cx);
        0 <= at && at + 1 < video.Length && video[at] == ch && video[at + 1] == color
    }

    lemma SettledDisplays(cx: nat, cy: nat)
      requires Settled() && cx < z.cols && cy < z.rows
      ensures Index(cx, cy, z.cols) < |Shadow()|
      ensures var cell := Shadow()[Index(cx, cy, z.cols)];
              Displays(cx, cy, cell.ch, cell.color, cx == x && cy == y)
    {
      IndexInRange(cx, cy, z.cols, z.rows);
      IndexIsProduct(cx, cy, z.cols);
      if usingFb {
        fb.CoherentShows(Shadow(), CursorAt(x, y), cx, cy);
      } else {
        assert cells[Index(cx, cy, z.cols)] == Shadow()[Index(cx, cy, z.cols)];
      }
    }

    /** After `Print` of one printable character, from a screen that held the grid `g`: the
        character stands where the cursor was, in the current colour, or one row higher if
        that scrolled; the cell under the cursor, and no other, is underlined. */
    lemma PrintedDisplays(g: Grid, ch: byte)
      requires Settled() && Fits(g, z) && 32 <= ch && Now() == PutAll(g, z, [ch])
      ensures var wraps := g.x + 1 >= z.cols;
              var scrolls := wraps && g.y + 1 >= z.rows;
              && Displays(g.x, if scrolls then g.y - 1 else g.y, ch, g.color, false)
              && x == (if wraps then 0 else g.x + 1)
              && y == (if wraps && !scrolls then g.y + 1 else g.y)
    {
      PrintedCell(g, z, ch);
      SettledDisplays(g.x, if g.x + 1 >= z.cols && g.y + 1 >= z.rows then g.y - 1 else g.y);
    }

    // ----- The other operations -----

    /** `set_cursor_pos`. */
    method SetCursorPos(cx: int, cy: int)
      requires Settled()
      modifies this`x, this`y, this`cursorDrawn, this`drawnX, this`drawnY, this`hardwareCursor, fb.bytes
      ensures Settled() && Now() == Done(old(Now()), z, MoveTo(cx, cy))
    {
      var nx, ny := cx, cy;
      if nx < 0 { nx := 0; }
      if ny < 0 { ny := 0; }
      if nx >= z.cols { nx := z.cols - 1; }
      if ny >= z.rows { ny := z.rows - 1; }
      x, y := nx, ny;
      ShowCursor();
    }

    /** `cor`. */
    method SetColor(c: byte)
      requires Settled()
      modifies this`color
      ensures Settled() && Now() == Done(old(Now()), z, Color(c))
    {
      color := c;
    }

    /** The loops of `limpatela` over the cells, and over video memory in text mode. */
    method BlankCells()
      requires Valid()
      modifies cells, video
      ensures Shadow() == Blanks(Area(z.cols, z.rows), color)
      ensures !usingFb ==> TextShown()
    {
      for i := 0 to Visible()
        invariant forall k :: 0 <= k < i ==> cells[k] == Blank(color)
        invariant !usingFb ==> TextShownTo(i)
      {
        SetCell(i, Blank(color));
      }
    }

    /** `limpatela`, from any state of the display. */
    method ClearScreen()
      requires Valid() && !batch
      modifies this`x, this`y, this`cursorDrawn, this`drawnX, this`drawnY, this`hardwareCursor, cells, video, fb.bytes
      ensures Settled() && Now() == Grid(Blanks(Area(z.cols, z.rows), color), 0, 0, color)
    {
      if usingFb { fb.ClearAll(color); }
      BlankCells();
      x, y := 0, 0;
      cursorDrawn := false;
      ShowCursor();
    }

    /** Any run of the public operations: the display always shows the cells, and the
        cells are what the grid says. */
    method Run(ops: seq<Op>)
      requires Settled()
      modifies this, cells, video, fb.bytes
      ensures Settled() && Now() == DoneAll(old(Now()), z, ops)
    {
      for i := 0 to |ops|
        invariant Settled()
        invariant DoneAll(Now(), z, ops[i..]) == DoneAll(old(Now()), z, ops)
      {
        assert ops[i..][0] == ops[i] && ops[i..][1..] == ops[i + 1..];
        match ops[i]
        case Print(msg) => Print(msg);
        case MoveTo(cx, cy) => SetCursorPos(cx, cy);
        case Color(c) => SetColor(c);
        case Clear => ClearScreen();
      }
    }

    function Visible(): (n: nat)
      ensures n == Area(z.cols, z.rows)
    {
      IndexIsProduct(0, z.rows, z.cols);
      z.rows * z.cols
    }
  }
}
