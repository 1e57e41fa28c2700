/** The text screen of lib.c: an 80x25 window kept in a 4KB video page and scrolled in
    place, proved to show the last 25 rows of an unbounded document that never scrolls. */
module TextScreen {
  import opened Bytes

  const COLS := 80
  const ROWS := 25
  /** Cells on the screen, and two-byte cells in one 4KB page. */
  const CELLS := 2000
  const PAGE_CELLS := 2048

  const NEW_LINE := 10
  const CARRIAGE_RETURN := 13
  const BACKSPACE := 8
  const SPACE := 32

  datatype Cell = Cell(ch: Byte, attr: Byte)

  /** A video page together with the cursor that writes to it. */
  datatype Screen = Screen(page: seq<Cell>, x: int, y: int)

  predicate OnScreen(s: Screen) {
    |s.page| == PAGE_CELLS && 0 <= s.x < COLS && 0 <= s.y < ROWS
  }

  function Blank(attr: Byte): Cell {
    Cell(SPACE, attr)
  }

  function BlankRow(attr: Byte): seq<Cell> {
    seq(COLS, _ => Blank(attr))
  }

  function CursorIndex(s: Screen): int {
    COLS * s.y + s.x
  }

  /** The page after shift_screen_up: 24 rows moved up one row, the last row blank, the
      cells behind the screen untouched. */
  function ScrolledPage(page: seq<Cell>, attr: Byte): seq<Cell>
    requires |page| == PAGE_CELLS
  {
    page[COLS..CELLS] + BlankRow(attr) + page[CELLS..]
  }

  predicate IsNewLine(c: Byte) {
    c == NEW_LINE || c == CARRIAGE_RETURN
  }

  /** Where a character leaves the cursor and the page before any scrolling. */
  function Placed(s: Screen, c: Byte, attr: Byte): Screen
    requires OnScreen(s)
  {
    if IsNewLine(c) then
      s.(x := 0, y := s.y + 1)
    else if c == BACKSPACE then
      var x := if s.x == 0 then COLS - 1 else s.x - 1;
      var y := if s.x == 0 && s.y > 0 then s.y - 1 else s.y;
      Screen(s.page[COLS * y + x := Blank(attr)], x, y)
    else
      Screen(s.page[CursorIndex(s) := Cell(c, attr)],
             (s.x + 1) % COLS, s.y + (s.x + 1) / COLS)
  }

  /** One character through putc_kbd or putc_screen. */
  function PutChar(s: Screen, c: Byte, attr: Byte): (r: Screen)
    requires OnScreen(s)
    ensures OnScreen(r)
  {
    var p := Placed(s, c, attr);
    if p.y >= ROWS then Screen(ScrolledPage(p.page, attr), p.x, p.y - 1) else p
  }

  /** A whole character stream. */
  function PutAll(s: Screen, text: seq<Byte>, attr: Byte): (r: Screen)
    requires OnScreen(s)
    ensures OnScreen(r)
    decreases |text|
  {
    if text == [] then s else PutAll(PutChar(s, text[0], attr), text[1..], attr)
  }

  lemma {:induction false} PutAppend(s: Screen, a: seq<Byte>, b: seq<Byte>, attr: Byte)
    requires OnScreen(s)
    ensures PutAll(s, a + b, attr) == PutAll(PutAll(s, a, attr), b, attr)
    decreases |a|
  {
    if a == [] {
      assert a + b == b;
    } else {
      assert (a + b)[1..] == a[1..] + b;
      PutAppend(PutChar(s, a[0], attr), a[1..], b, attr);
    }
  }

  lemma PutOne(s: Screen, c: Byte, attr: Byte)
    requires OnScreen(s)
    ensures PutAll(s, [c], attr) == PutChar(s, c, attr)
  {
    assert [c][1..] == [];
  }

  // ---------------------------------------------------------------------------------------
  // The unbounded document
  // ---------------------------------------------------------------------------------------

  /** A document of whole rows that only ever grows; pos is the next cell to write. */
  datatype Document = Document(cells: seq<Cell>, pos: int)

  /** Index of the first cell of the last 25 rows. */
  function Top(d: Document): int {
    |d.cells| - CELLS
  }

  predicate DocumentOk(d: Document) {
    |d.cells| % COLS == 0 && 0 <= Top(d) <= d.pos < |d.cells|
  }

  /** Adds a blank row when the position has run off the end. Nothing moves. */
  function Extended(d: Document, attr: Byte): Document {
    if d.pos == |d.cells| then d.(cells := d.cells + BlankRow(attr)) else d
  }

  /** The same character on the document. Backspace stops at the window's top row: from its
      first cell the code jumps to the last cell of that row. */
  function DocumentPut(d: Document, c: Byte, attr: Byte): (r: Document)
    requires DocumentOk(d)
    ensures DocumentOk(r)
  {
    if IsNewLine(c) then
      Extended(d.(pos := (d.pos / COLS + 1) * COLS), attr)
    else if c == BACKSPACE then
      var p := if d.pos == Top(d) then Top(d) + COLS - 1 else d.pos - 1;
      Document(d.cells[p := Blank(attr)], p)
    else
      Extended(Document(d.cells[d.pos := Cell(c, attr)], d.pos + 1), attr)
  }

  /** The screen is the last 25 rows of the document, cursor included. */
  ghost predicate Shows(d: Document, s: Screen) {
    && DocumentOk(d)
    && OnScreen(s)
    && s.page[..CELLS] == d.cells[Top(d)..]
    && CursorIndex(s) == d.pos - Top(d)
  }

  lemma PlaceShows(d: Document, s: Screen, c: Byte, attr: Byte)
    requires Shows(d, s)
    requires !IsNewLine(c) && c != BACKSPACE
    ensures Shows(DocumentPut(d, c, attr), PutChar(s, c, attr))
  {
    var p := Placed(s, c, attr);
    assert CursorIndex(p) == CursorIndex(s) + 1;
    var d1 := Document(d.cells[d.pos := Cell(c, attr)], d.pos + 1);
    assert p.page[..CELLS] == d1.cells[Top(d)..];
    ScrollShows(d1, p, attr);
  }

  /** Scrolling the page and growing the document keep the two views equal. */
  lemma ScrollShows(d: Document, p: Screen, attr: Byte)
    requires |d.cells| % COLS == 0 && 0 <= Top(d) <= d.pos <= |d.cells|
    requires |p.page| == PAGE_CELLS && 0 <= p.x < COLS && 0 <= p.y <= ROWS
    requires p.page[..CELLS] == d.cells[Top(d)..]
    requires CursorIndex(p) == d.pos - Top(d)
    ensures var r := if p.y >= ROWS then Screen(ScrolledPage(p.page, attr), p.x, p.y - 1) else p;
            Shows(Extended(d, attr), r)
  {
    if p.y >= ROWS {
      assert p.x == 0 && d.pos == |d.cells|;
      var cells := d.cells + BlankRow(attr);
      var page := ScrolledPage(p.page, attr);
      assert page[..CELLS] == p.page[..CELLS][COLS..] + BlankRow(attr);
      assert cells[Top(d) + COLS..] == d.cells[Top(d)..][COLS..] + BlankRow(attr);
    }
  }

  lemma NewLineShows(d: Document, s: Screen, c: Byte, attr: Byte)
    requires Shows(d, s) && IsNewLine(c)
    ensures Shows(DocumentPut(d, c, attr), PutChar(s, c, attr))
  {
    var d1 := d.(pos := (d.pos / COLS + 1) * COLS);
    assert d.pos / COLS == Top(d) / COLS + s.y;
    ScrollShows(d1, Placed(s, c, attr), attr);
  }

  lemma BackspaceShows(d: Document, s: Screen, attr: Byte)
    requires Shows(d, s)
    ensures Shows(DocumentPut(d, BACKSPACE, attr), PutChar(s, BACKSPACE, attr))
  {
    var r := PutChar(s, BACKSPACE, attr);
    var e := DocumentPut(d, BACKSPACE, attr);
    assert CursorIndex(r) == e.pos - Top(d);
    assert r.page[..CELLS] == e.cells[Top(d)..];
  }

  /** One character: the screen keeps showing the document, and no row that has scrolled
      off ever changes. */
  lemma PutCharShows(d: Document, s: Screen, c: Byte, attr: Byte)
    requires Shows(d, s)
    ensures var e := DocumentPut(d, c, attr);
            Shows(e, PutChar(s, c, attr)) && |d.cells| <= |e.cells| &&
            e.cells[..Top(d)] == d.cells[..Top(d)]
  {
    if IsNewLine(c) {
      NewLineShows(d, s, c, attr);
    } else if c == BACKSPACE {
      BackspaceShows(d, s, attr);
    } else {
      PlaceShows(d, s, c, attr);
    }
  }

  function DocumentPutAll(d: Document, text: seq<Byte>, attr: Byte): (r: Document)
    requires DocumentOk(d)
    ensures DocumentOk(r)
    decreases |text|
  {
    if text == [] then d else DocumentPutAll(DocumentPut(d, text[0], attr), text[1..], attr)
  }

  /** Every character stream: the page is the window on the document, and the rows above the
      first window are a stable prefix of the final document. */
  lemma {:induction false} StreamShowsDocument(d: Document, s: Screen, text: seq<Byte>, attr: Byte)
    requires Shows(d, s)
    ensures var e := DocumentPutAll(d, text, attr);
            Shows(e, PutAll(s, text, attr)) && |d.cells| <= |e.cells| &&
            e.cells[..Top(d)] == d.cells[..Top(d)]
    decreases |text|
  {
    if text != [] {
      PutCharShows(d, s, text[0], attr);
      var d1 := DocumentPut(d, text[0], attr);
      StreamShowsDocument(d1, PutChar(s, text[0], attr), text[1..], attr);
      var e := DocumentPutAll(d, text, attr);
      assert e.cells[..Top(d)] == e.cells[..Top(d1)][..Top(d)];
      assert d1.cells[..Top(d)] == d1.cells[..Top(d1)][..Top(d)];
    }
  }

  /** A printable character and then a backspace come back to the same document position,
      with that cell blank and every other old cell as it was - even across a line wrap that
      scrolled the page in between. */
  lemma BackspaceUndoesCharacter(d: Document, s: Screen, c: Byte, attr: Byte)
    requires Shows(d, s)
    requires !IsNewLine(c) && c != BACKSPACE
    ensures var e := DocumentPut(DocumentPut(d, c, attr), BACKSPACE, attr);
            && Shows(e, PutChar(PutChar(s, c, attr), BACKSPACE, attr))
            && e.pos == d.pos
            && e.cells[..|d.cells|] == d.cells[d.pos := Blank(attr)]
  {
    PutCharShows(d, s, c, attr);
    var d1 := DocumentPut(d, c, attr);
    PutCharShows(d1, PutChar(s, c, attr), BACKSPACE, attr);
    assert d1.pos != Top(d1);
  }

  lemma {:induction false} DocumentAppend(d: Document, a: seq<Byte>, b: seq<Byte>, attr: Byte)
    requires DocumentOk(d)
    ensures DocumentPutAll(d, a + b, attr) == DocumentPutAll(DocumentPutAll(d, a, attr), b, attr)
    decreases |a|
  {
    if a == [] {
      assert a + b == b;
    } else {
      assert (a + b)[1..] == a[1..] + b;
      DocumentAppend(DocumentPut(d, a[0], attr), a[1..], b, attr);
    }
  }

  /** A cleared screen with a text at its start: blanks elsewhere, and the position behind the text. */
  function TextThenBlanks(text: seq<Byte>, attr: Byte): (d: Document)
    requires |text| < CELLS
    ensures DocumentOk(d)
  {
    Document(seq(CELLS, i requires 0 <= i => if i < |text| then Cell(text[i], attr) else Cell(32, attr)), |text|)
  }

  /** Printable text on a cleared screen. */
  lemma {:induction false} PrintedOnBlanks(text: seq<Byte>, more: seq<Byte>, attr: Byte)
    requires |text| + |more| < CELLS && forall i :: 0 <= i < |more| ==> more[i] >= 32
    ensures DocumentPutAll(TextThenBlanks(text, attr), more, attr) == TextThenBlanks(text + more, attr)
    decreases |more|
  {
    if more == [] {
      assert text + more == text;
    } else {
      var d := TextThenBlanks(text, attr);
      assert DocumentPut(d, more[0], attr).cells == TextThenBlanks(text + [more[0]], attr).cells;
      PrintedOnBlanks(text + [more[0]], more[1..], attr);
      assert text + [more[0]] + more[1..] == text + more;
    }
  }

  /** The position is at the start of a row, and everything from there on is blank. */
  ghost predicate AtBlankRow(d: Document, attr: Byte) {
    && DocumentOk(d) && d.pos % 80 == 0
    && forall i :: d.pos <= i < |d.cells| ==> d.cells[i] == Cell(32, attr)
  }

  /** A row of 80 cells that starts with a line and is blank behind it. */
  function Row(line: seq<Byte>, attr: Byte): (r: seq<Cell>)
    ensures |r| == 80
  {
    seq(80, i requires 0 <= i => if i < |line| then Cell(line[i], attr) else Cell(32, attr))
  }

  predicate FitsRow(line: seq<Byte>) {
    |line| < 80 && forall i :: 0 <= i < |line| ==> line[i] >= 32
  }

  /** A line, as far as it is printed: the document from the row on. */
  ghost predicate RowBegun(d: Document, e: Document, line: seq<Byte>, attr: Byte) {
    && DocumentOk(d) && DocumentOk(e) && |line| < 80 && |e.cells| == |d.cells| && e.pos == d.pos + |line|
    && d.pos + 80 <= |d.cells| && e.cells == d.cells[..d.pos] + Row(line, attr) + d.cells[d.pos + 80..]
  }

  lemma {:induction false} RowPrinted(d: Document, e: Document, line: seq<Byte>, more: seq<Byte>, attr: Byte)
    requires AtBlankRow(d, attr) && RowBegun(d, e, line, attr) && FitsRow(line + more)
    ensures RowBegun(d, DocumentPutAll(e, more, attr), line + more, attr)
    decreases |more|
  {
    if more == [] {
      assert line + more == line;
    } else {
      var c := more[0];
      assert (line + more)[|line|] == c;
      assert line + [c] + more[1..] == line + more;
      assert DocumentPut(e, c, attr).cells == d.cells[..d.pos] + Row(line + [c], attr) + d.cells[d.pos + 80..];
      RowPrinted(d, DocumentPut(e, c, attr), line + [c], more[1..], attr);
    }
  }

  /** A printable line of less than 80 characters and a newline fill one row; what is above does not
      change, and the next row is blank. */
  lemma LineFillsRow(d: Document, line: seq<Byte>, attr: Byte)
    requires AtBlankRow(d, attr) && FitsRow(line)
    ensures var e := DocumentPutAll(d, line + [10], attr);
            && AtBlankRow(e, attr) && e.pos == d.pos + 80 <= |e.cells|
            && e.cells[..d.pos] == d.cells[..d.pos] && e.cells[d.pos..e.pos] == Row(line, attr)
  {
    assert d.pos + 80 <= |d.cells|;
    assert d.cells == d.cells[..d.pos] + Row([], attr) + d.cells[d.pos + 80..];
    assert [] + line == line;
    RowPrinted(d, d, [], line, attr);
    DocumentAppend(d, line, [10], attr);
    var m := DocumentPutAll(d, line, attr);
    assert DocumentPutAll(m, [10], attr) == DocumentPut(m, 10, attr) by {
      assert [10 as Byte][1..] == [];
    }
    NextRow(d, m, line, attr);
  }

  lemma NextRow(d: Document, m: Document, line: seq<Byte>, attr: Byte)
    requires AtBlankRow(d, attr) && RowBegun(d, m, line, attr)
    ensures var e := DocumentPut(m, 10, attr);
            && AtBlankRow(e, attr) && e.pos == d.pos + 80 <= |e.cells|
            && e.cells[..d.pos] == d.cells[..d.pos] && e.cells[d.pos..e.pos] == Row(line, attr)
  {
    assert m.pos / COLS == d.pos / COLS;
  }

  /** Lines one below the other, as rows. */
  function Rows(lines: seq<seq<Byte>>, attr: Byte): (r: seq<Cell>)
    ensures |r| == 80 * |lines|
  {
    if lines == [] then [] else Row(lines[0], attr) + Rows(lines[1..], attr)
  }

  function EachEnded(lines: seq<seq<Byte>>): seq<Byte> {
    if lines == [] then [] else lines[0] + [10] + EachEnded(lines[1..])
  }

  /** Printable lines of less than 80 characters, each ended by a newline, stand in the document as rows one
      below the other, scrolling or not, and nothing above them changes. */
  lemma {:induction false} LinesFillRows(d: Document, lines: seq<seq<Byte>>, attr: Byte)
    requires AtBlankRow(d, attr) && forall i :: 0 <= i < |lines| ==> FitsRow(lines[i])
    ensures var e := DocumentPutAll(d, EachEnded(lines), attr);
            && AtBlankRow(e, attr) && e.pos == d.pos + 80 * |lines| <= |e.cells|
            && e.cells[..d.pos] == d.cells[..d.pos] && e.cells[d.pos..e.pos] == Rows(lines, attr)
    decreases |lines|
  {
    if lines != [] {
      var m := DocumentPutAll(d, lines[0] + [10], attr);
      LineFillsRow(d, lines[0], attr);
      LinesFillRows(m, lines[1..], attr);
      DocumentAppend(d, lines[0] + [10], EachEnded(lines[1..]), attr);
      var e := DocumentPutAll(d, EachEnded(lines), attr);
      assert e.cells[..d.pos] == e.cells[..m.pos][..d.pos];
      assert e.cells[d.pos..e.pos] == e.cells[..m.pos][d.pos..] + e.cells[m.pos..e.pos];
    }
  }

  // ---------------------------------------------------------------------------------------
  // The code: a page changed in place
  // ---------------------------------------------------------------------------------------

  /** Printing up to a NUL, one character at a time. */
  lemma TextStep(c: Screen, s: seq<Byte>, i: nat, attr: Byte)
    requires OnScreen(c) && i < |s| && s[i] != 0
    ensures UpToNul(s[i..]) == [s[i]] + UpToNul(s[i + 1..])
    ensures PutAll(c, UpToNul(s[i..]), attr) == PutAll(PutChar(c, s[i], attr), UpToNul(s[i + 1..]), attr)
  {
    assert s[i..][1..] == s[i + 1..];
    assert UpToNul(s[i..])[1..] == UpToNul(s[i + 1..]);
  }

  class Display {
    const page: array<Cell>
    var x: int
    var y: int
    var attr: Byte

    ghost predicate Valid()
      reads this, page
    {
      OnScreen(Contents())
    }

    ghost function Contents(): Screen
      reads this, page
    {
      Screen(page[..], x, y)
    }

    constructor (page: array<Cell>, x: int, y: int, attr: Byte)
      requires page.Length == PAGE_CELLS && 0 <= x < COLS && 0 <= y < ROWS
      ensures Valid() && this.page == page && this.x == x && this.y == y && this.attr == attr
    {
      this.page := page;
      this.x, this.y := x, y;
      this.attr := attr;
    }

    /** shift_screen_up: a forward cell-by-cell copy, then the last row is cleared. */
    method ShiftScreenUp()
      requires page.Length == PAGE_CELLS
      modifies this`y, page
      ensures page[..] == ScrolledPage(old(page[..]), attr) && y == old(y) - 1
    {
      ghost var was := page[..];
      for i := 0 to (ROWS - 1) * COLS
        invariant y == old(y) && page[..i] == was[COLS..COLS + i]
        invariant page[i..] == was[i..]
      {
        assert page[i..][COLS] == was[i + COLS];
        page[i] := page[i + COLS];
        assert page[i + 1..] == was[i..][1..];
      }
      for i := 0 to COLS
        invariant y == old(y) && page[..CELLS - COLS] == was[COLS..CELLS]
        invariant forall k :: CELLS - COLS <= k < CELLS - COLS + i ==> page[k] == Blank(attr)
        invariant page[CELLS..] == was[CELLS..]
      {
        page[i + (ROWS - 1) * COLS] := Cell(SPACE, attr);
      }
      assert page[CELLS - COLS..CELLS] == BlankRow(attr);
      assert page[..] == page[..CELLS - COLS] + page[CELLS - COLS..CELLS] + page[CELLS..];
      y := y - 1;
    }

    /** putc_kbd and putc_screen (they differ only in moving the hardware cursor). */
    method PutC(c: Byte)
      requires Valid()
      modifies this`x, this`y, page
      ensures Valid() && Contents() == PutChar(old(Contents()), c, attr)
    {
      if c == NEW_LINE || c == CARRIAGE_RETURN {
        y := y + 1;
        x := 0;
      } else if c == BACKSPACE {
        x := x - 1;
        if x < 0 {
          x := COLS - 1;
          y := y - 1;
          if y < 0 {
            y := 0;
          }
        }
        page[COLS * y + x] := Cell(SPACE, attr);
      } else {
        page[COLS * y + x] := Cell(c, attr);
        x := x + 1;
        y := y + x / COLS;
        x := x % COLS;
      }
      assert Contents() == Placed(old(Contents()), c, attr);
      if y >= ROWS {
        ShiftScreenUp();
      }
    }

    /** put_t: prints until a NUL or the given size; returns the number printed. */
    method PutText(s: seq<Byte>) returns (index: int)
      requires Valid()
      modifies this`x, this`y, page
      ensures Valid() && Contents() == PutAll(old(Contents()), UpToNul(s), attr)
      ensures index == |UpToNul(s)|
    {
      index := 0;
      ghost var all := UpToNul(s);
      ghost var goal := PutAll(Contents(), all, attr);
      assert s[0..] == s;
      while index < |s| && s[index] != 0
        invariant 0 <= index <= |s| && Valid()
        invariant index + |UpToNul(s[index..])| == |all|
        invariant PutAll(Contents(), UpToNul(s[index..]), attr) == goal
      {
        TextStep(Contents(), s, index, attr);
        PutC(s[index]);
        index := index + 1;
      }
      assert UpToNul(s[index..]) == [];
    }
  }
}
