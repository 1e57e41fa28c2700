/** The echo of the keyboard driver, tied to the line it edits: what a user sees of a line since the
    last flush is that line. */
module EchoedLine {
  import opened Bytes
  import opened TextScreen
  import opened Keyboard

  /** What the keys that reach a terminal echoed after the first from events. */
  ghost function Echoed(tb: Tables, h: seq<Event>, from: nat, t: nat): seq<Byte>
    requires |tb.codes| == 256 && |tb.shifted| == 256 && t < TERMINALS
    decreases |h|
  {
    if |h| <= from then []
    else
      var before := Echoed(tb, h[..|h| - 1], from, t);
      if !Reaches(tb, h, t) then before
      else
        var line := After(tb, h[..|h| - 1]).lines[t];
        before + Echo(tb, ModsOf(Raws(h)), tb.codes[h[|h| - 1].raw], line)
  }

  /** e is d with a text typed at its position: the text is there, the position behind it, nothing
      before it has changed, and what is behind it is as it was or blank. */
  ghost predicate TypedAt(d: Document, e: Document, text: seq<Byte>, attr: Byte) {
    && DocumentOk(d) && DocumentOk(e) && |d.cells| <= |e.cells|
    && e.pos == d.pos + |text|
    && e.cells[..d.pos] == d.cells[..d.pos]
    && (forall i :: 0 <= i < |text| ==> e.cells[d.pos + i] == Cell(text[i], attr))
    && (forall i :: e.pos <= i < |e.cells| ==> Untyped(d, e, i, attr))
    && |e.cells| <= Limit(d)
  }

  ghost predicate Untyped(d: Document, e: Document, i: int, attr: Byte)
    requires 0 <= i < |e.cells|
  {
    e.cells[i] == Blank(attr) || (i < |d.cells| && e.cells[i] == d.cells[i])
  }

  /** A line of at most 126 characters lets the document grow by at most this, so that its start
      never scrolls off the window. */
  function Limit(d: Document): int {
    if |d.cells| < d.pos + BUFFER_SIZE + COLS then d.pos + BUFFER_SIZE + COLS else |d.cells|
  }

  lemma CharTyped(d: Document, e: Document, text: seq<Byte>, c: Byte, attr: Byte)
    requires TypedAt(d, e, text, attr) && |text| < BUFFER_SIZE - PADDING && c >= FIRST_PRINTABLE
    ensures TypedAt(d, DocumentPut(e, c, attr), text + [c], attr)
  {
    var r := DocumentPut(e, c, attr);
    assert r.cells[..d.pos] == e.cells[..d.pos];
    forall i | r.pos <= i < |r.cells|
      ensures Untyped(d, r, i, attr)
    {
      if i < |e.cells| {
        assert Untyped(d, e, i, attr);
      }
    }
  }

  lemma CharErased(d: Document, e: Document, text: seq<Byte>, attr: Byte)
    requires TypedAt(d, e, text, attr) && text != []
    ensures TypedAt(d, DocumentPut(e, BACKSPACE_CHAR, attr), Erase(text), attr)
  {
    var r := DocumentPut(e, BACKSPACE_CHAR, attr);
    assert Top(e) <= d.pos < e.pos;
    assert r.cells[..d.pos] == e.cells[..d.pos];
    forall i | r.pos <= i < |r.cells|
      ensures Untyped(d, r, i, attr)
    {
      if i > r.pos {
        assert Untyped(d, e, i, attr);
      }
    }
  }

  lemma PutOneOrNone(d: Document, c: Byte, attr: Byte)
    requires DocumentOk(d)
    ensures DocumentPutAll(d, [], attr) == d && DocumentPutAll(d, [c], attr) == DocumentPut(d, c, attr)
  {
    assert [c][1..] == [];
  }

  /** One key that edits a line: its echo does to the document what it does to the line. */
  lemma KeyEchoes(tb: Tables, m: Mods, c: Code, l: Line, d: Document, e: Document, attr: Byte)
    requires |tb.shifted| == 256 && TypedAt(d, e, l.text, attr) && PlainText(l.text)
    requires TypedChar(tb, m, c).Some? ==> FIRST_PRINTABLE <= TypedChar(tb, m, c).value < 256
    requires c.result != NEW_LINE_KEY && (m.backspace ==> TypedChar(tb, m, c).None?)
    ensures TypedAt(d, DocumentPutAll(e, Echo(tb, m, c, l), attr), KeyOnLine(tb, m, c, l).text, attr)
  {
    var ch := TypedChar(tb, m, c);
    PutOneOrNone(e, if ch.Some? then ch.value else 0, attr);
    PutOneOrNone(e, BACKSPACE_CHAR, attr);
    if m.backspace {
      if l.text != [] {
        CharErased(d, e, l.text, attr);
        assert [BACKSPACE_CHAR] + [] == [BACKSPACE_CHAR];
      }
    } else if ch.Some? && |l.text| < BUFFER_SIZE - PADDING {
      CharTyped(d, e, l.text, ch.value, attr);
    }
  }

  /** From a flush on, with no other key pressed while Backspace is held: what was echoed leaves
      exactly the edited line in the document. */
  lemma {:induction false} EchoShowsLine(tb: Tables, h: seq<Event>, from: nat, t: nat, d: Document, attr: Byte)
    requires TablesOk(tb) && t < TERMINALS && from <= |h| && DocumentOk(d)
    requires After(tb, h[..from]).lines[t].text == [] && !After(tb, h[..from]).lines[t].allowed
    requires AllPlain(tb, h, from, t)
    ensures TypedAt(d, DocumentPutAll(d, Echoed(tb, h, from, t), attr), Edited(tb, h, from, t), attr)
    decreases |h|
  {
    if |h| > from {
      var before := h[..|h| - 1];
      assert before[..from] == h[..from];
      PlainPrefix(tb, h, from, t);
      EchoShowsLine(tb, before, from, t, d, attr);
      if Reaches(tb, h, t) {
        BufferIsEditedLine(tb, before, from, t);
        LastKeyEchoes(tb, h, from, t, d, attr);
      }
    }
  }

  lemma LastKeyEchoes(tb: Tables, h: seq<Event>, from: nat, t: nat, d: Document, attr: Byte)
    requires TablesOk(tb) && t < TERMINALS && from < |h| && DocumentOk(d)
    requires Reaches(tb, h, t) && Plain(tb, h, t)
    requires var line := After(tb, h[..|h| - 1]).lines[t];
             line.text == Edited(tb, h[..|h| - 1], from, t) && PlainText(line.text)
    requires TypedAt(d, DocumentPutAll(d, Echoed(tb, h[..|h| - 1], from, t), attr),
                     Edited(tb, h[..|h| - 1], from, t), attr)
    ensures TypedAt(d, DocumentPutAll(d, Echoed(tb, h, from, t), attr), Edited(tb, h, from, t), attr)
  {
    var before, raw := h[..|h| - 1], h[|h| - 1].raw;
    var line, m, c := After(tb, before).lines[t], ModsOf(Raws(h)), tb.codes[raw];
    var echoed := Echoed(tb, before, from, t);
    LetterCase(tb, m, c);
    GlyphIsText(tb, c, m.caps, m.shift || m.rShift);
    if raw == BACKSPACE_PRESS {
      BackspaceHeld(h);
    }
    assert CodeOk(c, tb.shifted);
    KeyEchoes(tb, m, c, line, d, DocumentPutAll(d, echoed, attr), attr);
    DocumentAppend(d, echoed, Echo(tb, m, c, line), attr);
  }
}
