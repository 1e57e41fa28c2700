/** The keyboard driver's line discipline (keyboard.c): scancodes drive the modifier state and the
    visible terminal's 128-byte stdin buffer, which a waiting read copies and flushes. */
module Keyboard {
  import opened Bytes

  const BUFFER_SIZE := 128
  const PADDING := 2
  const TERMINALS := 3
  const NEW_LINE_KEY: Byte := 10
  const ASCII_SHIFT := 32
  const FIRST_PRINTABLE := 32

  const BACKSPACE_CHAR: Byte := 8

  const DELETE_SCAN_CODE: Byte := 0x53
  const BACKSPACE_PRESS: Byte := 0x0E
  const BACKSPACE_RELEASE: Byte := 0x8E
  const CAPS_LOCK_PRESS: Byte := 0x3A
  const SHIFT_PRESS: Byte := 0x2A
  const SHIFT_RELEASE: Byte := 0xAA
  const R_SHIFT_PRESS: Byte := 0x36
  const R_SHIFT_RELEASE: Byte := 0xB6
  const CONTROL_PRESS: Byte := 0x1D
  const CONTROL_RELEASE: Byte := 0x9D
  const ALT_PRESS: Byte := 0x38
  const ALT_RELEASE: Byte := 0xB8

  /** An entry of the scancode table, its flag bits spelled out. */
  datatype Code = Code(result: Byte, make: bool, printable: bool, letter: bool)

  /** The scancode table and the table of shifted non-letters. */
  datatype Tables = Tables(codes: seq<Code>, shifted: seq<Byte>)

  /** What the driver relies on in its tables. It never looks at more than the break bit of an entry
      for a release. */
  ghost predicate TablesOk(tb: Tables) {
    && |tb.codes| == 256 && |tb.shifted| == 256
    && (forall r :: 0 <= r < 256 && tb.codes[r].make ==> CodeOk(tb.codes[r], tb.shifted))
    && tb.codes[BACKSPACE_PRESS].make && !tb.codes[BACKSPACE_PRESS].printable
    && (forall r :: 0 <= r < 256 ==> tb.shifted[r] == 0 || tb.shifted[r] >= FIRST_PRINTABLE)
  }

  ghost predicate CodeOk(c: Code, shifted: seq<Byte>)
    requires |shifted| == 256
  {
    && (c.letter ==> c.printable && 'a' as int <= c.result <= 'z' as int && shifted[c.result] == 0)
    && (c.printable ==> c.result >= FIRST_PRINTABLE || c.result == NEW_LINE_KEY)
  }

  datatype Mods = Mods(shift: bool, rShift: bool, control: bool, caps: bool, backspace: bool, alt: bool)

  /** One terminal's input: the bytes before stdin_index, and the two read flags. */
  datatype Line = Line(text: seq<Byte>, allowed: bool, waiting: bool)

  datatype Input = Input(mods: Mods, visible: nat, lines: seq<Line>)

  /** A scancode (shown is the visible terminal the Alt branch leaves), a read that starts
      waiting, and a read that completes. */
  datatype Event = Key(raw: Byte, shown: nat) | Await(t: nat) | Take(t: nat)

  // ---------------------------------------------------------------------------------------
  // The driver's steps
  // ---------------------------------------------------------------------------------------

  function UpdateMods(m: Mods, raw: Byte): Mods {
    if raw == BACKSPACE_PRESS then m.(backspace := true)
    else if raw == BACKSPACE_RELEASE then m.(backspace := false)
    else if raw == CAPS_LOCK_PRESS then m.(caps := !m.caps)
    else if raw == SHIFT_PRESS then m.(shift := true)
    else if raw == SHIFT_RELEASE then m.(shift := false)
    else if raw == R_SHIFT_PRESS then m.(rShift := true)
    else if raw == R_SHIFT_RELEASE then m.(rShift := false)
    else if raw == CONTROL_PRESS then m.(control := true)
    else if raw == CONTROL_RELEASE then m.(control := false)
    else if raw == ALT_PRESS then m.(alt := true)
    else if raw == ALT_RELEASE then m.(alt := false)
    else m
  }

  /** The character a key stores, by the branches on caps lock and shift. */
  function TypedChar(tb: Tables, m: Mods, c: Code): Option<int>
    requires |tb.shifted| == 256
  {
    if m.caps && !m.shift && !m.rShift then
      if c.letter then Some(c.result - ASCII_SHIFT)
      else if c.printable then Some(c.result)
      else None
    else if m.shift || m.rShift then
      if c.letter && !m.caps then Some(c.result - ASCII_SHIFT)
      else if c.printable then
        if tb.shifted[c.result] != 0 then Some(tb.shifted[c.result]) else Some(c.result)
      else None
    else if c.printable then Some(c.result)
    else None
  }

  lemma TypedCharIsByte(tb: Tables, m: Mods, c: Code)
    requires |tb.shifted| == 256 && CodeOk(c, tb.shifted)
    ensures TypedChar(tb, m, c).Some? ==> 0 < TypedChar(tb, m, c).value < 256
  {
  }

  function Erase(text: seq<Byte>): seq<Byte> {
    if text == [] then [] else text[..|text| - 1]
  }

  /** Storing a character, if there is one and there is room for it, a newline and a NUL. */
  function Append(text: seq<Byte>, ch: Option<int>): seq<Byte> {
    if |text| < BUFFER_SIZE - PADDING && ch.Some? && 0 <= ch.value < 256 then text + [ch.value] else text
  }

  /** The echo of storing a character. */
  function StoreEcho(text: seq<Byte>, ch: Option<int>): seq<Byte> {
    if |text| < BUFFER_SIZE - PADDING && ch.Some? && 0 <= ch.value < 256 then [ch.value] else []
  }

  /** Enter: hands the line to a waiting read, or drops it. */
  function Entered(l: Line): Line {
    var text := l.text + [NEW_LINE_KEY];
    if !l.waiting then Line([], false, l.waiting)
    else Line(if text[0] == NEW_LINE_KEY && |text| > 1 then text[1 := 0] else text, true, l.waiting)
  }

  /** A make scancode with neither Alt nor Control down. With Backspace down the erase is followed
      by the ordinary handling of the key. */
  function KeyOnLine(tb: Tables, m: Mods, c: Code, l: Line): Line
    requires |tb.shifted| == 256
  {
    if m.backspace then l.(text := Append(Erase(l.text), TypedChar(tb, m, c)))
    else if c.result == NEW_LINE_KEY && |l.text| < BUFFER_SIZE - 1 then Entered(l)
    else l.(text := Append(l.text, TypedChar(tb, m, c)))
  }

  /** The characters such a key sends to putc_kbd. */
  function Echo(tb: Tables, m: Mods, c: Code, l: Line): seq<Byte>
    requires |tb.shifted| == 256
  {
    if m.backspace then
      (if l.text != [] then [BACKSPACE_CHAR] else []) + StoreEcho(Erase(l.text), TypedChar(tb, m, c))
    else if c.result == NEW_LINE_KEY && |l.text| < BUFFER_SIZE - 1 then [NEW_LINE_KEY]
    else StoreEcho(l.text, TypedChar(tb, m, c))
  }

  predicate Shaped(tb: Tables, s: Input) {
    |tb.codes| == 256 && |tb.shifted| == 256 && |s.lines| == TERMINALS && s.visible < TERMINALS
  }

  /** A read completes only when Enter has allowed it. */
  predicate Enabled(s: Input, e: Event) {
    match e
    case Key(_, shown) => shown < TERMINALS
    case Await(t) => t < TERMINALS
    case Take(t) => t < |s.lines| && s.lines[t].allowed
  }

  /** A make scancode, once the modifiers are up to date. */
  function Pressed(tb: Tables, s: Input, c: Code, shown: nat): (r: Input)
    requires Shaped(tb, s) && shown < TERMINALS
    ensures Shaped(tb, r)
  {
    if s.mods.alt then s.(visible := shown)
    else if s.mods.control then s
    else s.(lines := s.lines[s.visible := KeyOnLine(tb, s.mods, c, s.lines[s.visible])])
  }

  /** One event. A read that is not allowed yet keeps waiting. */
  function Step(tb: Tables, s: Input, e: Event): (r: Input)
    requires Shaped(tb, s)
    ensures Shaped(tb, r)
  {
    if !Enabled(s, e) then s else
    match e
    case Key(raw, shown) =>
      if raw == DELETE_SCAN_CODE then s else
      var r := s.(mods := UpdateMods(s.mods, raw));
      if tb.codes[raw].make then Pressed(tb, r, tb.codes[raw], shown) else r
    case Await(t) =>
      s.(lines := s.lines[t := s.lines[t].(waiting := true)])
    case Take(t) =>
      s.(lines := s.lines[t := Line([], false, false)])
  }

  /** What a completed read copies. */
  function Taken(l: Line): seq<Byte> {
    UpToNul(l.text)
  }

  const BOOT := Input(Mods(false, false, false, false, false, false), 0,
                      [Line([], false, false), Line([], false, false), Line([], false, false)])

  /** The state after a history of events since boot. */
  function After(tb: Tables, h: seq<Event>): (s: Input)
    requires |tb.codes| == 256 && |tb.shifted| == 256
    ensures Shaped(tb, s)
    decreases |h|
  {
    if h == [] then BOOT else Step(tb, After(tb, h[..|h| - 1]), h[|h| - 1])
  }

  // ---------------------------------------------------------------------------------------
  // The user's view
  // ---------------------------------------------------------------------------------------

  predicate IsKey(e: Event) {
    e.Key? && e.shown < TERMINALS
  }

  /** The scancodes of a history. */
  function Raws(h: seq<Event>): seq<Byte>
    decreases |h|
  {
    if h == [] then []
    else if IsKey(h[|h| - 1]) then Raws(h[..|h| - 1]) + [h[|h| - 1].raw]
    else Raws(h[..|h| - 1])
  }

  /** A key is held if it was pressed and not released since. */
  ghost predicate Held(raws: seq<Byte>, press: Byte, release: Byte) {
    exists i :: 0 <= i < |raws| && raws[i] == press && release !in raws[i..]
  }

  function Presses(raws: seq<Byte>, key: Byte): nat {
    if raws == [] then 0 else Presses(raws[..|raws| - 1], key) + if raws[|raws| - 1] == key then 1 else 0
  }

  ghost predicate ShiftHeld(raws: seq<Byte>) {
    Held(raws, SHIFT_PRESS, SHIFT_RELEASE) || Held(raws, R_SHIFT_PRESS, R_SHIFT_RELEASE)
  }

  ghost function ModsOf(raws: seq<Byte>): Mods {
    Mods(Held(raws, SHIFT_PRESS, SHIFT_RELEASE), Held(raws, R_SHIFT_PRESS, R_SHIFT_RELEASE),
         Held(raws, CONTROL_PRESS, CONTROL_RELEASE), Presses(raws, CAPS_LOCK_PRESS) % 2 == 1,
         Held(raws, BACKSPACE_PRESS, BACKSPACE_RELEASE), Held(raws, ALT_PRESS, ALT_RELEASE))
  }

  lemma HeldStep(raws: seq<Byte>, raw: Byte, press: Byte, release: Byte)
    requires press != release
    ensures Held(raws + [raw], press, release) ==
            if raw == press then true else if raw == release then false else Held(raws, press, release)
  {
    var all := raws + [raw];
    assert all[|raws|] == raw && all[|raws|..] == [raw];
    if Held(raws, press, release) && raw != press && raw != release {
      var i :| 0 <= i < |raws| && raws[i] == press && release !in raws[i..];
      assert all[i] == press && all[i..] == raws[i..] + [raw];
    }
    if Held(all, press, release) && raw != press {
      var i :| 0 <= i < |all| && all[i] == press && release !in all[i..];
      assert all[i..] == raws[i..] + [raw] && raws[i] == press;
    }
  }

  lemma ModsStep(raws: seq<Byte>, raw: Byte)
    ensures ModsOf(raws + [raw]) == UpdateMods(ModsOf(raws), raw)
  {
    HeldStep(raws, raw, SHIFT_PRESS, SHIFT_RELEASE);
    HeldStep(raws, raw, R_SHIFT_PRESS, R_SHIFT_RELEASE);
    HeldStep(raws, raw, CONTROL_PRESS, CONTROL_RELEASE);
    HeldStep(raws, raw, BACKSPACE_PRESS, BACKSPACE_RELEASE);
    HeldStep(raws, raw, ALT_PRESS, ALT_RELEASE);
    assert (raws + [raw])[..|raws|] == raws;
  }

  lemma StepMods(tb: Tables, s: Input, e: Event)
    requires Shaped(tb, s)
    ensures Step(tb, s, e).mods == if IsKey(e) then UpdateMods(s.mods, e.raw) else s.mods
  {
  }

  /** The modifier state is what the presses and releases say: caps lock by the parity of its
      presses, every other modifier by whether it is held. */
  lemma {:induction false} ModifiersFollowKeys(tb: Tables, h: seq<Event>)
    requires |tb.codes| == 256 && |tb.shifted| == 256
    ensures After(tb, h).mods == ModsOf(Raws(h))
    decreases |h|
  {
    if h != [] {
      var before, e := h[..|h| - 1], h[|h| - 1];
      ModifiersFollowKeys(tb, before);
      StepMods(tb, After(tb, before), e);
      if IsKey(e) {
        ModsStep(Raws(before), e.raw);
      }
    }
  }

  /** The character a key stands for: a letter is upper case when caps lock (by parity) and shift
      differ, another printable key is shifted where the table says so. */
  function Glyph(tb: Tables, c: Code, caps: bool, shift: bool): Option<int>
    requires |tb.shifted| == 256
  {
    if c.letter then Some(if caps != shift then c.result - ASCII_SHIFT else c.result)
    else if !c.printable then None
    else if shift && tb.shifted[c.result] != 0 then Some(tb.shifted[c.result])
    else Some(c.result)
  }

  lemma LetterCase(tb: Tables, m: Mods, c: Code)
    requires |tb.shifted| == 256 && CodeOk(c, tb.shifted)
    ensures TypedChar(tb, m, c) == Glyph(tb, c, m.caps, m.shift || m.rShift)
  {
  }

  /** The last event of a history is a key that acts on a terminal's line. */
  ghost predicate Reaches(tb: Tables, h: seq<Event>, t: nat)
    requires |tb.codes| == 256
  {
    && h != [] && IsKey(h[|h| - 1]) && h[|h| - 1].raw != DELETE_SCAN_CODE && tb.codes[h[|h| - 1].raw].make
    && !Held(Raws(h), ALT_PRESS, ALT_RELEASE) && !Held(Raws(h), CONTROL_PRESS, CONTROL_RELEASE)
    && Shown(tb, h[..|h| - 1]) == t
  }

  /** The visible terminal: where the last key pressed with Alt held led. */
  ghost function Shown(tb: Tables, h: seq<Event>): nat
    requires |tb.codes| == 256
    decreases |h|
  {
    if h == [] then 0
    else
      var e := h[|h| - 1];
      if IsKey(e) && e.raw != DELETE_SCAN_CODE && tb.codes[e.raw].make && Held(Raws(h), ALT_PRESS, ALT_RELEASE)
      then e.shown
      else Shown(tb, h[..|h| - 1])
  }

  lemma {:induction false} VisibleFollowsKeys(tb: Tables, h: seq<Event>)
    requires |tb.codes| == 256 && |tb.shifted| == 256
    ensures After(tb, h).visible == Shown(tb, h)
    decreases |h|
  {
    if h != [] {
      ModifiersFollowKeys(tb, h);
      ModifiersFollowKeys(tb, h[..|h| - 1]);
      VisibleFollowsKeys(tb, h[..|h| - 1]);
    }
  }

  /** The line a user edits: keys append their characters up to the cap, Backspace erases. */
  ghost function Edited(tb: Tables, h: seq<Event>, from: nat, t: nat): seq<Byte>
    requires |tb.codes| == 256 && |tb.shifted| == 256
    decreases |h|
  {
    if |h| <= from then []
    else
      var text := Edited(tb, h[..|h| - 1], from, t);
      if !Reaches(tb, h, t) then text
      else if h[|h| - 1].raw == BACKSPACE_PRESS then
        if text == [] then [] else text[..|text| - 1]
      else
        var caps := Presses(Raws(h), CAPS_LOCK_PRESS) % 2 == 1;
        var glyph := Glyph(tb, tb.codes[h[|h| - 1].raw], caps, ShiftHeld(Raws(h)));
        if glyph.Some? && 0 <= glyph.value < 256 && |text| < 126 then text + [glyph.value] else text
  }

  /** The last event does not end the line, and is no other key while Backspace is held. */
  ghost predicate Plain(tb: Tables, h: seq<Event>, t: nat)
    requires |tb.codes| == 256
  {
    Reaches(tb, h, t) ==>
      && tb.codes[h[|h| - 1].raw].result != NEW_LINE_KEY
      && (Held(Raws(h), BACKSPACE_PRESS, BACKSPACE_RELEASE) ==> h[|h| - 1].raw == BACKSPACE_PRESS)
  }

  /** No event after the first from ends the line or mixes keys with Backspace. */
  ghost predicate AllPlain(tb: Tables, h: seq<Event>, from: nat, t: nat)
    requires |tb.codes| == 256
  {
    forall n :: from < n <= |h| ==> Plain(tb, h[..n], t)
  }

  lemma PlainPrefix(tb: Tables, h: seq<Event>, from: nat, t: nat)
    requires |tb.codes| == 256 && AllPlain(tb, h, from, t) && from < |h|
    ensures AllPlain(tb, h[..|h| - 1], from, t) && Plain(tb, h, t)
  {
    var before := h[..|h| - 1];
    assert h[..|h|] == h;
    forall n | from < n <= |before|
      ensures Plain(tb, before[..n], t)
    {
      assert before[..n] == h[..n];
    }
  }

  /** No event after the first from reaches the line or takes it. */
  ghost predicate LeftAlone(tb: Tables, h: seq<Event>, from: nat, t: nat)
    requires |tb.codes| == 256
  {
    forall n :: from < n <= |h| ==> Elsewhere(tb, h[..n], t)
  }

  ghost predicate Elsewhere(tb: Tables, h: seq<Event>, t: nat)
    requires |tb.codes| == 256
  {
    h != [] && !Reaches(tb, h, t) && h[|h| - 1] != Take(t)
  }

  lemma LeftAlonePrefix(tb: Tables, h: seq<Event>, from: nat, t: nat)
    requires |tb.codes| == 256 && LeftAlone(tb, h, from, t) && from < |h|
    ensures LeftAlone(tb, h[..|h| - 1], from, t) && Elsewhere(tb, h, t)
  {
    var before := h[..|h| - 1];
    assert h[..|h|] == h;
    forall n | from < n <= |before|
      ensures Elsewhere(tb, before[..n], t)
    {
      assert before[..n] == h[..n];
    }
  }

  /** What one event does to a terminal's line, in terms of the modifiers and the visible terminal. */
  lemma StepLine(tb: Tables, s: Input, e: Event, t: nat)
    requires Shaped(tb, s) && t < TERMINALS
    ensures var m, now := Step(tb, s, e).mods, Step(tb, s, e).lines[t];
            if IsKey(e) && e.raw != DELETE_SCAN_CODE && tb.codes[e.raw].make && !m.alt && !m.control && s.visible == t
            then now == KeyOnLine(tb, m, tb.codes[e.raw], s.lines[t])
            else if e == Await(t) then now == s.lines[t].(waiting := true)
            else if e == Take(t) && s.lines[t].allowed then now == Line([], false, false)
            else now == s.lines[t]
  {
  }

  /** What a history's last event does to a terminal's line. */
  lemma LastEvent(tb: Tables, h: seq<Event>, t: nat)
    requires TablesOk(tb) && h != [] && t < TERMINALS
    ensures var was, now := After(tb, h[..|h| - 1]).lines[t], After(tb, h).lines[t];
            if Reaches(tb, h, t) then now == KeyOnLine(tb, ModsOf(Raws(h)), tb.codes[h[|h| - 1].raw], was)
            else if h[|h| - 1] == Await(t) then now == was.(waiting := true)
            else if h[|h| - 1] == Take(t) && was.allowed then now == Line([], false, false)
            else now == was
  {
    StepLine(tb, After(tb, h[..|h| - 1]), h[|h| - 1], t);
    ModifiersFollowKeys(tb, h);
    VisibleFollowsKeys(tb, h[..|h| - 1]);
  }

  lemma GlyphIsText(tb: Tables, c: Code, caps: bool, shift: bool)
    requires TablesOk(tb) && CodeOk(c, tb.shifted) && c.result != NEW_LINE_KEY
    ensures var g := Glyph(tb, c, caps, shift); g.Some? ==> FIRST_PRINTABLE <= g.value < 256
  {
  }

  ghost predicate PlainText(text: seq<Byte>) {
    |text| <= BUFFER_SIZE - PADDING && forall i :: 0 <= i < |text| ==> text[i] >= FIRST_PRINTABLE
  }

  lemma EditKeepsPlain(text: seq<Byte>, g: Option<int>)
    requires PlainText(text) && (g.Some? ==> g.value >= FIRST_PRINTABLE)
    ensures PlainText(Erase(text)) && PlainText(Append(text, g))
  {
  }

  /** The buffer holds the user's line. */
  lemma {:induction false} BufferIsEditedLine(tb: Tables, h: seq<Event>, from: nat, t: nat)
    requires TablesOk(tb) && t < TERMINALS && from <= |h|
    requires After(tb, h[..from]).lines[t].text == [] && !After(tb, h[..from]).lines[t].allowed
    requires AllPlain(tb, h, from, t)
    ensures After(tb, h).lines[t].text == Edited(tb, h, from, t) && !After(tb, h).lines[t].allowed
    ensures PlainText(Edited(tb, h, from, t))
    decreases |h|
  {
    assert h[..|h|] == h;
    if |h| > from {
      var before := h[..|h| - 1];
      assert before[..from] == h[..from];
      PlainPrefix(tb, h, from, t);
      BufferIsEditedLine(tb, before, from, t);
      LastEvent(tb, h, t);
      if Reaches(tb, h, t) {
        var c, m := tb.codes[h[|h| - 1].raw], ModsOf(Raws(h));
        LetterCase(tb, m, c);
        GlyphIsText(tb, c, m.caps, m.shift || m.rShift);
        EditKeepsPlain(Edited(tb, before, from, t), Glyph(tb, c, m.caps, m.shift || m.rShift));
        if h[|h| - 1].raw == BACKSPACE_PRESS {
          BackspaceHeld(h);
        }
      }
    }
  }

  lemma BackspaceHeld(h: seq<Event>)
    requires h != [] && IsKey(h[|h| - 1]) && h[|h| - 1].raw == BACKSPACE_PRESS
    ensures Held(Raws(h), BACKSPACE_PRESS, BACKSPACE_RELEASE)
  {
    HeldStep(Raws(h[..|h| - 1]), BACKSPACE_PRESS, BACKSPACE_PRESS, BACKSPACE_RELEASE);
  }

  /** A line that Enter released stays as it is while no key reaches its terminal. */
  lemma {:induction false} ReleasedLineWaits(tb: Tables, h: seq<Event>, from: nat, t: nat, line: Line)
    requires TablesOk(tb) && t < TERMINALS && from <= |h| && line.waiting
    requires After(tb, h[..from]).lines[t] == line
    requires LeftAlone(tb, h, from, t)
    ensures After(tb, h).lines[t] == line
    decreases |h|
  {
    assert h[..|h|] == h;
    if |h| > from {
      var before := h[..|h| - 1];
      assert before[..from] == h[..from];
      LeftAlonePrefix(tb, h, from, t);
      ReleasedLineWaits(tb, before, from, t, line);
      LastEvent(tb, h, t);
    }
  }

  /** After a flush at from, the history ends in an Enter that a read awaits, with no other key
      pressed while Backspace was held. */
  ghost predicate LineEntered(tb: Tables, h: seq<Event>, from: nat, t: nat)
    requires |tb.codes| == 256 && |tb.shifted| == 256 && t < TERMINALS
  {
    && from < |h| && Flushed(After(tb, h[..from]), t)
    && AllPlain(tb, h[..|h| - 1], from, t) && After(tb, h[..|h| - 1]).lines[t].waiting
    && Reaches(tb, h, t) && tb.codes[h[|h| - 1].raw].result == NEW_LINE_KEY
    && !Held(Raws(h), BACKSPACE_PRESS, BACKSPACE_RELEASE)
  }

  predicate Flushed(s: Input, t: nat) {
    t < |s.lines| && s.lines[t].text == [] && !s.lines[t].allowed
  }

  /** A line is as long as the buffer only when a read awaits it. */
  lemma {:induction false} RoomUnlessAwaited(tb: Tables, h: seq<Event>, t: nat)
    requires TablesOk(tb) && t < TERMINALS
    ensures var l := After(tb, h).lines[t]; |l.text| <= BUFFER_SIZE - PADDING || l.waiting
    decreases |h|
  {
    if h != [] {
      RoomUnlessAwaited(tb, h[..|h| - 1], t);
      LastEvent(tb, h, t);
    }
  }

  /** A read that completes leaves an empty line that no read awaits, so that the next one starts afresh. */
  lemma TakeFlushes(tb: Tables, h: seq<Event>, t: nat)
    requires TablesOk(tb) && t < TERMINALS && h != [] && h[|h| - 1] == Take(t)
    requires After(tb, h[..|h| - 1]).lines[t].allowed
    ensures Flushed(After(tb, h), t) && !After(tb, h).lines[t].waiting
  {
    LastEvent(tb, h, t);
  }

  /** An Enter that no read awaits drops the line, whatever it was. */
  lemma UnawaitedEnterFlushes(tb: Tables, h: seq<Event>, t: nat)
    requires TablesOk(tb) && t < TERMINALS && Reaches(tb, h, t)
    requires tb.codes[h[|h| - 1].raw].result == NEW_LINE_KEY && !Held(Raws(h), BACKSPACE_PRESS, BACKSPACE_RELEASE)
    requires !After(tb, h[..|h| - 1]).lines[t].waiting
    ensures Flushed(After(tb, h), t) && !After(tb, h).lines[t].waiting
  {
    RoomUnlessAwaited(tb, h[..|h| - 1], t);
    LastEvent(tb, h, t);
  }

  /** The awaited Enter releases the edited line and a newline. */
  lemma EnterReleasesLine(tb: Tables, h: seq<Event>, from: nat, t: nat)
    requires TablesOk(tb) && t < TERMINALS && LineEntered(tb, h, from, t)
    ensures After(tb, h).lines[t] == Line(Edited(tb, h[..|h| - 1], from, t) + [NEW_LINE_KEY], true, true)
    ensures 0 !in Edited(tb, h[..|h| - 1], from, t)
  {
    var typed := h[..|h| - 1];
    assert typed[..from] == h[..from];
    BufferIsEditedLine(tb, typed, from, t);
    LastEvent(tb, h, t);
    EnterOnPlain(After(tb, typed).lines[t]);
  }

  lemma EnterOnPlain(l: Line)
    requires PlainText(l.text) && l.waiting
    ensures Entered(l) == Line(l.text + [NEW_LINE_KEY], true, true)
  {
    assert l.text != [] ==> (l.text + [NEW_LINE_KEY])[0] == l.text[0] && l.text[0] in l.text;
  }

  /** An Enter on an empty line, or another one before the read, leaves an empty line: the read returns the
      newline alone. */
  lemma EmptyLineEntered(l: Line)
    requires l.waiting && (l.text == [] || l.text[0] == NEW_LINE_KEY)
    ensures Taken(Entered(l)) == [NEW_LINE_KEY] && Entered(l).allowed
  {
    var text := Entered(l).text;
    assert text[0] == NEW_LINE_KEY && (|text| > 1 ==> text[1] == 0);
    assert text[..1] == [NEW_LINE_KEY];
    UpToNulIs(text, 1);
  }

  /** If no key reaches the terminal between an awaited Enter and the read, the read completes and
      returns the edited line and a newline. */
  lemma ReadReturnsEditedLine(tb: Tables, h: seq<Event>, from: nat, entered: nat, t: nat)
    requires TablesOk(tb) && t < TERMINALS && 0 < entered <= |h|
    requires LineEntered(tb, h[..entered], from, t) && LeftAlone(tb, h, entered, t)
    ensures Enabled(After(tb, h), Take(t))
    ensures Taken(After(tb, h).lines[t]) == Edited(tb, h[..entered - 1], from, t) + [NEW_LINE_KEY]
  {
    assert h[..entered][..entered - 1] == h[..entered - 1];
    EnterReleasesLine(tb, h[..entered], from, t);
    var line := Line(Edited(tb, h[..entered - 1], from, t) + [NEW_LINE_KEY], true, true);
    ReleasedLineWaits(tb, h, entered, t, line);
    assert line.text[..|line.text|] == line.text;
    UpToNulIs(line.text, |line.text|);
  }

  /** The index never leaves the buffer, so a read copies at most 127 bytes. */
  lemma {:induction false} IndexStaysInBuffer(tb: Tables, h: seq<Event>, t: nat)
    requires TablesOk(tb) && t < TERMINALS
    ensures |After(tb, h).lines[t].text| <= BUFFER_SIZE - 1
    ensures |Taken(After(tb, h).lines[t])| <= BUFFER_SIZE - 1
    decreases |h|
  {
    if h != [] {
      IndexStaysInBuffer(tb, h[..|h| - 1], t);
      LastEvent(tb, h, t);
    }
  }

  // ---------------------------------------------------------------------------------------
  // The size a read asks for
  // ---------------------------------------------------------------------------------------

  /** A key that is not a modifier, Backspace or Delete. */
  predicate Ordinary(raw: Byte) {
    raw !in {DELETE_SCAN_CODE, BACKSPACE_PRESS, BACKSPACE_RELEASE, CAPS_LOCK_PRESS, SHIFT_PRESS, SHIFT_RELEASE,
             R_SHIFT_PRESS, R_SHIFT_RELEASE, CONTROL_PRESS, CONTROL_RELEASE, ALT_PRESS, ALT_RELEASE}
  }

  predicate CharKey(tb: Tables, raw: Byte)
    requires |tb.codes| == 256
  {
    Ordinary(raw) && tb.codes[raw].make && tb.codes[raw].printable && tb.codes[raw].result != NEW_LINE_KEY
  }

  predicate EnterKey(tb: Tables, raw: Byte)
    requires |tb.codes| == 256
  {
    Ordinary(raw) && tb.codes[raw].make && tb.codes[raw].result == NEW_LINE_KEY
  }

  /** A read of terminal 0 that waits, and then the same key n times. */
  function Repeated(key: Byte, n: nat): (h: seq<Event>)
    ensures |h| == n + 1
  {
    if n == 0 then [Await(0)] else Repeated(key, n - 1) + [Key(key, 0)]
  }

  lemma {:induction false} RepeatedFills(tb: Tables, key: Byte, n: nat)
    requires TablesOk(tb) && CharKey(tb, key) && n <= BUFFER_SIZE - PADDING
    ensures var s := After(tb, Repeated(key, n));
            && s.mods == BOOT.mods && s.visible == 0 && |s.lines| == TERMINALS
            && s.lines[0].waiting && |s.lines[0].text| == n && PlainText(s.lines[0].text)
    decreases n
  {
    if n == 0 {
      assert [Await(0)][..0] == [];
      assert After(tb, [Await(0)]) == Step(tb, BOOT, Await(0));
    } else {
      RepeatedFills(tb, key, n - 1);
      var h := Repeated(key, n);
      assert h[..n] == Repeated(key, n - 1) && h[n] == Key(key, 0);
      CharKeyStep(tb, After(tb, Repeated(key, n - 1)), key);
    }
  }

  lemma CharKeyStep(tb: Tables, s: Input, key: Byte)
    requires TablesOk(tb) && CharKey(tb, key) && |s.lines| == TERMINALS && s.visible == 0 && s.mods == BOOT.mods
    requires PlainText(s.lines[0].text) && |s.lines[0].text| < BUFFER_SIZE - PADDING
    ensures var r := Step(tb, s, Key(key, 0));
            && r.mods == s.mods && r.visible == 0 && r.lines[0].waiting == s.lines[0].waiting
            && |r.lines[0].text| == |s.lines[0].text| + 1 && PlainText(r.lines[0].text)
  {
    var c := tb.codes[key];
    assert UpdateMods(s.mods, key) == s.mods;
    LetterCase(tb, s.mods, c);
    GlyphIsText(tb, c, false, false);
    EditKeepsPlain(s.lines[0].text, TypedChar(tb, s.mods, c));
  }

  /** A line of 126 characters and its newline: the longest a read can return. */
  lemma LongestLine(tb: Tables, key: Byte, enter: Byte) returns (h: seq<Event>)
    requires TablesOk(tb) && CharKey(tb, key) && EnterKey(tb, enter)
    ensures Enabled(After(tb, h), Take(0)) && |Taken(After(tb, h).lines[0])| == BUFFER_SIZE - 1
  {
    var typed := Repeated(key, BUFFER_SIZE - PADDING);
    RepeatedFills(tb, key, BUFFER_SIZE - PADDING);
    h := typed + [Key(enter, 0)];
    assert h[..|h| - 1] == typed;
    var line := After(tb, typed).lines[0];
    EnterOnPlain(line);
    assert After(tb, h).lines[0] == Entered(line);
    assert (line.text + [NEW_LINE_KEY])[..BUFFER_SIZE - 1] == line.text + [NEW_LINE_KEY];
    UpToNulIs(line.text + [NEW_LINE_KEY], BUFFER_SIZE - 1);
  }

  /** read_terminal does not look at the size it is given: what it returns fits, whatever was typed, if
      and only if the size is 127 or more. */
  lemma ReadSizeExact(tb: Tables, key: Byte, enter: Byte, nbytes: int)
    requires TablesOk(tb) && CharKey(tb, key) && EnterKey(tb, enter)
    ensures (forall h: seq<Event>, t: nat | t < TERMINALS && Enabled(After(tb, h), Take(t)) ::
               |Taken(After(tb, h).lines[t])| <= nbytes)
            <==> nbytes >= BUFFER_SIZE - 1
  {
    if nbytes >= BUFFER_SIZE - 1 {
      forall h: seq<Event>, t: nat | t < TERMINALS && Enabled(After(tb, h), Take(t))
        ensures |Taken(After(tb, h).lines[t])| <= nbytes
      {
        IndexStaysInBuffer(tb, h, t);
      }
    } else {
      var h := LongestLine(tb, key, enter);
    }
  }

  /** With Backspace down another character key first erases. That leaves the line the user meant
      exactly when there was nothing to erase, or when the line was full and already ended in
      that character. */
  lemma KeyWhileBackspaceHeld(tb: Tables, m: Mods, c: Code, l: Line)
    requires |tb.shifted| == 256 && CodeOk(c, tb.shifted) && m.backspace && TypedChar(tb, m, c).Some?
    ensures KeyOnLine(tb, m, c, l).text == Append(l.text, TypedChar(tb, m, c)) <==>
            l.text == [] || (|l.text| == BUFFER_SIZE - PADDING && l.text[|l.text| - 1] == TypedChar(tb, m, c).value)
  {
    TypedCharIsByte(tb, m, c);
    var ch := TypedChar(tb, m, c).value;
    if |l.text| == BUFFER_SIZE - PADDING {
      var n := |l.text| - 1;
      assert l.text == l.text[..n] + [l.text[n]];
      assert (l.text[..n] + [ch])[n] == ch;
    }
  }

  // ---------------------------------------------------------------------------------------
  // The driver
  // ---------------------------------------------------------------------------------------

  /** The branches on caps lock and shift store and echo the character the key stands for: a letter
      in upper case when caps lock and shift differ, another key shifted where the table says so. */
  method KeyChar(tb: Tables, m: Mods, c: Code) returns (ch: Option<Byte>)
    requires |tb.shifted| == 256 && CodeOk(c, tb.shifted)
    ensures ch == Glyph(tb, c, m.caps, m.shift || m.rShift)
    ensures ch.Some? <==> c.printable
  {
    if m.caps && !m.shift && !m.rShift {
      if c.letter {
        return Some(c.result - ASCII_SHIFT);
      } else if c.printable {
        return Some(c.result);
      }
    } else if m.shift || m.rShift {
      if c.letter && !m.caps {
        return Some(c.result - ASCII_SHIFT);
      } else if c.printable {
        if tb.shifted[c.result] != 0 {
          return Some(tb.shifted[c.result]);
        } else {
          return Some(c.result);
        }
      }
    } else if c.printable {
      return Some(c.result);
    }
    return None;
  }

  /** terminal_t: the stdin buffer and its flags. */
  class Terminal {
    const stdin: array<Byte>
    var index: nat
    var allowedToRead: bool
    var readWaiting: bool

    /** The index is inside the buffer and everything from it on is NUL. */
    ghost predicate Valid()
      reads this, stdin
    {
      && stdin.Length == BUFFER_SIZE && index < BUFFER_SIZE
      && forall i :: index <= i < BUFFER_SIZE ==> stdin[i] == 0
    }

    ghost function View(): Line
      requires Valid()
      reads this, stdin
    {
      Line(stdin[..index], allowedToRead, readWaiting)
    }

    constructor ()
      ensures Valid() && fresh(stdin) && View() == Line([], false, false)
    {
      stdin := new Byte[BUFFER_SIZE](_ => 0);
      index, allowedToRead, readWaiting := 0, false, false;
    }

    method Flush()
      requires stdin.Length == BUFFER_SIZE
      modifies this`index, stdin
      ensures Valid() && View() == Line([], allowedToRead, readWaiting)
    {
      for i := 0 to BUFFER_SIZE
        invariant forall k :: 0 <= k < i ==> stdin[k] == 0
      {
        stdin[i] := 0;
      }
      index := 0;
    }

    method EraseLast()
      requires Valid()
      modifies this`index, stdin
      ensures Valid() && View() == old(View()).(text := Erase(old(View()).text))
    {
      if index > 0 {
        index := index - 1;
        stdin[index] := 0;
      }
    }

    method Store(ch: Byte)
      requires Valid() && index < BUFFER_SIZE - 1
      modifies this`index, stdin
      ensures Valid() && View() == old(View()).(text := old(View()).text + [ch])
    {
      stdin[index] := ch;
      index := index + 1;
      stdin[index] := 0;
    }

    method Enter()
      requires Valid() && index < BUFFER_SIZE - 1
      modifies this, stdin
      ensures Valid() && View() == Entered(old(View()))
    {
      Store(NEW_LINE_KEY);
      if readWaiting {
        if stdin[0] == NEW_LINE_KEY {
          stdin[1] := 0;
        }
        allowedToRead := true;
      } else {
        Flush();
        allowedToRead := false;
      }
    }

    /** The copy loop of read_terminal, once allowed: it stops at a NUL inside the buffer. */
    method Read(buf: array<Byte>) returns (count: nat)
      requires Valid() && allowedToRead && buf.Length >= BUFFER_SIZE && buf != stdin
      modifies this, stdin, buf
      ensures Valid() && View() == Line([], false, false)
      ensures count < BUFFER_SIZE && buf[..count] == Taken(old(View()))
      ensures forall k :: count <= k < buf.Length ==> buf[k] == old(buf[k])
    {
      count := 0;
      assert stdin[BUFFER_SIZE - 1] == 0;
      while stdin[count] != 0 && count < BUFFER_SIZE
        invariant Valid() && View() == old(View())
        invariant count <= index && 0 !in stdin[..count] && buf[..count] == stdin[..count]
        invariant forall k :: count <= k < buf.Length ==> buf[k] == old(buf[k])
        decreases BUFFER_SIZE - count
      {
        buf[count] := stdin[count];
        count := count + 1;
      }
      UpToNulIs(stdin[..index], count);
      assert stdin[..index][..count] == stdin[..count];
      Flush();
      allowedToRead := false;
      readWaiting := false;
    }
  }

  /** The modifier bits of keyboard_state. */
  function Bits(state: bv8): Mods {
    Mods(state & 0x1 != 0, state & 0x20 != 0, state & 0x2 != 0, state & 0x4 != 0, state & 0x8 != 0, state & 0x40 != 0)
  }

  /** The switch over modifier scancodes. */
  method UpdateState(state: bv8, raw: Byte) returns (r: bv8)
    ensures Bits(r) == UpdateMods(Bits(state), raw)
  {
    r := state;
    if raw == BACKSPACE_PRESS || raw == BACKSPACE_RELEASE {
      r := if raw == BACKSPACE_PRESS then state | 0x8 else state & !0x8;
    } else if raw == CAPS_LOCK_PRESS {
      r := state ^ 0x4;
    } else if raw == SHIFT_PRESS || raw == SHIFT_RELEASE {
      r := if raw == SHIFT_PRESS then state | 0x1 else state & !0x1;
    } else {
      r := UpdateOthers(state, raw);
    }
  }

  method UpdateOthers(state: bv8, raw: Byte) returns (r: bv8)
    requires raw !in {BACKSPACE_PRESS, BACKSPACE_RELEASE, CAPS_LOCK_PRESS, SHIFT_PRESS, SHIFT_RELEASE}
    ensures Bits(r) == UpdateMods(Bits(state), raw)
  {
    r := state;
    if raw == R_SHIFT_PRESS || raw == R_SHIFT_RELEASE {
      r := if raw == R_SHIFT_PRESS then state | 0x20 else state & !0x20;
    } else {
      r := UpdateControlAlt(state, raw);
    }
  }

  method UpdateControlAlt(state: bv8, raw: Byte) returns (r: bv8)
    requires raw !in {BACKSPACE_PRESS, BACKSPACE_RELEASE, CAPS_LOCK_PRESS, SHIFT_PRESS, SHIFT_RELEASE,
                      R_SHIFT_PRESS, R_SHIFT_RELEASE}
    ensures Bits(r) == UpdateMods(Bits(state), raw)
  {
    r := state;
    if raw == CONTROL_PRESS || raw == CONTROL_RELEASE {
      r := if raw == CONTROL_PRESS then state | 0x2 else state & !0x2;
    } else if raw == ALT_PRESS || raw == ALT_RELEASE {
      r := if raw == ALT_PRESS then state | 0x40 else state & !0x40;
    }
  }

  class Driver {
    var state: bv8
    var visible: nat
    const terminals: seq<Terminal>

    ghost predicate Valid()
      reads this, terminals, set i | 0 <= i < |terminals| :: terminals[i].stdin
    {
      && |terminals| == TERMINALS && visible < TERMINALS
      && (forall i :: 0 <= i < TERMINALS ==> terminals[i].Valid())
      && (forall i, j :: 0 <= i < j < TERMINALS ==>
            terminals[i] != terminals[j] && terminals[i].stdin != terminals[j].stdin)
    }

    ghost function View(): Input
      requires Valid()
      reads this, terminals, set i | 0 <= i < |terminals| :: terminals[i].stdin
    {
      Input(Bits(state), visible, [terminals[0].View(), terminals[1].View(), terminals[2].View()])
    }

    constructor ()
      ensures Valid() && View() == BOOT
    {
      var a := new Terminal();
      var b := new Terminal();
      var c := new Terminal();
      state, visible, terminals := 0, 0, [a, b, c];
    }

    /** The start of read_terminal: a bad descriptor or size fails, otherwise the read waits. */
    method BeginRead(tb: Tables, t: nat, fd: int, nbytes: int) returns (ok: bool)
      requires Valid() && Shaped(tb, View()) && t < TERMINALS
      modifies terminals[t]
      ensures ok <==> fd == 0 && nbytes >= 0
      ensures Valid() && View() == if ok then Step(tb, old(View()), Await(t)) else old(View())
    {
      ok := fd == 0 && nbytes >= 0;
      if ok {
        terminals[t].readWaiting := true;
      }
    }

    /** The rest of read_terminal, once its loop on allowed_to_read ends. */
    method FinishRead(tb: Tables, t: nat, buf: array<Byte>) returns (count: nat)
      requires Valid() && Shaped(tb, View()) && Enabled(View(), Take(t)) && buf.Length >= BUFFER_SIZE
      requires forall i :: 0 <= i < TERMINALS ==> terminals[i].stdin != buf
      modifies terminals[t], terminals[t].stdin, buf
      ensures Valid() && View() == Step(tb, old(View()), Take(t))
      ensures count < BUFFER_SIZE && buf[..count] == Taken(old(View()).lines[t])
    {
      count := terminals[t].Read(buf);
    }
  }
}
