/** The whole of process_sent_scancode (keyboard.c): one scancode changes the modifiers, the line and
    the screen of the visible terminal, with its page directory active, and on every way out the
    serviced process's directory is active again. */
module Handler {
  import opened Bytes
  import opened TextScreen
  import opened Kernel
  import opened Chains
  import opened Refinement
  import opened Runs
  import opened Machine
  import Keyboard
  import EchoedLine

  const F1_MAKE := 14
  const F2_MAKE := 16
  const F3_MAKE := 18
  const CLEAR_SHORTCUT := 'l' as int
  const ASCII_SIX := 54
  const ASCII_SEVEN := 55

  // ---------------------------------------------------------------------------------------
  // What a scancode is to the kernel
  // ---------------------------------------------------------------------------------------

  /** The kernel events of a scancode, given the modifiers after it and the visible line. */
  function KeyEvents(tb: Keyboard.Tables, m: Keyboard.Mods, raw: Byte, line: Keyboard.Line, id: int): seq<Event>
    requires |tb.codes| == 256 && |tb.shifted| == 256
  {
    var c := tb.codes[raw];
    if raw == Keyboard.DELETE_SCAN_CODE || !c.make then []
    else if m.alt then AltEvents(c.result, id)
    else if m.control then ControlEvents(c.result, line)
    else TypeEvents(Keyboard.Echo(tb, m, c, line))
  }

  function AltEvents(result: Byte, id: int): seq<Event> {
    if result == F1_MAKE then [AltKey(0, id)]
    else if result == F2_MAKE then [AltKey(1, id)]
    else if result == F3_MAKE then [AltKey(2, id)]
    else []
  }

  function ControlEvents(result: Byte, line: Keyboard.Line): seq<Event> {
    if result == CLEAR_SHORTCUT then [ClearKey(line.text)] else []
  }

  function TypeEvents(text: seq<Byte>): seq<Event> {
    if text == [] then [] else [TypeKey(text[0])] + TypeEvents(text[1..])
  }

  /** Ctrl-6 and Ctrl-7 change the colours; what they do to the screen is not part of this model. */
  predicate ColourKey(tb: Keyboard.Tables, m: Keyboard.Mods, raw: Byte)
    requires |tb.codes| == 256
  {
    && raw != Keyboard.DELETE_SCAN_CODE && tb.codes[raw].make && !m.alt && m.control
    && (tb.codes[raw].result == ASCII_SIX || tb.codes[raw].result == ASCII_SEVEN)
  }

  /** Characters through putc_kbd, one after the other. */
  function TypeAll(p: Proc, v: Video, text: seq<Byte>): (r: Video)
    requires Mapped(v, p.cr3)
    ensures Mapped(r, p.cr3)
    decreases |text|
  {
    if text == [] then v else TypeAll(p, TypeChar(p, v, text[0]), text[1..])
  }

  /** What the handler leaves behind: the directory of the serviced process, except after a launch. */
  function Handled(s: State, tb: Keyboard.Tables, m: Keyboard.Mods, raw: Byte, line: Keyboard.Line, id: int): State
    requires |tb.codes| == 256 && |tb.shifted| == 256
    requires HasCurrent(s.p) && Mapped(s.v, s.p.top[s.p.visible])
  {
    var c := tb.codes[raw];
    if raw == Keyboard.DELETE_SCAN_CODE || !c.make then s
    else if m.alt then AltHandled(s, c.result, id)
    else if m.control then ControlHandled(s, c.result, line)
    else s.(p := Restored(s.p), v := TypeAll(KeyboardView(s.p), s.v, Keyboard.Echo(tb, m, c, line)))
  }

  function AltHandled(s: State, result: Byte, id: int): State
    requires HasCurrent(s.p) && Mapped(s.v, s.p.top[s.p.visible])
  {
    if result == F1_MAKE then AltKeyStep(s, 0, id)
    else if result == F2_MAKE then AltKeyStep(s, 1, id)
    else if result == F3_MAKE then AltKeyStep(s, 2, id)
    else s.(p := Restored(s.p))
  }

  function ControlHandled(s: State, result: Byte, line: Keyboard.Line): State
    requires ProcOk(s.p) && Mapped(s.v, s.p.top[s.p.visible])
  {
    if result == CLEAR_SHORTCUT then s.(p := Restored(s.p), v := Cleared(s, line.text))
    else s.(p := Restored(s.p))
  }

  /** Ctrl-L: a blank screen, the prompt and the line so far. */
  function Cleared(s: State, line: seq<Byte>): Video
    requires ProcOk(s.p) && Mapped(s.v, s.p.top[s.p.visible])
  {
    var k := KeyboardView(s.p).(serviced := s.p.visible);
    WriteTerminal(k, ClearVideo(k, s.v), PROMPT + UpToNul(line))
  }

  // ---------------------------------------------------------------------------------------
  // Every way through the handler is a run of the step system
  // ---------------------------------------------------------------------------------------

  lemma {:induction false} TypedIsRun(s: State, a: Abstract, text: seq<Byte>) returns (b: Abstract)
    requires Related(s, a)
    ensures Mapped(s.v, s.p.top[s.p.visible])
    ensures Run(s, TypeEvents(text), s.(p := Restored(s.p), v := TypeAll(KeyboardView(s.p), s.v, text)))
    ensures Related(s.(p := Restored(s.p), v := TypeAll(KeyboardView(s.p), s.v, text)), b)
    decreases |text|
  {
    TopPages(s.p, s.v, a.stacks, s.p.visible);
    RelatedOk(s, a);
    assert Restored(s.p) == s.p;
    if text == [] {
      b := a;
    } else {
      var m, c := Extend(s, a, TypeKey(text[0]));
      b := TypedIsRun(m, c, text[1..]);
      var end := s.(p := Restored(s.p), v := TypeAll(KeyboardView(s.p), s.v, text));
      PathAppend(Guarded, s, [TypeKey(text[0])], m, TypeEvents(text[1..]), end);
    }
  }

  /** In every state with chains, what the handler does is a guarded run of the kernel's events. */
  lemma HandledIsRun(s: State, a: Abstract, tb: Keyboard.Tables, m: Keyboard.Mods, raw: Byte, line: Keyboard.Line,
                     id: int) returns (b: Abstract)
    requires Related(s, a) && |tb.codes| == 256 && |tb.shifted| == 256
    ensures HasCurrent(s.p) && Mapped(s.v, s.p.top[s.p.visible])
    ensures Run(s, KeyEvents(tb, m, raw, line, id), Handled(s, tb, m, raw, line, id))
    ensures Related(Handled(s, tb, m, raw, line, id), b)
  {
    RelatedOk(s, a);
    TopPages(s.p, s.v, a.stacks, s.p.visible);
    assert Restored(s.p) == s.p && s.(p := s.p) == s;
    var c := tb.codes[raw];
    if raw == Keyboard.DELETE_SCAN_CODE || !c.make {
      b := a;
    } else if m.alt {
      b := AltIsRun(s, a, c.result, id);
    } else if m.control {
      b := ControlIsRun(s, a, c.result, line);
    } else {
      b := TypedIsRun(s, a, Keyboard.Echo(tb, m, c, line));
    }
  }

  lemma AltIsRun(s: State, a: Abstract, result: Byte, id: int) returns (b: Abstract)
    requires HasCurrent(s.p) && Mapped(s.v, s.p.top[s.p.visible]) && Restored(s.p) == s.p && Related(s, a)
    ensures Run(s, AltEvents(result, id), AltHandled(s, result, id)) && Related(AltHandled(s, result, id), b)
  {
    b := a;
    if result == F1_MAKE {
      b := AltKeyIsRun(s, a, 0, id);
    } else if result == F2_MAKE {
      b := AltKeyIsRun(s, a, 1, id);
    } else if result == F3_MAKE {
      b := AltKeyIsRun(s, a, 2, id);
    }
  }

  lemma AltKeyIsRun(s: State, a: Abstract, t: int, id: int) returns (b: Abstract)
    requires HasCurrent(s.p) && IsTerminal(t) && Mapped(s.v, s.p.top[s.p.visible]) && Related(s, a)
    ensures Run(s, [AltKey(t, id)], AltKeyStep(s, t, id)) && Related(AltKeyStep(s, t, id), b)
  {
    RelatedOk(s, a);
    var end;
    end, b := Extend(s, a, AltKey(t, id));
  }

  lemma ControlIsRun(s: State, a: Abstract, result: Byte, line: Keyboard.Line) returns (b: Abstract)
    requires ProcOk(s.p) && Mapped(s.v, s.p.top[s.p.visible]) && Restored(s.p) == s.p && Related(s, a)
    ensures Run(s, ControlEvents(result, line), ControlHandled(s, result, line))
    ensures Related(ControlHandled(s, result, line), b)
  {
    b := a;
    if result == CLEAR_SHORTCUT {
      RelatedOk(s, a);
      var end;
      end, b := Extend(s, a, ClearKey(line.text));
    }
  }

  // ---------------------------------------------------------------------------------------
  // Typing in pieces
  // ---------------------------------------------------------------------------------------

  lemma {:induction false} TypeAllAppend(p: Proc, v: Video, a: seq<Byte>, b: seq<Byte>)
    requires Mapped(v, p.cr3)
    ensures TypeAll(p, v, a + b) == TypeAll(p, TypeAll(p, v, a), b)
    decreases |a|
  {
    if a == [] {
      assert a + b == b;
    } else {
      assert (a + b)[1..] == a[1..] + b;
      TypeAllAppend(p, TypeChar(p, v, a[0]), a[1..], b);
    }
  }

  lemma TypeOne(p: Proc, v: Video, c: Byte)
    requires Mapped(v, p.cr3)
    ensures TypeAll(p, v, []) == v && TypeAll(p, v, [c]) == TypeChar(p, v, c)
  {
    assert [c][1..] == [];
  }

  // ---------------------------------------------------------------------------------------
  // The line on the screen
  // ---------------------------------------------------------------------------------------

  /** Typed characters change the visible terminal's screen, and no other. */
  lemma {:induction false} TypedScreens(p: Proc, v: Video, st: Stacks, text: seq<Byte>)
    requires Chained(p, st) && TablesOk(p, v)
    ensures Mapped(v, p.top[p.visible])
    ensures Screens(p, TypeAll(KeyboardView(p), v, text)) ==
            Screens(p, v)[p.visible := PutAll(Screens(p, v)[p.visible], text, v.attr)]
    decreases |text|
  {
    TopPages(p, v, st, p.visible);
    if text != [] {
      var w := TypeChar(KeyboardView(p), v, text[0]);
      TypeChangesVisible(p, v, st, text[0]);
      TablesFrame(p, v, p, w);
      TypedScreens(p, w, st, text[1..]);
    }
  }

  /** While a terminal is visible, and nothing else is printed on it, the keys since a flush leave the
      edited line on its screen: the window shows a document in which the line stands where the
      cursor was. */
  lemma EchoOnScreen(s: State, a: Abstract, tb: Keyboard.Tables, h: seq<Keyboard.Event>, from: nat, d: Document)
    requires Related(s, a) && s.p.visible >= 0 && Shows(d, Screens(s.p, s.v)[s.p.visible])
    requires Keyboard.TablesOk(tb) && from <= |h|
    requires Keyboard.Flushed(Keyboard.After(tb, h[..from]), s.p.visible)
    requires Keyboard.AllPlain(tb, h, from, s.p.visible)
    ensures Mapped(s.v, s.p.top[s.p.visible])
    ensures var echo := EchoedLine.Echoed(tb, h, from, s.p.visible);
            var e := DocumentPutAll(d, echo, s.v.attr);
            && Shows(e, Screens(s.p, TypeAll(KeyboardView(s.p), s.v, echo))[s.p.visible])
            && EchoedLine.TypedAt(d, e, Keyboard.Edited(tb, h, from, s.p.visible), s.v.attr)
  {
    var t := s.p.visible;
    var echo := EchoedLine.Echoed(tb, h, from, t);
    TypedScreens(s.p, s.v, a.stacks, echo);
    StreamShowsDocument(d, Screens(s.p, s.v)[t], echo, s.v.attr);
    EchoedLine.EchoShowsLine(tb, h, from, t, d, s.v.attr);
  }

  /** The last event of a history, handled: a scancode with the modifiers after it and the visible line before
      it; a read touches no screen. */
  ghost predicate HandlesLast(tb: Keyboard.Tables, h: seq<Keyboard.Event>, m: State, s: State)
    requires |tb.codes| == 256 && |tb.shifted| == 256 && h != []
  {
    var e, was := h[|h| - 1], Keyboard.After(tb, h[..|h| - 1]);
    if !Keyboard.IsKey(e) then s == m
    else
      && HasCurrent(m.p) && Mapped(m.v, m.p.top[m.p.visible])
      && s == Handled(m, tb, Keyboard.After(tb, h).mods, e.raw, was.lines[was.visible], 0)
  }

  /** What the handler makes of the events after the first from. */
  ghost predicate Handles(tb: Keyboard.Tables, h: seq<Keyboard.Event>, from: nat, s: State, s': State)
    requires |tb.codes| == 256 && |tb.shifted| == 256
    decreases |h|
  {
    if |h| <= from then s' == s
    else exists m :: Handles(tb, h[..|h| - 1], from, s, m) && HandlesLast(tb, h, m, s')
  }

  /** Neither Alt nor Control is held after any event past the first from. */
  ghost predicate NoShortcuts(h: seq<Keyboard.Event>, from: nat) {
    forall n :: from < n <= |h| ==> NoShortcut(h[..n])
  }

  ghost predicate NoShortcut(h: seq<Keyboard.Event>) {
    && !Keyboard.Held(Keyboard.Raws(h), Keyboard.ALT_PRESS, Keyboard.ALT_RELEASE)
    && !Keyboard.Held(Keyboard.Raws(h), Keyboard.CONTROL_PRESS, Keyboard.CONTROL_RELEASE)
  }

  lemma ShortcutPrefix(h: seq<Keyboard.Event>, from: nat)
    requires NoShortcuts(h, from) && from < |h|
    ensures NoShortcuts(h[..|h| - 1], from) && NoShortcut(h)
  {
    var before := h[..|h| - 1];
    assert h[..|h|] == h;
    forall n | from < n <= |before|
      ensures NoShortcut(before[..n])
    {
      assert before[..n] == h[..n];
    }
  }

  /** One event without Alt or Control echoes its key, and keeps the visible terminal. */
  lemma LastEchoes(tb: Keyboard.Tables, h: seq<Keyboard.Event>, m: State, s: State)
    requires |tb.codes| == 256 && |tb.shifted| == 256 && h != [] && NoShortcut(h)
    requires HasCurrent(m.p) && Mapped(m.v, m.p.top[m.p.visible]) && Restored(m.p) == m.p
    requires 0 <= m.p.visible == Keyboard.Shown(tb, h[..|h| - 1]) < Keyboard.TERMINALS && HandlesLast(tb, h, m, s)
    ensures Keyboard.Shown(tb, h) == m.p.visible && s.p == m.p
    ensures s.v == if !Keyboard.Reaches(tb, h, m.p.visible) then m.v
                   else TypeAll(KeyboardView(m.p), m.v, KeyEcho(tb, h, m.p.visible))
  {
    Keyboard.VisibleFollowsKeys(tb, h[..|h| - 1]);
    Keyboard.ModifiersFollowKeys(tb, h);
  }

  /** The echo of the key that a history ends in. */
  ghost function KeyEcho(tb: Keyboard.Tables, h: seq<Keyboard.Event>, t: nat): seq<Byte>
    requires |tb.codes| == 256 && |tb.shifted| == 256 && Keyboard.Reaches(tb, h, t) && t < Keyboard.TERMINALS
  {
    Keyboard.Echo(tb, Keyboard.ModsOf(Keyboard.Raws(h)), tb.codes[h[|h| - 1].raw],
                  Keyboard.After(tb, h[..|h| - 1]).lines[t])
  }

  lemma {:induction false} HandlesEchoes(tb: Keyboard.Tables, h: seq<Keyboard.Event>, from: nat, s: State, s': State)
    requires |tb.codes| == 256 && |tb.shifted| == 256 && from <= |h| && NoShortcuts(h, from)
    requires HasCurrent(s.p) && Mapped(s.v, s.p.top[s.p.visible]) && Restored(s.p) == s.p
    requires 0 <= s.p.visible == Keyboard.Shown(tb, h[..from]) < Keyboard.TERMINALS && Handles(tb, h, from, s, s')
    ensures Keyboard.Shown(tb, h) == s.p.visible && s'.p == s.p
    ensures s'.v == TypeAll(KeyboardView(s.p), s.v, EchoedLine.Echoed(tb, h, from, s.p.visible))
    decreases |h|
  {
    var t := s.p.visible;
    if |h| == from {
      assert h[..from] == h;
    } else {
      var before := h[..|h| - 1];
      assert before[..from] == h[..from];
      var m :| Handles(tb, before, from, s, m) && HandlesLast(tb, h, m, s');
      ShortcutPrefix(h, from);
      HandlesEchoes(tb, before, from, s, m);
      LastEchoes(tb, h, m, s');
      if Keyboard.Reaches(tb, h, t) {
        TypeAllAppend(KeyboardView(s.p), s.v, EchoedLine.Echoed(tb, before, from, t), KeyEcho(tb, h, t));
      }
    }
  }

  /** Whole runs of the handler: from a flush of the visible line on, with no shortcut, no Enter and no other
      key while Backspace is held, the screen shows exactly the line the user edited, where the cursor was,
      and no process or register has changed. */
  lemma TypedLineOnScreen(s: State, a: Abstract, tb: Keyboard.Tables, h: seq<Keyboard.Event>, from: nat, d: Document,
                          s': State)
    requires Related(s, a) && s.p.visible >= 0 && Shows(d, Screens(s.p, s.v)[s.p.visible])
    requires Keyboard.TablesOk(tb) && from <= |h| && Handles(tb, h, from, s, s')
    requires s.p.visible == Keyboard.Shown(tb, h[..from])
    requires Keyboard.Flushed(Keyboard.After(tb, h[..from]), s.p.visible)
    requires Keyboard.AllPlain(tb, h, from, s.p.visible) && NoShortcuts(h, from)
    ensures s'.p == s.p && VideoOk(s'.v)
    ensures exists e ::
              && Shows(e, Screens(s'.p, s'.v)[s.p.visible])
              && EchoedLine.TypedAt(d, e, Keyboard.Edited(tb, h, from, s.p.visible), s.v.attr)
  {
    RelatedOk(s, a);
    TopPages(s.p, s.v, a.stacks, s.p.visible);
    assert Restored(s.p) == s.p;
    HandlesEchoes(tb, h, from, s, s');
    EchoOnScreen(s, a, tb, h, from, d);
  }

  /** Enter with room in the buffer starts a new row on the visible screen, and changes nothing else. */
  lemma EnterOnScreen(s: State, a: Abstract, tb: Keyboard.Tables, m: Keyboard.Mods, raw: Byte, line: Keyboard.Line,
                      id: int, d: Document)
    requires Related(s, a) && s.p.visible >= 0 && Shows(d, Screens(s.p, s.v)[s.p.visible])
    requires |tb.codes| == 256 && |tb.shifted| == 256 && raw != Keyboard.DELETE_SCAN_CODE && tb.codes[raw].make
    requires !m.alt && !m.control && !m.backspace && tb.codes[raw].result == 10 && |line.text| < 127
    ensures HasCurrent(s.p) && Mapped(s.v, s.p.top[s.p.visible])
    ensures var r := Handled(s, tb, m, raw, line, id);
            && r.p == s.p && VideoOk(r.v)
            && exists e :: Shows(e, Screens(r.p, r.v)[s.p.visible]) && NewRow(d, e)
  {
    RelatedOk(s, a);
    TopPages(s.p, s.v, a.stacks, s.p.visible);
    assert Restored(s.p) == s.p;
    EnterIs(s, tb, m, raw, line, id);
    NewRowShows(s.p, s.v, a.stacks, d);
  }

  lemma EnterIs(s: State, tb: Keyboard.Tables, m: Keyboard.Mods, raw: Byte, line: Keyboard.Line, id: int)
    requires HasCurrent(s.p) && Mapped(s.v, s.p.top[s.p.visible])
    requires |tb.codes| == 256 && |tb.shifted| == 256 && raw != Keyboard.DELETE_SCAN_CODE && tb.codes[raw].make
    requires !m.alt && !m.control && !m.backspace && tb.codes[raw].result == 10 && |line.text| < 127
    ensures Handled(s, tb, m, raw, line, id) == s.(p := Restored(s.p), v := TypeChar(KeyboardView(s.p), s.v, 10))
  {
    TypeOne(KeyboardView(s.p), s.v, 10);
  }

  lemma NewRowShows(p: Proc, v: Video, st: Stacks, d: Document)
    requires Chained(p, st) && TablesOk(p, v) && Shows(d, Screens(p, v)[p.visible])
    ensures Mapped(v, p.top[p.visible])
    ensures exists e :: Shows(e, Screens(p, TypeChar(KeyboardView(p), v, 10))[p.visible]) && NewRow(d, e)
  {
    TypeChangesVisible(p, v, st, 10);
    NewLineShows(d, Screens(p, v)[p.visible], 10, v.attr);
    NewRowIs(d, v.attr);
  }

  lemma NewRowIs(d: Document, attr: Byte)
    requires DocumentOk(d)
    ensures NewRow(d, DocumentPut(d, 10, attr))
  {
  }

  /** The position of e is at the start of the row behind d's, and what d held is as it was. */
  ghost predicate NewRow(d: Document, e: Document) {
    e.pos % 80 == 0 && d.pos < e.pos <= d.pos + 80 && |d.cells| <= |e.cells| && e.cells[..|d.cells|] == d.cells
  }

  /** Alt with the k-th function key brings terminal k to the front, launched with a shell if need be, unless
      that would need a pid and none is free. */
  lemma FunctionKeyShows(s: State, a: Abstract, tb: Keyboard.Tables, m: Keyboard.Mods, raw: Byte,
                         line: Keyboard.Line, id: int, k: int)
    requires Related(s, a) && |tb.codes| == 256 && |tb.shifted| == 256 && 0 <= k < 3
    requires raw != Keyboard.DELETE_SCAN_CODE && tb.codes[raw].make && m.alt && tb.codes[raw].result == 14 + 2 * k
    ensures HasCurrent(s.p) && Mapped(s.v, s.p.top[s.p.visible])
    ensures var r := Handled(s, tb, m, raw, line, id).p;
            && r.visible == (if k in s.p.launched || LeastFree(s.p.used) != FAILURE then k else s.p.visible)
            && r.launched == (if LeastFree(s.p.used) != FAILURE then s.p.launched + {k} else s.p.launched)
            && r.serviced == (if k !in s.p.launched && LeastFree(s.p.used) != FAILURE then k else s.p.serviced)
  {
    LaunchedTerminals(s, a);
    FunctionKeyIs(s, tb, m, raw, line, id, k);
    AltKeyShows(s, k, id);
  }

  lemma LaunchedTerminals(s: State, a: Abstract)
    requires Related(s, a)
    ensures HasCurrent(s.p) && Mapped(s.v, s.p.top[s.p.visible]) && Current(s.p) in s.p.used
    ensures 0 in s.p.launched && s.p.visible in s.p.launched
  {
    RelatedOk(s, a);
    TopPages(s.p, s.v, a.stacks, s.p.visible);
  }

  lemma FunctionKeyIs(s: State, tb: Keyboard.Tables, m: Keyboard.Mods, raw: Byte, line: Keyboard.Line, id: int, k: int)
    requires HasCurrent(s.p) && Mapped(s.v, s.p.top[s.p.visible]) && |tb.codes| == 256 && |tb.shifted| == 256
    requires 0 <= k < 3
    requires raw != Keyboard.DELETE_SCAN_CODE && tb.codes[raw].make && m.alt && tb.codes[raw].result == 14 + 2 * k
    ensures Handled(s, tb, m, raw, line, id) == AltKeyStep(s, k, id)
  {
  }

  lemma AltKeyShows(s: State, k: int, id: int)
    requires HasCurrent(s.p) && IsTerminal(k) && Mapped(s.v, s.p.top[s.p.visible]) && Current(s.p) in s.p.used
    requires 0 in s.p.launched && s.p.visible in s.p.launched
    ensures var r := AltKeyStep(s, k, id).p;
            && r.visible == (if k in s.p.launched || LeastFree(s.p.used) != FAILURE then k else s.p.visible)
            && r.launched == (if LeastFree(s.p.used) != FAILURE then s.p.launched + {k} else s.p.launched)
            && r.serviced == (if k !in s.p.launched && LeastFree(s.p.used) != FAILURE then k else s.p.serviced)
  {
    if k in s.p.launched {
      assert s.p.launched + {k} == s.p.launched;
    } else if LeastFree(s.p.used) != FAILURE {
      LaunchEffect(s.p, k, id, Current(s.p), LeastFree(s.p.used));
    }
  }

  // ---------------------------------------------------------------------------------------
  // The cleared screen
  // ---------------------------------------------------------------------------------------

  /** After Ctrl-L the visible screen holds the prompt and the line at its start and blanks elsewhere,
      with the cursor behind the line. */
  lemma ClearShowsLine(s: State, a: Abstract, line: seq<Byte>)
    requires Related(s, a) && Keyboard.PlainText(line)
    ensures Defined(s, ClearKey(line))
    ensures var r := Step(s, ClearKey(line));
            && ProcOk(r.p) && VideoOk(r.v) && r.p.visible == s.p.visible
            && Shows(TextThenBlanks(PROMPT + line, s.v.attr), Screens(r.p, r.v)[s.p.visible])
  {
    RelatedOk(s, a);
    ClearedThenPrinted(s.p, s.v, a.stacks, line);
    var r := Step(s, ClearKey(line));
    assert Screens(r.p, r.v) == Screens(s.p, Cleared(s, line));
  }

  lemma ClearedThenPrinted(p: Proc, v: Video, st: Stacks, line: seq<Byte>)
    requires Chained(p, st) && TablesOk(p, v) && Keyboard.PlainText(line)
    ensures Mapped(v, p.top[p.visible])
    ensures var k := KeyboardView(p).(serviced := p.visible);
            Shows(TextThenBlanks(PROMPT + line, v.attr),
                  Screens(p, WriteTerminal(k, ClearVideo(k, v), PROMPT + UpToNul(line)))[p.visible])
  {
    ClearChangesVisible(p, v, st);
    var w := ClearVideo(KeyboardView(p).(serviced := p.visible), v);
    WriteChangesVisible(p, w, st, PROMPT + UpToNul(line));
    PromptText(line);
    PromptShows(Screens(p, v)[p.visible].page, line, v.attr);
  }

  lemma PromptText(line: seq<Byte>)
    requires Keyboard.PlainText(line)
    ensures UpToNul(PROMPT + UpToNul(line)) == PROMPT + line
  {
    assert line[..|line|] == line;
    UpToNulIs(line, |line|);
    assert (PROMPT + line)[..|PROMPT + line|] == PROMPT + line;
    UpToNulIs(PROMPT + line, |PROMPT + line|);
  }

  lemma PromptShows(page: seq<Cell>, line: seq<Byte>, attr: Byte)
    requires |page| == PAGE_CELLS && Keyboard.PlainText(line)
    ensures Shows(TextThenBlanks(PROMPT + line, attr), PutAll(BlankScreen(page, attr), PROMPT + line, attr))
  {
    BlankShows(page, attr);
    StreamShowsDocument(TextThenBlanks([], attr), BlankScreen(page, attr), PROMPT + line, attr);
    PrintedOnBlanks([], PROMPT + line, attr);
    assert [] + (PROMPT + line) == PROMPT + line;
  }

  /** Ctrl-L does it: Control without Alt, and the key that stands for an l. */
  lemma ControlLShows(s: State, a: Abstract, tb: Keyboard.Tables, m: Keyboard.Mods, raw: Byte, line: Keyboard.Line,
                      id: int)
    requires Related(s, a) && |tb.codes| == 256 && |tb.shifted| == 256 && Keyboard.PlainText(line.text)
    requires raw != Keyboard.DELETE_SCAN_CODE && tb.codes[raw].make && !m.alt && m.control
    requires tb.codes[raw].result == 108
    ensures HasCurrent(s.p) && Mapped(s.v, s.p.top[s.p.visible])
    ensures var r := Handled(s, tb, m, raw, line, id);
            && r.p == s.p && VideoOk(r.v)
            && Shows(TextThenBlanks(PROMPT + line.text, s.v.attr), Screens(r.p, r.v)[s.p.visible])
  {
    RelatedOk(s, a);
    TopPages(s.p, s.v, a.stacks, s.p.visible);
    ClearedThenPrinted(s.p, s.v, a.stacks, line.text);
  }

  /** With no other key pressed while Backspace is held, that is the prompt and the line the user edited. */
  lemma ClearShowsEdited(s: State, a: Abstract, tb: Keyboard.Tables, h: seq<Keyboard.Event>, from: nat)
    requires Related(s, a) && s.p.visible >= 0 && Keyboard.TablesOk(tb) && from <= |h|
    requires Keyboard.Flushed(Keyboard.After(tb, h[..from]), s.p.visible)
    requires Keyboard.AllPlain(tb, h, from, s.p.visible)
    ensures var line := Keyboard.After(tb, h).lines[s.p.visible].text;
            && Defined(s, ClearKey(line))
            && var r := Step(s, ClearKey(line));
               && ProcOk(r.p) && VideoOk(r.v) && |PROMPT + Keyboard.Edited(tb, h, from, s.p.visible)| < CELLS
               && Shows(TextThenBlanks(PROMPT + Keyboard.Edited(tb, h, from, s.p.visible), s.v.attr),
                        Screens(r.p, r.v)[s.p.visible])
  {
    Keyboard.BufferIsEditedLine(tb, h, from, s.p.visible);
    ClearShowsLine(s, a, Keyboard.Edited(tb, h, from, s.p.visible));
  }

  // ---------------------------------------------------------------------------------------
  // The code
  // ---------------------------------------------------------------------------------------

  /** Memory after the Alt branch: a launched terminal's shell is loaded. */
  ghost function AltMemory(p: Proc, img: FileSystem.Image, result: Byte, memory: seq<Byte>): (r: seq<Byte>)
    requires FileSystem.ImageOk(img) && |memory| == Loader.MEMORY
    ensures |r| == Loader.MEMORY
  {
    if result == F1_MAKE then AltKeyMemory(p, img, 0, memory)
    else if result == F2_MAKE then AltKeyMemory(p, img, 1, memory)
    else if result == F3_MAKE then AltKeyMemory(p, img, 2, memory)
    else memory
  }

  /** Memory after a scancode. */
  ghost function HandledMemory(p: Proc, img: FileSystem.Image, tb: Keyboard.Tables, m: Keyboard.Mods, raw: Byte,
                               memory: seq<Byte>): (r: seq<Byte>)
    requires FileSystem.ImageOk(img) && |memory| == Loader.MEMORY && |tb.codes| == 256
    ensures |r| == Loader.MEMORY
  {
    if raw == Keyboard.DELETE_SCAN_CODE || !tb.codes[raw].make || !m.alt then memory
    else AltMemory(p, img, tb.codes[raw].result, memory)
  }

  /** The Alt branch. */
  method AltBranch(g: Globals, result: Byte, id: int, src: Source, memory: array<Byte>)
    requires g.Valid() && HasCurrent(g.Proc()) && Mapped(g.Video(), g.top[g.terminalState])
    requires SourceOk(src) && memory.Length == Loader.MEMORY
    requires Paging.BlocksMapped(g.DirectoryUnder(src.kernel, g.top[g.terminalState]))
    modifies g, memory
    ensures g.Valid()
    ensures State(g.Proc(), g.Video(), src.img) ==
            AltHandled(State(old(g.Proc()), old(g.Video()), src.img), result, id)
    ensures memory[..] == AltMemory(old(g.Proc()), src.img, result, old(memory[..]))
  {
    if result == F1_MAKE {
      g.AltKeyPressed(0, id, src, memory);
    } else if result == F2_MAKE {
      g.AltKeyPressed(1, id, src, memory);
    } else if result == F3_MAKE {
      g.AltKeyPressed(2, id, src, memory);
    } else {
      g.cr3 := g.top[g.terminalState];
      g.cr3 := g.top[g.beingServiced];
    }
  }

  /** Ctrl-L, with the visible terminal's directory active: the serviced terminal is changed for the
      two prints and put back. */
  method ClearBranch(g: Globals, t: Keyboard.Terminal)
    requires g.Valid() && ProcOk(g.Proc()) && Mapped(g.Video(), g.cr3) && t.Valid()
    modifies g`pages, g`x, g`y, g`cursors, g`beingServiced
    ensures g.Valid() && g.Proc() == old(g.Proc())
    ensures var k := old(g.Proc()).(serviced := g.terminalState);
            g.Video() == WriteTerminal(k, ClearVideo(k, old(g.Video())), PROMPT + UpToNul(t.View().text))
  {
    var serviced := g.beingServiced;
    ghost var k := g.Proc().(serviced := g.terminalState);
    ghost var v := ClearVideo(k, g.Video());
    g.ClearScreen();
    g.beingServiced := g.terminalState;
    g.PrintText(PROMPT);
    var line := t.stdin[..t.index];
    PromptAndLine(k, v, line);
    g.WriteTerminal(line);
    g.beingServiced := serviced;
  }

  lemma PromptAndLine(k: Proc, v: Video, line: seq<Byte>)
    requires ProcOk(k) && Mapped(v, k.cr3)
    ensures Mapped(WriteTerminal(k, v, PROMPT), k.cr3)
    ensures WriteTerminal(k, WriteTerminal(k, v, PROMPT), line) == WriteTerminal(k, v, PROMPT + UpToNul(line))
  {
    WritesCompose(k, v, PROMPT, line);
    SameText(PROMPT, line);
  }

  lemma SameText(a: seq<Byte>, b: seq<Byte>)
    requires 0 !in a
    ensures UpToNul(a + b) == UpToNul(a + UpToNul(b))
  {
    JoinedText(a, b);
    JoinedText(a, UpToNul(b));
    assert UpToNul(b)[..|UpToNul(b)|] == UpToNul(b);
    UpToNulIs(UpToNul(b), |UpToNul(b)|);
  }

  /** Backspace, Enter and ordinary keys, with the visible terminal's directory active; each way out
      restores the serviced process's directory. */
  method TypeBranch(g: Globals, t: Keyboard.Terminal, tb: Keyboard.Tables, m: Keyboard.Mods, c: Keyboard.Code)
    requires g.Valid() && ProcOk(g.Proc()) && Mapped(g.Video(), g.cr3) && t.Valid()
    requires |tb.shifted| == 256 && Keyboard.CodeOk(c, tb.shifted)
    modifies g`pages, g`x, g`y, g`cr3, t, t.stdin
    ensures g.Valid() && t.Valid() && t.View() == Keyboard.KeyOnLine(tb, m, c, old(t.View()))
    ensures g.Proc() == Restored(old(g.Proc()))
    ensures g.Video() == TypeAll(old(g.Proc()), old(g.Video()), Keyboard.Echo(tb, m, c, old(t.View())))
  {
    ghost var p, v := g.Proc(), g.Video();
    ghost var first := [];
    if m.backspace {
      first := BackspaceBranch(g, t);
    } else if c.result == Keyboard.NEW_LINE_KEY && t.index < Keyboard.BUFFER_SIZE - 1 {
      EnterBranch(g, t);
      return;
    }
    EchoInTwo(p, v, tb, m, c, old(t.View()));
    StoreBranch(g, t, tb, m, c);
    g.cr3 := g.top[g.beingServiced];
  }

  /** The echo of a key other than Enter: that of the erasing, and then that of the storing. */
  lemma EchoInTwo(p: Proc, v: Video, tb: Keyboard.Tables, m: Keyboard.Mods, c: Keyboard.Code, l: Keyboard.Line)
    requires Mapped(v, p.cr3) && |tb.shifted| == 256
    requires m.backspace || c.result != Keyboard.NEW_LINE_KEY || |l.text| >= Keyboard.BUFFER_SIZE - 1
    ensures var first := if m.backspace && l.text != [] then [Keyboard.BACKSPACE_CHAR] else [];
            var text := if m.backspace then Keyboard.Erase(l.text) else l.text;
            TypeAll(p, TypeAll(p, v, first), Keyboard.StoreEcho(text, Keyboard.TypedChar(tb, m, c))) ==
            TypeAll(p, v, Keyboard.Echo(tb, m, c, l))
  {
    var first := if m.backspace && l.text != [] then [Keyboard.BACKSPACE_CHAR] else [];
    var text := if m.backspace then Keyboard.Erase(l.text) else l.text;
    var store := Keyboard.StoreEcho(text, Keyboard.TypedChar(tb, m, c));
    TypeAllAppend(p, v, first, store);
    assert Keyboard.Echo(tb, m, c, l) == first + store;
  }

  /** The same, from the change of directory on. */
  method TypeVisible(g: Globals, t: Keyboard.Terminal, tb: Keyboard.Tables, m: Keyboard.Mods, c: Keyboard.Code)
    requires g.Valid() && ProcOk(g.Proc()) && Mapped(g.Video(), g.top[g.terminalState]) && t.Valid()
    requires |tb.shifted| == 256 && Keyboard.CodeOk(c, tb.shifted)
    modifies g`pages, g`x, g`y, g`cr3, t, t.stdin
    ensures g.Valid() && t.Valid() && t.View() == Keyboard.KeyOnLine(tb, m, c, old(t.View()))
    ensures g.Proc() == Restored(old(g.Proc()))
    ensures g.Video() == TypeAll(KeyboardView(old(g.Proc())), old(g.Video()), Keyboard.Echo(tb, m, c, old(t.View())))
  {
    g.cr3 := g.top[g.terminalState];
    TypeBranch(g, t, tb, m, c);
  }

  /** Enter, in a buffer with room for it. */
  method EnterBranch(g: Globals, t: Keyboard.Terminal)
    requires g.Valid() && ProcOk(g.Proc()) && Mapped(g.Video(), g.cr3)
    requires t.Valid() && t.index < Keyboard.BUFFER_SIZE - 1
    modifies g`pages, g`x, g`y, g`cr3, t, t.stdin
    ensures g.Valid() && g.Proc() == Restored(old(g.Proc()))
    ensures g.Video() == TypeAll(old(g.Proc()), old(g.Video()), [Keyboard.NEW_LINE_KEY])
    ensures t.Valid() && t.View() == Keyboard.Entered(old(t.View()))
  {
    TypeOne(g.Proc(), g.Video(), Keyboard.NEW_LINE_KEY);
    g.PutcKbd(Keyboard.NEW_LINE_KEY);
    t.Enter();
    g.cr3 := g.top[g.beingServiced];
  }

  /** With Backspace down: the last character goes, if there is one. */
  method BackspaceBranch(g: Globals, t: Keyboard.Terminal) returns (ghost echo: seq<Byte>)
    requires g.Valid() && ProcOk(g.Proc()) && Mapped(g.Video(), g.cr3) && t.Valid()
    modifies g`pages, g`x, g`y, t`index, t.stdin
    ensures t.Valid() && t.View() == old(t.View()).(text := Keyboard.Erase(old(t.View()).text))
    ensures echo == if old(t.View()).text != [] then [Keyboard.BACKSPACE_CHAR] else []
    ensures g.Video() == TypeAll(g.Proc(), old(g.Video()), echo)
  {
    echo := [];
    TypeOne(g.Proc(), g.Video(), Keyboard.BACKSPACE_CHAR);
    if t.index > 0 {
      echo := [Keyboard.BACKSPACE_CHAR];
      g.PutcKbd(Keyboard.BACKSPACE_CHAR);
      t.EraseLast();
    }
  }

  /** The room test and the branches on caps lock and shift. */
  method StoreBranch(g: Globals, t: Keyboard.Terminal, tb: Keyboard.Tables, m: Keyboard.Mods, c: Keyboard.Code)
    requires g.Valid() && ProcOk(g.Proc()) && Mapped(g.Video(), g.cr3) && t.Valid()
    requires |tb.shifted| == 256 && Keyboard.CodeOk(c, tb.shifted)
    modifies g`pages, g`x, g`y, t`index, t.stdin
    ensures t.Valid()
    ensures t.View() == old(t.View()).(text := Keyboard.Append(old(t.View()).text, Keyboard.TypedChar(tb, m, c)))
    ensures g.Video() == TypeAll(g.Proc(), old(g.Video()),
                                 Keyboard.StoreEcho(old(t.View()).text, Keyboard.TypedChar(tb, m, c)))
  {
    if t.index >= Keyboard.BUFFER_SIZE - Keyboard.PADDING {
      return;
    }
    Keyboard.LetterCase(tb, m, c);
    var ch := Keyboard.KeyChar(tb, m, c);
    if ch.Some? {
      TypeOne(g.Proc(), g.Video(), ch.value);
      g.PutcKbd(ch.value);
      t.Store(ch.value);
    }
  }

  /** process_sent_scancode. The modifiers and the visible line change as the line discipline says, the
      screens as the kernel's events say, memory by the load of a shell that is launched, and the directory
      is the serviced process's again. */
  method ProcessSentScancode(g: Globals, d: Keyboard.Driver, tb: Keyboard.Tables, raw: Byte, id: int, src: Source,
                             memory: array<Byte>)
    requires g.Valid() && HasCurrent(g.Proc()) && Mapped(g.Video(), g.top[g.terminalState])
    requires d.Valid() && Keyboard.TablesOk(tb) && d.visible == g.terminalState
    requires SourceOk(src) && memory.Length == Loader.MEMORY && Apart(d, memory)
    requires Paging.BlocksMapped(g.DirectoryUnder(src.kernel, g.top[g.terminalState]))
    modifies g, memory, d, d.terminals[d.visible], d.terminals[d.visible].stdin
    ensures g.Valid() && d.Valid() && d.visible == g.terminalState && g.terminalState < NUM_TERMINALS
    ensures d.View() == Keyboard.Step(tb, old(d.View()), Keyboard.Key(raw, g.terminalState))
    ensures var m := Keyboard.UpdateMods(old(d.View()).mods, raw);
            var line := old(d.View()).lines[old(d.visible)];
            var r := Handled(State(old(g.Proc()), old(g.Video()), src.img), tb, m, raw, line, id);
            && g.Proc() == r.p && (!ColourKey(tb, m, raw) ==> g.Video() == r.v)
            && memory[..] == HandledMemory(old(g.Proc()), src.img, tb, m, raw, old(memory[..]))
  {
    ghost var s, input := State(g.Proc(), g.Video(), src.img), d.View();
    if raw == Keyboard.DELETE_SCAN_CODE {
      ReleaseIs(s, tb, input, raw, input.lines[d.visible], id, g.terminalState);
      return;
    }
    d.state := Keyboard.UpdateState(d.state, raw);
    assert d.View() == input.(mods := Keyboard.UpdateMods(input.mods, raw));
    if tb.codes[raw].make {
      PressedKey(g, d, tb, raw, id, src, memory);
    }
    ReleaseIs(s, tb, input, raw, input.lines[old(d.visible)], id, g.terminalState);
  }

  /** The line buffers are not process memory. */
  predicate Apart(d: Keyboard.Driver, memory: array<Byte>)
    reads d
  {
    forall i :: 0 <= i < |d.terminals| ==> d.terminals[i].stdin != memory
  }

  /** The handling of a make scancode, once the modifiers are up to date. */
  method PressedKey(g: Globals, d: Keyboard.Driver, tb: Keyboard.Tables, raw: Byte, id: int, src: Source,
                    memory: array<Byte>)
    requires g.Valid() && HasCurrent(g.Proc()) && Mapped(g.Video(), g.top[g.terminalState])
    requires d.Valid() && Keyboard.TablesOk(tb) && d.visible == g.terminalState
    requires raw != Keyboard.DELETE_SCAN_CODE && tb.codes[raw].make
    requires SourceOk(src) && memory.Length == Loader.MEMORY && Apart(d, memory)
    requires Paging.BlocksMapped(g.DirectoryUnder(src.kernel, g.top[g.terminalState]))
    modifies g, memory, d`visible, d.terminals[d.visible], d.terminals[d.visible].stdin
    ensures g.Valid() && d.Valid() && d.visible == g.terminalState && g.terminalState < NUM_TERMINALS
    ensures d.View() == Keyboard.Pressed(tb, old(d.View()), tb.codes[raw], g.terminalState)
    ensures var m := old(d.View()).mods;
            var line := old(d.View()).lines[old(d.visible)];
            var r := Handled(State(old(g.Proc()), old(g.Video()), src.img), tb, m, raw, line, id);
            g.Proc() == r.p && (!ColourKey(tb, m, raw) ==> g.Video() == r.v)
    ensures memory[..] == HandledMemory(old(g.Proc()), src.img, tb, old(d.View()).mods, raw, old(memory[..]))
  {
    HandledIs(State(g.Proc(), g.Video(), src.img), tb, d.View().mods, raw, d.View().lines[d.visible], id);
    if d.state & 0x40 != 0 {
      AltPressed(g, d, tb.codes[raw].result, id, src, memory);
    } else {
      PlainPressed(g, d, tb, raw, id, src.img);
    }
  }

  /** A scancode that is a release, or the ignored one, changes nothing but the modifiers. */
  lemma ReleaseIs(s: State, tb: Keyboard.Tables, input: Keyboard.Input, raw: Byte, line: Keyboard.Line, id: int,
                  shown: nat)
    requires HasCurrent(s.p) && Mapped(s.v, s.p.top[s.p.visible]) && Keyboard.Shaped(tb, input)
    requires shown < Keyboard.TERMINALS
    ensures var m := Keyboard.UpdateMods(input.mods, raw);
            var next := Keyboard.Step(tb, input, Keyboard.Key(raw, shown));
            if raw == Keyboard.DELETE_SCAN_CODE then next == input && Handled(s, tb, m, raw, line, id) == s
            else if !tb.codes[raw].make then next == input.(mods := m) && Handled(s, tb, m, raw, line, id) == s
            else next == Keyboard.Pressed(tb, input.(mods := m), tb.codes[raw], shown)
  {
  }

  /** A make scancode without Alt. */
  method PlainPressed(g: Globals, d: Keyboard.Driver, tb: Keyboard.Tables, raw: Byte, ghost id: int,
                      ghost img: FileSystem.Image)
    requires g.Valid() && HasCurrent(g.Proc()) && Mapped(g.Video(), g.top[g.terminalState])
    requires d.Valid() && Keyboard.TablesOk(tb) && d.visible == g.terminalState && d.state & 0x40 == 0
    requires raw != Keyboard.DELETE_SCAN_CODE && tb.codes[raw].make
    modifies g, d.terminals[d.visible], d.terminals[d.visible].stdin
    ensures g.Valid() && d.Valid() && d.visible == g.terminalState && g.terminalState < NUM_TERMINALS
    ensures d.View() == Keyboard.Pressed(tb, old(d.View()), tb.codes[raw], g.terminalState)
    ensures var m := old(d.View()).mods;
            var line := old(d.View()).lines[old(d.visible)];
            var r := Handled(State(old(g.Proc()), old(g.Video()), img), tb, m, raw, line, id);
            g.Proc() == r.p && (!ColourKey(tb, m, raw) ==> g.Video() == r.v)
  {
    HandledIs(State(g.Proc(), g.Video(), img), tb, d.View().mods, raw, d.View().lines[d.visible], id);
    if d.state & 0x2 != 0 {
      ControlBranch(g, d.terminals[d.visible], tb.codes[raw].result);
    } else {
      TypePressed(g, d, tb, tb.codes[raw]);
    }
  }

  lemma HandledIs(s: State, tb: Keyboard.Tables, m: Keyboard.Mods, raw: Byte, line: Keyboard.Line, id: int)
    requires |tb.codes| == 256 && |tb.shifted| == 256 && raw != Keyboard.DELETE_SCAN_CODE && tb.codes[raw].make
    requires HasCurrent(s.p) && Mapped(s.v, s.p.top[s.p.visible])
    ensures var r, c := Handled(s, tb, m, raw, line, id), tb.codes[raw];
            if m.alt then r == AltHandled(s, c.result, id)
            else if m.control then r == ControlHandled(s, c.result, line)
            else r.p == Restored(s.p) && r.v == TypeAll(KeyboardView(s.p), s.v, Keyboard.Echo(tb, m, c, line))
  {
  }

  method AltPressed(g: Globals, d: Keyboard.Driver, result: Byte, id: int, src: Source, memory: array<Byte>)
    requires g.Valid() && HasCurrent(g.Proc()) && Mapped(g.Video(), g.top[g.terminalState]) && d.Valid()
    requires SourceOk(src) && memory.Length == Loader.MEMORY && Apart(d, memory)
    requires Paging.BlocksMapped(g.DirectoryUnder(src.kernel, g.top[g.terminalState]))
    modifies g, memory, d`visible
    ensures g.Valid() && d.Valid() && d.visible == g.terminalState && g.terminalState < NUM_TERMINALS
    ensures d.View() == old(d.View()).(visible := d.visible)
    ensures State(g.Proc(), g.Video(), src.img) ==
            AltHandled(State(old(g.Proc()), old(g.Video()), src.img), result, id)
    ensures memory[..] == AltMemory(old(g.Proc()), src.img, result, old(memory[..]))
  {
    AltBranch(g, result, id, src, memory);
    AltStaysOnTerminal(State(old(g.Proc()), old(g.Video()), src.img), result, id);
    d.visible := g.terminalState;
  }

  method TypePressed(g: Globals, d: Keyboard.Driver, tb: Keyboard.Tables, c: Keyboard.Code)
    requires g.Valid() && ProcOk(g.Proc()) && Mapped(g.Video(), g.top[g.terminalState])
    requires d.Valid() && |tb.shifted| == 256 && Keyboard.CodeOk(c, tb.shifted)
    modifies g`pages, g`x, g`y, g`cr3, d.terminals[d.visible], d.terminals[d.visible].stdin
    ensures g.Valid() && d.Valid() && g.Proc() == Restored(old(g.Proc()))
    ensures var s := old(d.View());
            && d.View() == s.(lines := s.lines[s.visible := Keyboard.KeyOnLine(tb, s.mods, c, s.lines[s.visible])])
            && g.Video() == TypeAll(KeyboardView(old(g.Proc())), old(g.Video()),
                                    Keyboard.Echo(tb, s.mods, c, s.lines[s.visible]))
  {
    ghost var s := d.View();
    var t := d.terminals[d.visible];
    assert t.Valid() && t.View() == s.lines[s.visible];
    TypeVisible(g, t, tb, Keyboard.Bits(d.state), c);
    assert forall i :: 0 <= i < NUM_TERMINALS && i != d.visible ==>
             d.terminals[i].Valid() && d.terminals[i].View() == s.lines[i];
    assert d.View().lines == s.lines[s.visible := t.View()];
  }

  /** The Control branch. */
  method ControlBranch(g: Globals, t: Keyboard.Terminal, result: Byte)
    requires g.Valid() && ProcOk(g.Proc()) && Mapped(g.Video(), g.top[g.terminalState]) && t.Valid()
    modifies g`pages, g`x, g`y, g`cursors, g`beingServiced, g`cr3
    ensures g.Valid() && g.Proc() == Restored(old(g.Proc()))
    ensures result == CLEAR_SHORTCUT ==>
              var k := KeyboardView(old(g.Proc())).(serviced := g.terminalState);
              g.Video() == WriteTerminal(k, ClearVideo(k, old(g.Video())), PROMPT + UpToNul(t.View().text))
    ensures result != CLEAR_SHORTCUT && result != ASCII_SIX && result != ASCII_SEVEN ==> g.Video() == old(g.Video())
  {
    g.cr3 := g.top[g.terminalState];
    if result == CLEAR_SHORTCUT {
      ClearBranch(g, t);
    }
    g.cr3 := g.top[g.beingServiced];
  }

  lemma AltStaysOnTerminal(s: State, result: Byte, id: int)
    requires HasCurrent(s.p) && Mapped(s.v, s.p.top[s.p.visible])
    ensures IsTerminal(AltHandled(s, result, id).p.visible)
  {
    AltKeyStays(s, 0, id);
    AltKeyStays(s, 1, id);
    AltKeyStays(s, 2, id);
  }

  lemma AltKeyStays(s: State, t: int, id: int)
    requires HasCurrent(s.p) && IsTerminal(t) && Mapped(s.v, s.p.top[s.p.visible])
    ensures IsTerminal(AltKeyStep(s, t, id).p.visible)
  {
  }
}
