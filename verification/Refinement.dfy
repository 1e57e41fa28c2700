/** The kernel refines three independent terminals, each with its own process stack, its own
    screen and its own cursor. */
module Refinement {
  import opened Bytes
  import opened TextScreen
  import opened Kernel
  import opened Chains

  // ---------------------------------------------------------------------------------------
  // Where video output goes
  // ---------------------------------------------------------------------------------------

  /** The page a terminal's processes must write to: video memory for the visible terminal,
      its backing page otherwise. */
  function HomePage(visible: int, t: int): int {
    if t == visible then 0 else t + 1
  }

  function HomeAddress(visible: int, t: int): int {
    Paging.VIDEO + HomePage(visible, t) * Paging.PAGE
  }

  ghost predicate TableOk(p: Proc, v: Video, q: int)
    requires ProcOk(p) && VideoOk(v) && IsPid(q)
  {
    IsTerminal(p.pcbs[q].owner) && Paging.VideoMaps(v.tables[q], HomeAddress(p.visible, p.pcbs[q].owner))
  }

  /** Every used pid's table sends VIDEO to its owner's page and keeps the backing pages
      identity mapped. */
  ghost predicate TablesOk(p: Proc, v: Video) {
    ProcOk(p) && VideoOk(v) && forall q :: q in p.used ==> TableOk(p, v, q)
  }

  lemma HomeAligned(visible: int, t: int)
    requires IsTerminal(t)
    ensures HomeAddress(visible, t) % Paging.PAGE == 0
    ensures HomeAddress(visible, t) / Paging.PAGE == Paging.VIDEO_PAGE + HomePage(visible, t)
  {
  }

  /** Remapping on a switch sends every used table to its new home. */
  lemma SwitchTables(p: Proc, v: Video, to: int)
    requires TablesOk(p, v) && Mapped(v, p.cr3) && IsTerminal(to) && to != p.visible
    ensures TablesOk(p.(visible := to), ChangeTerminal(p, v, p.visible, to))
  {
    var w := ChangeTerminal(p, v, p.visible, to);
    forall q | q in p.used
      ensures TableOk(p.(visible := to), w, q)
    {
      assert TableOk(p, v, q);
      var owner := p.pcbs[q].owner;
      HomeAligned(to, owner);
      Paging.RemapVideo(v.tables[q], HomeAddress(p.visible, owner), HomeAddress(to, owner));
    }
  }

  /** Nothing but ownership, the used set, the visible terminal and the tables matters. */
  lemma TablesFrame(p: Proc, v: Video, r: Proc, w: Video)
    requires TablesOk(p, v) && ProcOk(r) && VideoOk(w)
    requires r.visible == p.visible && w.tables == v.tables && r.used <= p.used
    requires forall q :: q in r.used ==> r.pcbs[q].owner == p.pcbs[q].owner
    ensures TablesOk(r, w)
  {
    forall q | q in r.used
      ensures TableOk(r, w, q)
    {
      assert TableOk(p, v, q);
    }
  }

  /** What an execute does to the used set and the owners. */
  lemma ExecuteOwners(p: Proc, loadable: bool, flags: int, id: int)
    requires HasCurrent(p)
    ensures var r := InternalExecute(p, loadable, flags, id);
            && ProcOk(r) && r.visible == p.visible
            && r.used == (if Starts(p, loadable) then p.used + {LeastFree(p.used)} else p.used)
            && (Starts(p, loadable) ==> r.pcbs[LeastFree(p.used)].owner == p.visible)
            && forall q :: q in p.used ==> IsPid(q) && r.pcbs[q].owner == p.pcbs[q].owner
  {
  }

  /** What setting up a task does to the tables. */
  lemma SetupOneTable(v: Video, started: bool, pid: int)
    requires VideoOk(v)
    ensures var w := SetupTable(v, started, pid);
            && VideoOk(w) && (started && IsPid(pid) ==> w.tables[pid] == Paging.BaseTable())
            && forall q :: 0 <= q < MAX_PROCS && !(started && q == pid) ==> w.tables[q] == v.tables[q]
  {
  }

  /** A started process: its owner is the visible terminal and its table is fresh. */
  lemma StartTables(p: Proc, v: Video, loadable: bool, flags: int, id: int)
    requires TablesOk(p, v) && HasCurrent(p)
    ensures TablesOk(InternalExecute(p, loadable, flags, id),
                     SetupTable(v, Starts(p, loadable), LeastFree(p.used)))
  {
    ExecuteOwners(p, loadable, flags, id);
    SetupOneTable(v, Starts(p, loadable), LeastFree(p.used));
    TablesAfterStart(p, v, InternalExecute(p, loadable, flags, id),
                     SetupTable(v, Starts(p, loadable), LeastFree(p.used)), Starts(p, loadable), LeastFree(p.used));
  }

  lemma TablesAfterStart(p: Proc, v: Video, r: Proc, w: Video, started: bool, n: int)
    requires TablesOk(p, v) && ProcOk(r) && VideoOk(w) && r.visible == p.visible
    requires started ==> IsPid(n) && n !in p.used && r.pcbs[n].owner == p.visible && w.tables[n] == Paging.BaseTable()
    requires r.used == if started then p.used + {n} else p.used
    requires forall q :: q in p.used ==> IsPid(q) && r.pcbs[q].owner == p.pcbs[q].owner && w.tables[q] == v.tables[q]
    ensures TablesOk(r, w)
  {
    Paging.BaseVideo();
    forall q | q in r.used
      ensures TableOk(r, w, q)
    {
      if q in p.used {
        assert TableOk(p, v, q);
      }
    }
  }

  /** The video map survives every defined step - no foreground guard, and from any state that
      has it, chains or not. */
  lemma VideoMapKept(s: State, ev: Event)
    requires Defined(s, ev) && TablesOk(s.p, s.v)
    ensures TablesOk(Step(s, ev).p, Step(s, ev).v)
  {
    match ev
    case Execute(command, stack, id) =>
      StartTables(s.p, s.v, Loader.Loadable(s.img, command, stack), USER_EXECUTE, id);
    case Halt(status) =>
      HaltTables(s.p, s.v, status);
    case Exception =>
      TablesFrame(s.p, s.v, ReturnToParent(s.p, EXCEPTION_STATUS), s.v);
    case Write(text) =>
      TablesFrame(s.p, s.v, s.p, WriteTerminal(s.p, s.v, text));
    case Vidmap =>
      VidmapTables(s);
    case Tick(id) =>
      TablesFrame(s.p, s.v, TickProc(s.p, id), s.v);
    case FinishIrq =>
      TablesFrame(s.p, s.v, FinishIrqProc(s.p), s.v);
    case AltKey(t, id) =>
      AltKeyTables(s, t, id);
    case Poke(offset, c) =>
      TablesFrame(s.p, s.v, s.p, PokeVideo(s.p, s.v, offset, c));
    case TypeKey(c) =>
      TablesFrame(s.p, s.v, Restored(s.p), TypeChar(KeyboardView(s.p), s.v, c));
    case ClearKey(line) =>
      TablesFrame(s.p, s.v, Restored(s.p), Step(s, ev).v);
  }

  lemma HaltTables(p: Proc, v: Video, status: int)
    requires CanHalt(p) && TablesOk(p, v)
    ensures var c := p.pcbs[Current(p)];
            TablesOk(HaltProc(p, status), SetupTable(v, c.flags == FIRST_TERM_SHELL, LeastFree(p.used - {c.pid})))
  {
    var c := p.pcbs[Current(p)];
    if c.flags == FIRST_TERM_SHELL {
      var freed := p.(esp0 := c.esp0, used := p.used - {c.pid});
      TablesFrame(p, v, freed, v);
      StartTables(freed, v, true, FIRST_TERM_SHELL, 0);
    } else {
      TablesFrame(p, v, ReturnToParent(p, status), v);
    }
  }

  lemma VidmapTables(s: State)
    requires Defined(s, Vidmap) && TablesOk(s.p, s.v)
    ensures TablesOk(Step(s, Vidmap).p, Step(s, Vidmap).v)
  {
    var w := Step(s, Vidmap).v;
    forall q | q in s.p.used
      ensures TableOk(s.p, w, q)
    {
      assert TableOk(s.p, s.v, q);
      Paging.GrantVideo(s.v.tables[q], HomeAddress(s.p.visible, s.p.pcbs[q].owner));
    }
  }

  lemma AltKeyTables(s: State, t: int, id: int)
    requires Defined(s, AltKey(t, id)) && TablesOk(s.p, s.v)
    ensures TablesOk(AltKeyStep(s, t, id).p, AltKeyStep(s, t, id).v)
  {
    var k := KeyboardView(s.p);
    TablesFrame(s.p, s.v, k, s.v);
    var r := AltKeyStep(s, t, id);
    if t == s.p.visible {
      TablesFrame(s.p, s.v, r.p, r.v);
    } else if t in s.p.launched || t == 0 {
      SwitchTables(k, s.v, t);
      TablesFrame(k.(visible := t), r.v, r.p, r.v);
    } else if LeastFree(s.p.used) != FAILURE {
      SwitchTables(k, s.v, t);
      LaunchTables(s.p, ChangeTerminal(k, s.v, s.p.visible, t), t, id);
    } else {
      TablesFrame(s.p, s.v, r.p, r.v);
    }
  }

  lemma LaunchTables(p: Proc, w: Video, t: int, id: int)
    requires HasCurrent(p) && IsTerminal(t) && LeastFree(p.used) != FAILURE
    requires TablesOk(p.(visible := t, cr3 := p.top[p.visible]), w)
    ensures TablesOk(LaunchProc(p, t, id), SetupTable(w, true, LeastFree(p.used)))
  {
    var p2 := ParkedFor(p, t, id);
    TablesFrame(p.(visible := t, cr3 := p.top[p.visible]), w, p2, w);
    StartTables(p2, w, true, FIRST_TERM_SHELL, id);
  }

  // ---------------------------------------------------------------------------------------
  // Screens
  // ---------------------------------------------------------------------------------------

  /** What a terminal's user sees, or would see on switching to it. */
  function Logical(p: Proc, v: Video, t: int): Screen
    requires VideoOk(v) && IsTerminal(t)
  {
    if t == p.visible then Screen(v.pages[0], v.x, v.y)
    else Screen(v.pages[t + 1], v.cursors[t].x, v.cursors[t].y)
  }

  function Screens(p: Proc, v: Video): (r: seq<Screen>)
    requires VideoOk(v)
    ensures |r| == NUM_TERMINALS
    ensures forall t :: 0 <= t < NUM_TERMINALS ==> OnScreen(r[t])
  {
    [Logical(p, v, 0), Logical(p, v, 1), Logical(p, v, 2)]
  }

  /** Through the directory of a terminal's top process, VIDEO is the terminal's own page and
      the backing pages are themselves. */
  lemma TopPages(p: Proc, v: Video, st: Stacks, t: int)
    requires Chained(p, st) && TablesOk(p, v) && 0 <= t < NUM_TERMINALS && st[t] != []
    ensures Mapped(v, p.top[t])
    ensures PageIndex(v, p.top[t], 0) == HomePage(p.visible, t)
    ensures forall k :: 1 <= k <= NUM_TERMINALS ==> PageIndex(v, p.top[t], k) == k
  {
    OwnerIs(p.pcbs, p.used, st, t, |st[t]| - 1);
    var q := p.top[t];
    assert TableOk(p, v, q);
    HomeAligned(p.visible, t);
    forall k | 0 <= k <= NUM_TERMINALS
      ensures MappedPage(v, q, k) && PageIndex(v, q, k) == if k == 0 then HomePage(p.visible, t) else k
    {
      var e := v.tables[q][Paging.VIDEO_PAGE + k];
      if k > 0 {
        assert e == Paging.VIDEO + k * Paging.PAGE + Paging.PRESENT;
      } else {
        assert e / Paging.PAGE == Paging.AddressAssign(e) / Paging.PAGE;
      }
    }
  }

  /** A terminal switch changes no terminal's screen and no terminal's cursor. */
  lemma SwitchKeepsScreens(p: Proc, v: Video, st: Stacks, to: int)
    requires Chained(p, st) && TablesOk(p, v) && IsTerminal(to) && to != p.visible
    ensures Mapped(v, p.top[p.visible])
    ensures Screens(p.(visible := to), ChangeTerminal(KeyboardView(p), v, p.visible, to)) == Screens(p, v)
  {
    TopPages(p, v, st, p.visible);
    var w := ChangeTerminal(KeyboardView(p), v, p.visible, to);
    var from := p.visible;
    assert w.pages == v.pages[from + 1 := v.pages[0]][0 := v.pages[to + 1]];
  }

  /** Output that reaches the serviced terminal's own page changes its screen and cursor only. */
  lemma WrittenScreens(p: Proc, v: Video, text: seq<Byte>)
    requires ProcOk(p) && Mapped(v, p.cr3) && PageIndex(v, p.cr3, 0) == HomePage(p.visible, p.serviced)
    ensures Screens(p, WriteTerminal(p, v, text)) ==
            Screens(p, v)[p.serviced := PutAll(Screens(p, v)[p.serviced], UpToNul(text), v.attr)]
  {
  }

  /** Output of the serviced terminal changes its own screen and cursor only, whether or not
      it is visible. */
  lemma WriteChangesOwnScreen(p: Proc, v: Video, st: Stacks, text: seq<Byte>)
    requires Chained(p, st) && TablesOk(p, v)
    ensures Mapped(v, p.cr3)
    ensures Screens(p, WriteTerminal(p, v, text)) ==
            Screens(p, v)[p.serviced := PutAll(Screens(p, v)[p.serviced], UpToNul(text), v.attr)]
  {
    TopPages(p, v, st, p.serviced);
    WrittenScreens(p, v, text);
  }

  /** The same for text written on behalf of the visible terminal from the keyboard. */
  lemma WriteChangesVisible(p: Proc, v: Video, st: Stacks, text: seq<Byte>)
    requires Chained(p, st) && TablesOk(p, v)
    ensures Mapped(v, p.top[p.visible])
    ensures Screens(p, WriteTerminal(KeyboardView(p).(serviced := p.visible), v, text)) ==
            Screens(p, v)[p.visible := PutAll(Screens(p, v)[p.visible], UpToNul(text), v.attr)]
  {
    TopPages(p, v, st, p.visible);
    WrittenScreens(KeyboardView(p).(serviced := p.visible), v, text);
  }

  /** Text printed from the keyboard handler on behalf of the serviced terminal: it appears on the
      visible page, but from the serviced terminal's cursor, which moves. */
  function HandlerPrinted(screens: seq<Screen>, visible: int, serviced: int, text: seq<Byte>, attr: Byte): seq<Screen>
    requires |screens| == NUM_TERMINALS && IsTerminal(visible) && IsTerminal(serviced)
    requires forall t :: 0 <= t < NUM_TERMINALS ==> OnScreen(screens[t])
  {
    assert OnScreen(screens[visible]) && OnScreen(screens[serviced]);
    var at := screens[serviced];
    var s := PutAll(Screen(screens[visible].page, at.x, at.y), UpToNul(text), attr);
    var put := screens[visible := screens[visible].(page := s.page)];
    put[serviced := put[serviced].(x := s.x, y := s.y)]
  }

  lemma HandlerPrints(p: Proc, v: Video, st: Stacks, text: seq<Byte>)
    requires Chained(p, st) && TablesOk(p, v)
    ensures Mapped(v, p.top[p.visible])
    ensures Screens(p, WriteTerminal(KeyboardView(p), v, text)) ==
            HandlerPrinted(Screens(p, v), p.visible, p.serviced, text, v.attr)
  {
    TopPages(p, v, st, p.visible);
  }

  /** What user code stores in VIDEO appears on its own terminal's screen only, visible or not. */
  lemma PokeChangesOwnScreen(p: Proc, v: Video, st: Stacks, offset: nat, c: Byte)
    requires Chained(p, st) && TablesOk(p, v) && offset < Paging.PAGE
    ensures Mapped(v, p.cr3)
    ensures var s := Screens(p, v)[p.serviced];
            Screens(p, PokeVideo(p, v, offset, c)) ==
            Screens(p, v)[p.serviced := s.(page := Poked(s.page, offset, c))]
  {
    TopPages(p, v, st, p.serviced);
  }

  lemma TypeChangesVisible(p: Proc, v: Video, st: Stacks, c: Byte)
    requires Chained(p, st) && TablesOk(p, v)
    ensures Mapped(v, p.top[p.visible])
    ensures Screens(p, TypeChar(KeyboardView(p), v, c)) ==
            Screens(p, v)[p.visible := PutChar(Screens(p, v)[p.visible], c, v.attr)]
  {
    TopPages(p, v, st, p.visible);
  }

  /** A page after it was cleared: 2000 blanks, and what is behind the screen as before. */
  ghost predicate ClearedPage(before: seq<Cell>, after: seq<Cell>, attr: Byte) {
    && |before| == |after| == 2048
    && (forall k :: 0 <= k < 2000 ==> after[k] == Cell(32, attr))
    && after[2000..] == before[2000..]
  }

  /** Clearing blanks every cell of the page the active directory leads to and changes no other page; both
      cursors go to the corner. */
  lemma ClearBlanks(p: Proc, v: Video)
    requires ProcOk(p) && Mapped(v, p.cr3)
    ensures MappedPage(v, p.cr3, 0)
    ensures var w, i := ClearVideo(p, v), PageIndex(v, p.cr3, 0);
            && ClearedPage(v.pages[i], w.pages[i], v.attr)
            && w.pages == v.pages[i := w.pages[i]]
            && w.x == w.y == 0 && w.cursors == v.cursors[p.visible := Cursor(0, 0)]
            && w.tables == v.tables && w.directories == v.directories
  {
    assert MappedPage(v, p.cr3, 0);
    var i := PageIndex(v, p.cr3, 0);
    var w := ClearVideo(p, v);
    assert w.pages[i][2000..] == v.pages[i][2000..];
  }

  lemma BlankShows(page: seq<Cell>, attr: Byte)
    requires |page| == PAGE_CELLS
    ensures Shows(TextThenBlanks([], attr), BlankScreen(page, attr))
  {
    assert BlankScreen(page, attr).page[..CELLS] == TextThenBlanks([], attr).cells;
  }

  lemma ClearChangesVisible(p: Proc, v: Video, st: Stacks)
    requires Chained(p, st) && TablesOk(p, v)
    ensures Mapped(v, p.top[p.visible])
    ensures var w := ClearVideo(KeyboardView(p).(serviced := p.visible), v);
            && TablesOk(p, w) && w.attr == v.attr
            && Screens(p, w) == Screens(p, v)[p.visible := BlankScreen(Screens(p, v)[p.visible].page, v.attr)]
  {
    TopPages(p, v, st, p.visible);
    TablesFrame(p, v, p, ClearVideo(KeyboardView(p).(serviced := p.visible), v));
  }

  // ---------------------------------------------------------------------------------------
  // Three independent terminals
  // ---------------------------------------------------------------------------------------

  /** The simple view: per terminal a process stack, how many keyboard handlers are on the kernel stack of
      its top process, and a screen with its cursor. */
  datatype Abstract = Abstract(stacks: Stacks, busy: seq<nat>, screens: seq<Screen>, visible: int, serviced: int,
                               attr: Byte)

  /** The keyboard handlers on the kernel stack of a terminal's top process. */
  function Handlers(pcbs: seq<Pcb>, stk: seq<int>): nat
    requires |pcbs| == MAX_PROCS
  {
    if stk == [] || !IsPid(Last(stk)) then 0 else |pcbs[Last(stk)].irq|
  }

  function BusyOf(pcbs: seq<Pcb>, st: Stacks): (r: seq<nat>)
    requires |pcbs| == MAX_PROCS && |st| == NUM_TERMINALS
  {
    [Handlers(pcbs, st[0]), Handlers(pcbs, st[1]), Handlers(pcbs, st[2])]
  }

  /** Replacing one stack, when the processes of the others are left alone. */
  lemma ReplaceBusy(pcbs: seq<Pcb>, pcbs': seq<Pcb>, used: set<int>, st: Stacks, t: int, stk': seq<int>)
    requires |pcbs| == |pcbs'| == MAX_PROCS && Forest(pcbs, used, st) && 0 <= t < NUM_TERMINALS
    requires stk' != [] && IsPid(Last(stk'))
    requires forall q :: q in used && IsPid(q) && pcbs[q].owner != t ==> pcbs'[q].irq == pcbs[q].irq
    ensures BusyOf(pcbs', st[t := stk']) == BusyOf(pcbs, st)[t := |pcbs'[Last(stk')].irq|]
  {
    forall u | 0 <= u < NUM_TERMINALS && u != t
      ensures Handlers(pcbs', st[u]) == Handlers(pcbs, st[u])
    {
      if st[u] != [] {
        OwnerIs(pcbs, used, st, u, |st[u]| - 1);
      }
    }
  }

  /** A step of the serviced terminal whose new top process has no keyboard handler on its stack. */
  lemma IdleBusy(p: Proc, pcbs': seq<Pcb>, st: Stacks, stk': seq<int>)
    requires Chained(p, st) && HasCurrent(p) && p.pcbs[Current(p)].irq == [] && |pcbs'| == MAX_PROCS
    requires stk' != [] && IsPid(Last(stk')) && pcbs'[Last(stk')].irq == []
    requires forall q :: q in p.used && IsPid(q) && p.pcbs[q].owner != p.serviced ==> pcbs'[q].irq == p.pcbs[q].irq
    ensures BusyOf(pcbs', st[p.serviced := stk']) == BusyOf(p.pcbs, st)
  {
    CurrentIsTop(p, st);
    ReplaceBusy(p.pcbs, pcbs', p.used, st, p.serviced, stk');
  }

  /** A change of the running process's PCB. */
  lemma CurrentBusy(p: Proc, pcbs': seq<Pcb>, st: Stacks)
    requires Chained(p, st) && HasCurrent(p) && SameElsewhere(p.pcbs, pcbs', Current(p), Current(p))
    ensures BusyOf(pcbs', st) == BusyOf(p.pcbs, st)[p.serviced := |pcbs'[Current(p)].irq|]
  {
    CurrentIsTop(p, st);
    OwnerIs(p.pcbs, p.used, st, p.serviced, |st[p.serviced]| - 1);
    ReplaceBusy(p.pcbs, pcbs', p.used, st, p.serviced, st[p.serviced]);
    assert st[p.serviced := st[p.serviced]] == st;
  }

  ghost function Members(st: Stacks): set<int> {
    set t, i | 0 <= t < |st| && 0 <= i < |st[t]| :: st[t][i]
  }

  function LaunchedOf(st: Stacks): set<int> {
    set t | 0 <= t < |st| && st[t] != []
  }

  ghost predicate AbstractOk(a: Abstract) {
    && |a.stacks| == NUM_TERMINALS && |a.busy| == NUM_TERMINALS && |a.screens| == NUM_TERMINALS
    && (forall t :: 0 <= t < NUM_TERMINALS ==> OnScreen(a.screens[t]))
    && IsTerminal(a.visible) && IsTerminal(a.serviced) && a.stacks[a.serviced] != []
  }

  function Popped(a: Abstract): Abstract
    requires IsTerminal(a.serviced) && |a.stacks| == NUM_TERMINALS && a.stacks[a.serviced] != []
  {
    var stk := a.stacks[a.serviced];
    a.(stacks := a.stacks[a.serviced := stk[..|stk| - 1]])
  }

  function Printed(a: Abstract, t: int, text: seq<Byte>): Abstract
    requires IsTerminal(t) && |a.screens| == NUM_TERMINALS && OnScreen(a.screens[t])
  {
    a.(screens := a.screens[t := PutAll(a.screens[t], UpToNul(text), a.attr)])
  }

  /** The message of a refused launch, as the code prints it. */
  function Refused(a: Abstract): Abstract
    requires |a.screens| == NUM_TERMINALS && IsTerminal(a.visible) && IsTerminal(a.serviced)
    requires forall t :: 0 <= t < NUM_TERMINALS ==> OnScreen(a.screens[t])
  {
    a.(screens := HandlerPrinted(a.screens, a.visible, a.serviced, REFUSED, a.attr))
  }

  /** A byte stored on the serviced terminal's own page. */
  function PokedOwn(a: Abstract, offset: nat, c: Byte): Abstract
    requires |a.screens| == NUM_TERMINALS && IsTerminal(a.serviced) && OnScreen(a.screens[a.serviced])
    requires offset < Paging.PAGE
  {
    var s := a.screens[a.serviced];
    a.(screens := a.screens[a.serviced := s.(page := Poked(s.page, offset, c))])
  }

  /** What each event means for the three terminals. A child belongs to the terminal of the
      process that executed it; output goes to the screen of the process that wrote it. */
  ghost predicate AbstractStep(a: Abstract, img: FileSystem.Image, ev: Event, b: Abstract)
    requires AbstractOk(a) && FileSystem.ImageOk(img)
  {
    var stk := a.stacks[a.serviced];
    var free := LeastFree(Members(a.stacks));
    match ev
    case Execute(command, stack, _) =>
      |stack| == 4 &&
      b == if free != FAILURE && Loader.Loadable(img, command, stack)
           then a.(stacks := a.stacks[a.serviced := stk + [free]]) else a
    case Halt(_) =>
      b == if |stk| == 1
           then a.(stacks := a.stacks[a.serviced := [LeastFree(Members(a.stacks) - {stk[0]})]])
           else Popped(a)
    case Exception => b == Popped(a)
    case Write(text) => b == Printed(a, a.serviced, text)
    case Vidmap => b == a
    case Poke(offset, c) => offset < Paging.PAGE && b == PokedOwn(a, offset, c)
    case Tick(_) =>
      b == if a.busy[a.serviced] == 0 then a.(serviced := NextStack(a.stacks, a.serviced)) else a
    case FinishIrq => a.busy[a.serviced] > 0 && b == a.(busy := a.busy[a.serviced := a.busy[a.serviced] - 1])
    case AltKey(t, _) =>
      IsTerminal(t) &&
      b == if t == a.visible || a.stacks[t] != [] then a.(visible := t)
           else if free != FAILURE then
             a.(stacks := a.stacks[t := [free]], visible := t, serviced := t,
                busy := a.busy[a.serviced := a.busy[a.serviced] + 1][t := 0])
           else Refused(a)
    case TypeKey(c) =>
      b == a.(screens := a.screens[a.visible := PutChar(a.screens[a.visible], c, a.attr)])
    case ClearKey(line) =>
      b == Printed(a.(screens := a.screens[a.visible := BlankScreen(a.screens[a.visible].page, a.attr)]),
                   a.visible, PROMPT + UpToNul(line))
  }

  ghost predicate Related(s: State, a: Abstract) {
    && Loader.ShellReady(s.img)
    && Chained(s.p, a.stacks) && TablesOk(s.p, s.v)
    && a.busy == BusyOf(s.p.pcbs, a.stacks) && a.screens == Screens(s.p, s.v)
    && a.visible == s.p.visible && a.serviced == s.p.serviced && a.attr == s.v.attr
  }

  /** When an event may happen. System calls and exceptions come from user code, so no handler
      is on the stack; exceptions are those of non-root processes. The foreground guard: a
      process starts or a first shell restarts only while the serviced terminal is the visible
      one. */
  ghost predicate Guard(s: State, ev: Event) {
    && StateOk(s)
    && var c := s.p.pcbs[Current(s.p)];
       match ev
       case Execute(command, stack, _) =>
         |stack| == 4 && c.irq == [] && (ExecuteStarts(s, command, stack) ==> s.p.serviced == s.p.visible)
       case Halt(_) => c.irq == [] && (c.flags == FIRST_TERM_SHELL ==> s.p.serviced == s.p.visible)
       case Exception => c.irq == [] && c.flags == USER_EXECUTE
       case Write(_) => c.irq == []
       case Vidmap => c.irq == []
       case Poke(offset, _) => c.irq == [] && MayPoke(s.p, s.v, offset)
       case Tick(_) => true
       case FinishIrq => c.irq != []
       case AltKey(t, _) => IsTerminal(t)
       case TypeKey(_) => true
       case ClearKey(_) => true
  }

  lemma UsedIsMembers(p: Proc, st: Stacks)
    requires Chained(p, st)
    ensures p.used == Members(st) && p.launched == LaunchedOf(st)
  {
    forall q | q in p.used
      ensures q in Members(st)
    {
      assert Covered(p.pcbs, st, q);
    }
    forall q | q in Members(st)
      ensures q in p.used
    {
      var t, i :| 0 <= t < |st| && 0 <= i < |st[t]| && st[t][i] == q;
      OwnerIs(p.pcbs, p.used, st, t, i);
    }
  }

  lemma RelatedOk(s: State, a: Abstract)
    requires Related(s, a)
    ensures StateOk(s) && AbstractOk(a) && Current(s.p) == Last(a.stacks[a.serviced])
    ensures s.p.used == Members(a.stacks) && s.p.launched == LaunchedOf(a.stacks)
    ensures s.p.pcbs[Current(s.p)].irq == [] ==>
              s.p.pcbs[Current(s.p)].flags == if |a.stacks[a.serviced]| == 1 then FIRST_TERM_SHELL else USER_EXECUTE
    ensures s.p.pcbs[Current(s.p)].pid == Current(s.p) && Current(s.p) in s.p.used
    ensures a.busy[a.serviced] == |s.p.pcbs[Current(s.p)].irq|
  {
    CurrentIsTop(s.p, a.stacks);
    UsedIsMembers(s.p, a.stacks);
  }

  lemma ExecuteRefines(s: State, a: Abstract, command: seq<Byte>, stack: seq<Byte>, id: int) returns (b: Abstract)
    requires Related(s, a) && Guard(s, Execute(command, stack, id))
    ensures Defined(s, Execute(command, stack, id))
    ensures AbstractOk(a) && AbstractStep(a, s.img, Execute(command, stack, id), b)
    ensures Related(Step(s, Execute(command, stack, id)), b)
  {
    RelatedOk(s, a);
    b := Pushed(a, s.img, command, stack);
    PushedStep(a, s.img, command, stack, id);
    ExecuteRelated(s, a, command, stack, id);
  }

  /** A new process on the serviced terminal's stack, if one starts. */
  ghost function Pushed(a: Abstract, img: FileSystem.Image, command: seq<Byte>, stack: seq<Byte>): Abstract
    requires AbstractOk(a) && FileSystem.ImageOk(img) && |stack| == 4
  {
    var free := LeastFree(Members(a.stacks));
    if free != FAILURE && Loader.Loadable(img, command, stack)
    then a.(stacks := a.stacks[a.serviced := a.stacks[a.serviced] + [free]]) else a
  }

  lemma PushedStep(a: Abstract, img: FileSystem.Image, command: seq<Byte>, stack: seq<Byte>, id: int)
    requires AbstractOk(a) && FileSystem.ImageOk(img) && |stack| == 4
    ensures AbstractStep(a, img, Execute(command, stack, id), Pushed(a, img, command, stack))
  {
  }

  lemma ExecuteRelated(s: State, a: Abstract, command: seq<Byte>, stack: seq<Byte>, id: int)
    requires AbstractOk(a) && StateOk(s) && |stack| == 4 && Related(s, a) && Guard(s, Execute(command, stack, id))
    ensures Related(Step(s, Execute(command, stack, id)), Pushed(a, s.img, command, stack))
  {
    RelatedOk(s, a);
    VideoMapKept(s, Execute(command, stack, id));
    if ExecuteStarts(s, command, stack) {
      ExecutePushes(s.p, a.stacks, id);
      PushBusy(s.p, a.stacks, id);
    }
  }

  lemma PushBusy(p: Proc, st: Stacks, id: int)
    requires Chained(p, st) && LeastFree(p.used) != FAILURE && HasCurrent(p) && p.pcbs[Current(p)].irq == []
    ensures BusyOf(InternalExecute(p, true, USER_EXECUTE, id).pcbs,
                   st[p.serviced := st[p.serviced] + [LeastFree(p.used)]]) == BusyOf(p.pcbs, st)
  {
    CurrentIsTop(p, st);
    assert Current(p) in p.used;
    IdleBusy(p, InternalExecute(p, true, USER_EXECUTE, id).pcbs, st, st[p.serviced] + [LeastFree(p.used)]);
  }

  lemma PopBusy(p: Proc, st: Stacks, value: int)
    requires Chained(p, st) && |st[p.serviced]| > 1 && HasCurrent(p) && p.pcbs[Current(p)].irq == []
    ensures CanReturn(p)
    ensures BusyOf(ReturnToParent(p, value).pcbs, st[p.serviced := st[p.serviced][..|st[p.serviced]| - 1]]) ==
            BusyOf(p.pcbs, st)
  {
    ParentIs(p, st);
    OwnerIs(p.pcbs, p.used, st, p.serviced, |st[p.serviced]| - 1);
    IdleBusy(p, ReturnToParent(p, value).pcbs, st, st[p.serviced][..|st[p.serviced]| - 1]);
  }

  lemma RestartBusy(p: Proc, r: Proc, st: Stacks, n: int)
    requires Chained(p, st) && HasCurrent(p) && p.pcbs[Current(p)].irq == [] && |r.pcbs| == MAX_PROCS
    requires IsPid(n) && r.pcbs[n].irq == [] && forall q :: q in p.used && q != Current(p) ==> r.pcbs[q] == p.pcbs[q]
    ensures BusyOf(r.pcbs, st[p.serviced := [n]]) == BusyOf(p.pcbs, st)
  {
    CurrentIsTop(p, st);
    OwnerIs(p.pcbs, p.used, st, p.serviced, |st[p.serviced]| - 1);
    IdleBusy(p, r.pcbs, st, [n]);
  }

  lemma LaunchBusy(p: Proc, r: Proc, st: Stacks, t: int, c: int, n: int)
    requires Chained(p, st) && HasCurrent(p) && c == Current(p) && 0 <= t < NUM_TERMINALS && st[t] == []
    requires IsPid(n) && n !in p.used && SameElsewhere(p.pcbs, r.pcbs, n, c)
    requires r.pcbs[c].irq == p.pcbs[c].irq + [p.pcbs[c].flags] && r.pcbs[n].irq == []
    requires SameForStack(p.pcbs[c], r.pcbs[c], true)
    ensures BusyOf(r.pcbs, st[t := [n]]) ==
            BusyOf(p.pcbs, st)[p.serviced := BusyOf(p.pcbs, st)[p.serviced] + 1][t := 0]
  {
    CurrentIsTop(p, st);
    var parked := p.pcbs[c := r.pcbs[c]];
    CurrentBusy(p, parked, st);
    CurrentTouched(p, st, parked);
    ReplaceBusy(parked, r.pcbs, p.used, st, t, [n]);
  }

  /** Steps that touch no page and no cursor. */
  lemma ScreensFrame(p: Proc, v: Video, r: Proc, w: Video)
    requires VideoOk(v) && VideoOk(w) && r.visible == p.visible
    requires w.pages == v.pages && w.cursors == v.cursors && w.x == v.x && w.y == v.y
    ensures Screens(r, w) == Screens(p, v)
  {
  }

  lemma RestartRefines(s: State, a: Abstract, status: Byte) returns (b: Abstract)
    requires Related(s, a) && Guard(s, Halt(status)) && |a.stacks[a.serviced]| == 1
    ensures Defined(s, Halt(status))
    ensures AbstractOk(a) && AbstractStep(a, s.img, Halt(status), b)
    ensures Related(Step(s, Halt(status)), b)
  {
    RelatedOk(s, a);
    var c := a.stacks[a.serviced][0];
    var n := LeastFree(s.p.used - {c});
    assert n != FAILURE by { assert c !in s.p.used - {c}; }
    RestartReplaces(s.p, a.stacks);
    RestartEffect(s.p, c, n);
    VideoMapKept(s, Halt(status));
    var r := Step(s, Halt(status));
    ScreensFrame(s.p, s.v, r.p, r.v);
    RestartBusy(s.p, r.p, a.stacks, n);
    b := a.(stacks := a.stacks[a.serviced := [n]]);
  }

  /** A step of the processes that touches nothing of the video side. */
  lemma QuietRelated(s: State, a: Abstract, r: State, b: Abstract)
    requires Related(s, a) && r.img == s.img && r.v == s.v && TablesOk(r.p, r.v) && r.p.visible == s.p.visible
    requires Chained(r.p, b.stacks) && b.busy == BusyOf(r.p.pcbs, b.stacks)
    requires b.screens == a.screens && b.visible == a.visible && b.serviced == r.p.serviced && b.attr == a.attr
    ensures Related(r, b)
  {
    ScreensFrame(s.p, s.v, r.p, r.v);
  }

  /** Returning to a parent, by halt or by an exception. */
  lemma ReturnRelated(s: State, a: Abstract, value: int)
    requires Related(s, a) && AbstractOk(a) && |a.stacks[a.serviced]| > 1
    requires HasCurrent(s.p) && s.p.pcbs[Current(s.p)].irq == []
    ensures CanReturn(s.p) && Related(s.(p := ReturnToParent(s.p, value)), Popped(a))
  {
    ReturnPops(s.p, a.stacks, value);
    PopBusy(s.p, a.stacks, value);
    var r := ReturnToParent(s.p, value);
    TablesFrame(s.p, s.v, r, s.v);
    QuietRelated(s, a, s.(p := r), Popped(a));
  }

  lemma ReturnRefines(s: State, a: Abstract, status: Byte) returns (b: Abstract)
    requires Related(s, a) && Guard(s, Halt(status)) && |a.stacks[a.serviced]| > 1
    ensures Defined(s, Halt(status))
    ensures AbstractOk(a) && AbstractStep(a, s.img, Halt(status), b)
    ensures Related(Step(s, Halt(status)), b)
  {
    RelatedOk(s, a);
    ReturnRelated(s, a, status);
    b := Popped(a);
  }

  lemma ExceptionRefines(s: State, a: Abstract) returns (b: Abstract)
    requires Related(s, a) && Guard(s, Exception)
    ensures Defined(s, Exception)
    ensures AbstractOk(a) && AbstractStep(a, s.img, Exception, b)
    ensures Related(Step(s, Exception), b)
  {
    RelatedOk(s, a);
    ReturnRelated(s, a, EXCEPTION_STATUS);
    b := Popped(a);
  }

  lemma HaltRefines(s: State, a: Abstract, status: Byte) returns (b: Abstract)
    requires Related(s, a) && Guard(s, Halt(status))
    ensures Defined(s, Halt(status))
    ensures AbstractOk(a) && AbstractStep(a, s.img, Halt(status), b)
    ensures Related(Step(s, Halt(status)), b)
  {
    RelatedOk(s, a);
    if |a.stacks[a.serviced]| == 1 {
      b := RestartRefines(s, a, status);
    } else {
      b := ReturnRefines(s, a, status);
    }
  }

  lemma SwitchRefines(s: State, a: Abstract, t: int, id: int) returns (b: Abstract)
    requires AbstractOk(a) && IsTerminal(t) && (t == a.visible || a.stacks[t] != [])
    requires Related(s, a) && Guard(s, AltKey(t, id))
    ensures Defined(s, AltKey(t, id))
    ensures AbstractOk(a) && AbstractStep(a, s.img, AltKey(t, id), b)
    ensures Related(Step(s, AltKey(t, id)), b)
  {
    RelatedOk(s, a);
    TopPages(s.p, s.v, a.stacks, s.p.visible);
    VideoMapKept(s, AltKey(t, id));
    SwitchKeepsStacks(s.p, a.stacks, t);
    if t != s.p.visible {
      SwitchKeepsScreens(s.p, s.v, a.stacks, t);
    }
    b := a.(visible := t);
  }

  /** The three terminals after terminal t was launched with a shell. */
  function LaunchedAs(a: Abstract, t: int, n: int): Abstract
    requires |a.stacks| == NUM_TERMINALS && |a.busy| == NUM_TERMINALS && IsTerminal(a.serviced) && IsTerminal(t)
  {
    a.(stacks := a.stacks[t := [n]], visible := t, serviced := t,
       busy := a.busy[a.serviced := a.busy[a.serviced] + 1][t := 0])
  }

  lemma LaunchStacks(p: Proc, st: Stacks, t: int, id: int, n: int)
    requires Chained(p, st) && 0 <= t < NUM_TERMINALS && st[t] == [] && n == LeastFree(p.used) != FAILURE
    ensures HasCurrent(p)
    ensures var r := LaunchProc(p, t, id);
            && Chained(r, st[t := [n]]) && r.visible == t && r.serviced == t
            && BusyOf(r.pcbs, st[t := [n]]) ==
               BusyOf(p.pcbs, st)[p.serviced := BusyOf(p.pcbs, st)[p.serviced] + 1][t := 0]
  {
    CurrentIsTop(p, st);
    LaunchAddsStack(p, st, t, id);
    LaunchEffect(p, t, id, Current(p), n);
    var r := LaunchProc(p, t, id);
    InterruptedOk(p.pcbs[Current(p)], r.pcbs[Current(p)]);
    LaunchBusy(p, r, st, t, Current(p), n);
  }

  lemma LaunchScreens(p: Proc, v: Video, st: Stacks, r: Proc, t: int, n: int)
    requires Chained(p, st) && TablesOk(p, v) && IsTerminal(t) && t != p.visible && r.visible == t
    ensures Mapped(v, p.top[p.visible])
    ensures var w := SetupTable(ChangeTerminal(KeyboardView(p), v, p.visible, t), true, n);
            VideoOk(w) && Screens(r, w) == Screens(p, v) && w.attr == v.attr
  {
    SwitchKeepsScreens(p, v, st, t);
    var w := ChangeTerminal(KeyboardView(p), v, p.visible, t);
    SetupOneTable(w, true, n);
    ScreensFrame(p.(visible := t), w, r, SetupTable(w, true, n));
  }

  lemma LaunchRelated(r: State, b: Abstract)
    requires Loader.ShellReady(r.img) && Chained(r.p, b.stacks) && TablesOk(r.p, r.v)
    requires b.busy == BusyOf(r.p.pcbs, b.stacks) && b.screens == Screens(r.p, r.v)
    requires b.visible == r.p.visible && b.serviced == r.p.serviced && b.attr == r.v.attr
    ensures Related(r, b)
  {
  }

  lemma LaunchRefines(s: State, a: Abstract, t: int, id: int) returns (b: Abstract)
    requires AbstractOk(a) && IsTerminal(t) && a.stacks[t] == [] && LeastFree(s.p.used) != FAILURE
    requires Related(s, a) && Guard(s, AltKey(t, id))
    ensures Defined(s, AltKey(t, id))
    ensures AbstractOk(a) && AbstractStep(a, s.img, AltKey(t, id), b)
    ensures Related(Step(s, AltKey(t, id)), b)
  {
    RelatedOk(s, a);
    TopPages(s.p, s.v, a.stacks, s.p.visible);
    var n := LeastFree(s.p.used);
    LaunchStacks(s.p, a.stacks, t, id, n);
    var r := Step(s, AltKey(t, id));
    LaunchScreens(s.p, s.v, a.stacks, r.p, t, n);
    AltKeyTables(s, t, id);
    b := LaunchedAs(a, t, n);
    LaunchRelated(r, b);
  }

  lemma RefusedRefines(s: State, a: Abstract, t: int, id: int) returns (b: Abstract)
    requires AbstractOk(a) && IsTerminal(t) && a.stacks[t] == [] && LeastFree(s.p.used) == FAILURE
    requires Related(s, a) && Guard(s, AltKey(t, id))
    ensures Defined(s, AltKey(t, id))
    ensures AbstractOk(a) && AbstractStep(a, s.img, AltKey(t, id), b)
    ensures Related(Step(s, AltKey(t, id)), b)
  {
    RelatedOk(s, a);
    TopPages(s.p, s.v, a.stacks, s.p.visible);
    b := Refused(a);
    assert a.stacks[a.visible] != [];
    RefusedStep(a, s.img, t, id);
    RefusedRelated(s, a, t, id);
  }

  lemma RefusedRelated(s: State, a: Abstract, t: int, id: int)
    requires HasCurrent(s.p) && IsTerminal(t) && Mapped(s.v, s.p.top[s.p.visible])
    requires t != s.p.visible && t != 0 && t !in s.p.launched && LeastFree(s.p.used) == FAILURE
    requires AbstractOk(a) && Related(s, a)
    ensures Related(AltKeyStep(s, t, id), Refused(a))
  {
    var r := AltKeyStep(s, t, id);
    AltKeyTables(s, t, id);
    SwitchKeepsStacks(s.p, a.stacks, s.p.visible);
    assert s.p.(visible := s.p.visible) == s.p;
    HandlerPrints(s.p, s.v, a.stacks, REFUSED);
    assert Screens(r.p, r.v) == Screens(s.p, r.v);
  }

  lemma RefusedStep(a: Abstract, img: FileSystem.Image, t: int, id: int)
    requires AbstractOk(a) && FileSystem.ImageOk(img) && IsTerminal(t) && t != a.visible && a.stacks[t] == []
    requires LeastFree(Members(a.stacks)) == FAILURE
    ensures AbstractStep(a, img, AltKey(t, id), Refused(a))
  {
  }

  lemma AltKeyRefines(s: State, a: Abstract, t: int, id: int) returns (b: Abstract)
    requires Related(s, a) && Guard(s, AltKey(t, id))
    ensures Defined(s, AltKey(t, id))
    ensures AbstractOk(a) && AbstractStep(a, s.img, AltKey(t, id), b)
    ensures Related(Step(s, AltKey(t, id)), b)
  {
    RelatedOk(s, a);
    if t == a.visible || a.stacks[t] != [] {
      b := SwitchRefines(s, a, t, id);
    } else if LeastFree(s.p.used) != FAILURE {
      b := LaunchRefines(s, a, t, id);
    } else {
      b := RefusedRefines(s, a, t, id);
    }
  }

  lemma KeyRefines(s: State, a: Abstract, ev: Event) returns (b: Abstract)
    requires Related(s, a) && Guard(s, ev) && (ev.TypeKey? || ev.ClearKey?)
    ensures Defined(s, ev)
    ensures AbstractOk(a) && AbstractStep(a, s.img, ev, b)
    ensures Related(Step(s, ev), b)
  {
    RelatedOk(s, a);
    TopPages(s.p, s.v, a.stacks, s.p.visible);
    VideoMapKept(s, ev);
    match ev
    case TypeKey(c) =>
      TypeChangesVisible(s.p, s.v, a.stacks, c);
      b := a.(screens := a.screens[a.visible := PutChar(a.screens[a.visible], c, a.attr)]);
    case ClearKey(line) =>
      ClearChangesVisible(s.p, s.v, a.stacks);
      var w := ClearVideo(KeyboardView(s.p).(serviced := s.p.visible), s.v);
      WriteChangesVisible(s.p, w, a.stacks, PROMPT + UpToNul(line));
      b := Printed(a.(screens := a.screens[a.visible := BlankScreen(a.screens[a.visible].page, a.attr)]),
                   a.visible, PROMPT + UpToNul(line));
  }

  lemma WriteRefines(s: State, a: Abstract, text: seq<Byte>) returns (b: Abstract)
    requires Related(s, a) && Guard(s, Write(text))
    ensures Defined(s, Write(text))
    ensures AbstractOk(a) && AbstractStep(a, s.img, Write(text), b)
    ensures Related(Step(s, Write(text)), b)
  {
    RelatedOk(s, a);
    WriteChangesOwnScreen(s.p, s.v, a.stacks, text);
    VideoMapKept(s, Write(text));
    b := Printed(a, a.serviced, text);
  }

  lemma VidmapRefines(s: State, a: Abstract) returns (b: Abstract)
    requires Related(s, a) && Guard(s, Vidmap)
    ensures Defined(s, Vidmap)
    ensures AbstractOk(a) && AbstractStep(a, s.img, Vidmap, b)
    ensures Related(Step(s, Vidmap), b)
  {
    RelatedOk(s, a);
    VideoMapKept(s, Vidmap);
    b := a;
  }

  /** The part of TickExact that the abstract step shows. */
  lemma TickServes(p: Proc, st: Stacks, id: int)
    requires Chained(p, st) && HasCurrent(p) && CanTick(p)
    ensures var r := TickProc(p, id);
            && |r.pcbs| == MAX_PROCS && BusyOf(r.pcbs, st) == BusyOf(p.pcbs, st) && r.visible == p.visible
            && r.serviced == if p.pcbs[Current(p)].irq == [] then NextStack(st, p.serviced) else p.serviced
  {
    TickExact(p, st, id);
    CurrentBusy(p, TickProc(p, id).pcbs, st);
    CurrentIsTop(p, st);
  }

  lemma TickRefines(s: State, a: Abstract, id: int) returns (b: Abstract)
    requires Related(s, a) && Guard(s, Tick(id))
    ensures Defined(s, Tick(id))
    ensures AbstractOk(a) && AbstractStep(a, s.img, Tick(id), b)
    ensures Related(Step(s, Tick(id)), b)
  {
    RelatedOk(s, a);
    TickKeepsStacks(s.p, a.stacks, id);
    VideoMapKept(s, Tick(id));
    b := a.(serviced := TickProc(s.p, id).serviced);
    TickServes(s.p, a.stacks, id);
    QuietRelated(s, a, Step(s, Tick(id)), b);
  }

  lemma FinishRelated(s: State, a: Abstract)
    requires Related(s, a) && AbstractOk(a) && a.busy[a.serviced] > 0
    requires HasCurrent(s.p) && s.p.pcbs[Current(s.p)].irq != []
    requires a.busy[a.serviced] == |s.p.pcbs[Current(s.p)].irq|
    ensures Related(s.(p := FinishIrqProc(s.p)), a.(busy := a.busy[a.serviced := a.busy[a.serviced] - 1]))
  {
    FinishIrqKeepsStacks(s.p, a.stacks);
    var r := FinishIrqProc(s.p);
    CurrentBusy(s.p, r.pcbs, a.stacks);
    TablesFrame(s.p, s.v, r, s.v);
    QuietRelated(s, a, s.(p := r), a.(busy := a.busy[a.serviced := a.busy[a.serviced] - 1]));
  }

  lemma FinishIrqRefines(s: State, a: Abstract) returns (b: Abstract)
    requires Related(s, a) && Guard(s, FinishIrq)
    ensures Defined(s, FinishIrq)
    ensures AbstractOk(a) && AbstractStep(a, s.img, FinishIrq, b)
    ensures Related(Step(s, FinishIrq), b)
  {
    RelatedOk(s, a);
    FinishRelated(s, a);
    b := a.(busy := a.busy[a.serviced := a.busy[a.serviced] - 1]);
  }

  lemma PokeRefines(s: State, a: Abstract, offset: nat, c: Byte) returns (b: Abstract)
    requires Related(s, a) && Guard(s, Poke(offset, c))
    ensures Defined(s, Poke(offset, c))
    ensures AbstractOk(a) && AbstractStep(a, s.img, Poke(offset, c), b)
    ensures Related(Step(s, Poke(offset, c)), b)
  {
    RelatedOk(s, a);
    VideoMapKept(s, Poke(offset, c));
    PokeChangesOwnScreen(s.p, s.v, a.stacks, offset, c);
    b := PokedOwn(a, offset, c);
  }

  /** Every guarded step is defined - no wild pointer, no page fault - and is a step of the
      three independent terminals. */
  lemma StepRefines(s: State, a: Abstract, ev: Event) returns (b: Abstract)
    requires Related(s, a) && Guard(s, ev)
    ensures Defined(s, ev)
    ensures AbstractOk(a) && AbstractStep(a, s.img, ev, b)
    ensures Related(Step(s, ev), b)
  {
    RelatedOk(s, a);
    match ev
    case Execute(command, stack, id) => b := ExecuteRefines(s, a, command, stack, id);
    case Halt(status) => b := HaltRefines(s, a, status);
    case Exception => b := ExceptionRefines(s, a);
    case Write(text) => b := WriteRefines(s, a, text);
    case Vidmap => b := VidmapRefines(s, a);
    case Poke(offset, c) => b := PokeRefines(s, a, offset, c);
    case Tick(id) => b := TickRefines(s, a, id);
    case FinishIrq => b := FinishIrqRefines(s, a);
    case AltKey(t, id) => b := AltKeyRefines(s, a, t, id);
    case TypeKey(_) => b := KeyRefines(s, a, ev);
    case ClearKey(_) => b := KeyRefines(s, a, ev);
  }
}
