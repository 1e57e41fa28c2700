/** What Alt-Fn does when no pid is left for the new terminal's shell: the code prints its message
    through the visible terminal's tables, but from the serviced terminal's cursor. */
module Refusal {
  import opened Bytes
  import opened TextScreen
  import opened Kernel
  import opened Refinement
  import opened Runs

  /** Terminal t cannot be launched: no pid is free. */
  predicate LaunchRefused(p: Proc, t: int) {
    IsTerminal(t) && t != 0 && t !in p.launched && LeastFree(p.used) == FAILURE
  }

  // ---------------------------------------------------------------------------------------
  // Where the message goes
  // ---------------------------------------------------------------------------------------

  /** The message is on the serviced terminal's own screen, and nothing else has changed. */
  ghost predicate Reported(s: State, r: State) {
    && ProcOk(s.p) && VideoOk(s.v) && VideoOk(r.v)
    && var was := Screens(s.p, s.v);
       Screens(r.p, r.v) == was[s.p.serviced := PutAll(was[s.p.serviced], UpToNul(REFUSED), s.v.attr)]
  }

  /** The key is handled, and its message is where it belongs. */
  ghost predicate StepReports(s: State, t: int, id: int) {
    Defined(s, AltKey(t, id)) && Reported(s, Step(s, AltKey(t, id)))
  }

  /** The state after the message. */
  function Refusing(s: State): State
    requires ProcOk(s.p) && Mapped(s.v, s.p.top[s.p.visible])
  {
    s.(p := Restored(s.p), v := WriteTerminal(KeyboardView(s.p), s.v, REFUSED))
  }

  lemma RefusalStep(s: State, a: Abstract, t: int, id: int)
    requires Related(s, a) && LaunchRefused(s.p, t)
    ensures Defined(s, AltKey(t, id)) && Step(s, AltKey(t, id)) == Refusing(s)
  {
    RelatedOk(s, a);
    TopPages(s.p, s.v, a.stacks, s.p.visible);
    AltKeyRefused(s, t, id);
  }

  lemma AltKeyRefused(s: State, t: int, id: int)
    requires HasCurrent(s.p) && Mapped(s.v, s.p.top[s.p.visible])
    requires LaunchRefused(s.p, t) && t != s.p.visible
    ensures AltKeyStep(s, t, id) == Refusing(s)
  {
  }

  /** The exact effect of a refused launch on the three screens. */
  lemma RefusalEffect(s: State, a: Abstract)
    requires Related(s, a)
    ensures Mapped(s.v, s.p.top[s.p.visible])
    ensures Screens(Refusing(s).p, Refusing(s).v) ==
            HandlerPrinted(Screens(s.p, s.v), s.p.visible, s.p.serviced, REFUSED, s.v.attr)
  {
    HandlerPrints(s.p, s.v, a.stacks, REFUSED);
    var r := Refusing(s);
    assert Screens(r.p, r.v) == Screens(s.p, r.v);
  }

  // ---------------------------------------------------------------------------------------
  // The message is visible wherever it is printed
  // ---------------------------------------------------------------------------------------

  /** The prompt's mark, ">". */
  const MARK: Byte := 62

  /** A character and the blank printed behind it: the character is on the page. */
  lemma MarkOnPage(s: Screen, attr: Byte)
    requires OnScreen(s)
    ensures Cell(MARK, attr) in PutChar(PutChar(s, MARK, attr), SPACE, attr).page
  {
    var i := CursorIndex(s);
    var m := PutChar(s, MARK, attr);
    var j := if Placed(s, MARK, attr).y >= ROWS then i - COLS else i;
    assert m.page[j] == Cell(MARK, attr) && CursorIndex(m) == j + 1;
    var p := Placed(m, SPACE, attr);
    assert p.page[j] == Cell(MARK, attr);
    if p.y >= ROWS {
      assert ScrolledPage(p.page, attr)[j - COLS] == p.page[j];
    }
  }

  /** The message ends in the mark and a blank. */
  lemma MessageOnPage(s: Screen, attr: Byte)
    requires OnScreen(s)
    ensures Cell(MARK, attr) in PutAll(s, UpToNul(REFUSED), attr).page
  {
    var n := |REFUSED| - 2;
    assert REFUSED[n] == MARK && REFUSED[n + 1] == SPACE;
    assert 0 !in NO_PROCESS && 0 !in PROMPT;
    assert REFUSED[..|REFUSED|] == REFUSED;
    UpToNulIs(REFUSED, |REFUSED|);
    assert REFUSED == REFUSED[..n] + [MARK] + [SPACE];
    PutAppend(s, REFUSED[..n] + [MARK], [SPACE], attr);
    PutAppend(s, REFUSED[..n], [MARK], attr);
    var before := PutAll(s, REFUSED[..n], attr);
    PutOne(before, MARK, attr);
    PutOne(PutChar(before, MARK, attr), SPACE, attr);
    MarkOnPage(before, attr);
  }

  // ---------------------------------------------------------------------------------------
  // Exactly when it is right
  // ---------------------------------------------------------------------------------------

  function NulPage(): (page: seq<Cell>)
    ensures |page| == PAGE_CELLS
  {
    seq(PAGE_CELLS, _ => Cell(0, 0))
  }

  predicate PagesOk(pages: seq<seq<Cell>>) {
    |pages| == NUM_TERMINALS + 1 && forall i :: 0 <= i <= NUM_TERMINALS ==> |pages[i]| == PAGE_CELLS
  }

  /** The same state with other things on the screens. */
  function WithPages(s: State, pages: seq<seq<Cell>>): State {
    s.(v := s.v.(pages := pages))
  }

  lemma WithPagesRelated(s: State, a: Abstract, pages: seq<seq<Cell>>) returns (b: Abstract)
    requires PagesOk(pages) && Related(s, a)
    ensures Related(WithPages(s, pages), b)
  {
    b := a.(screens := Screens(s.p, WithPages(s, pages).v));
    TablesFrame(s.p, s.v, s.p, WithPages(s, pages).v);
  }

  /** A message that is not on its own screen: it shows on the visible terminal's page, and the
      serviced terminal's page is as before. */
  ghost predicate Misplaced(s: State, r: State) {
    && ProcOk(s.p) && ProcOk(r.p) && VideoOk(s.v) && VideoOk(r.v) && s.p.serviced != s.p.visible
    && Screens(r.p, r.v)[s.p.serviced].page == Screens(s.p, s.v)[s.p.serviced].page
    && Cell(MARK, s.v.attr) in Screens(r.p, r.v)[s.p.visible].page
  }

  lemma BackgroundMisplaces(s: State, a: Abstract)
    requires Related(s, a) && s.p.serviced != s.p.visible
    ensures Mapped(s.v, s.p.top[s.p.visible]) && Misplaced(s, Refusing(s))
  {
    RefusalEffect(s, a);
    var was := Screens(s.p, s.v);
    var at := was[s.p.serviced];
    MessageOnPage(Screen(was[s.p.visible].page, at.x, at.y), s.v.attr);
  }

  /** A message misplaced on a page without such a mark is not where it belongs. */
  lemma MisplacedIsNotReported(s: State, r: State)
    requires Misplaced(s, r) && Cell(MARK, s.v.attr) !in Screens(s.p, s.v)[s.p.visible].page
    ensures !Reported(s, r)
  {
  }

  lemma ForegroundReports(s: State, a: Abstract)
    requires Related(s, a) && s.p.serviced == s.p.visible
    ensures Mapped(s.v, s.p.top[s.p.visible]) && Reported(s, Refusing(s))
  {
    RefusalEffect(s, a);
    ForegroundPrinted(Screens(s.p, s.v), s.p.visible, s.v.attr);
  }

  lemma ForegroundPrinted(screens: seq<Screen>, t: int, attr: Byte)
    requires |screens| == NUM_TERMINALS && IsTerminal(t)
    requires forall u :: 0 <= u < NUM_TERMINALS ==> OnScreen(screens[u])
    ensures HandlerPrinted(screens, t, t, REFUSED, attr) ==
            screens[t := PutAll(screens[t], UpToNul(REFUSED), attr)]
  {
    assert OnScreen(screens[t]);
    assert Screen(screens[t].page, screens[t].x, screens[t].y) == screens[t];
  }

  /** The message reaches the serviced terminal, whatever is on the screens, if and only if that
      terminal is the visible one. */
  lemma RefusalGuardExact(s: State, a: Abstract, t: int, id: int)
    requires Related(s, a) && LaunchRefused(s.p, t)
    ensures (forall pages :: PagesOk(pages) ==> StepReports(WithPages(s, pages), t, id)) <==>
            s.p.serviced == s.p.visible
  {
    if s.p.serviced == s.p.visible {
      forall pages | PagesOk(pages)
        ensures StepReports(WithPages(s, pages), t, id)
      {
        var b := WithPagesRelated(s, a, pages);
        RefusalStep(WithPages(s, pages), b, t, id);
        ForegroundReports(WithPages(s, pages), b);
      }
    } else {
      var pages := NulPages();
      var w := WithPages(s, pages);
      var b := WithPagesRelated(s, a, pages);
      RefusalStep(w, b, t, id);
      BackgroundMisplaces(w, b);
      NulScreen(w);
      MisplacedIsNotReported(w, Refusing(w));
      assert PagesOk(pages) && !StepReports(w, t, id);
    }
  }

  function NulPages(): (pages: seq<seq<Cell>>)
    ensures PagesOk(pages)
  {
    [NulPage(), NulPage(), NulPage(), NulPage()]
  }

  lemma NulScreen(s: State)
    requires ProcOk(s.p) && VideoOk(s.v) && s.v.pages == NulPages()
    ensures Cell(MARK, s.v.attr) !in Screens(s.p, s.v)[s.p.visible].page
  {
    assert Screens(s.p, s.v)[s.p.visible].page == NulPage();
  }

  // ---------------------------------------------------------------------------------------
  // A run that gets there
  // ---------------------------------------------------------------------------------------

  /** Pids 0 to k - 1 are in use, terminal 1 with the last of them in the foreground, and terminal 0
      is parked in the keyboard handler that launched terminal 1. */
  ghost predicate Loaded(p: Proc, k: int) {
    && ProcOk(p) && 2 <= k <= MAX_PROCS && (forall q :: q in p.used <==> 0 <= q < k)
    && p.visible == 1 && p.serviced == 1 && p.launched == {0, 1} && p.top[0] == 0
    && p.esp0 == StackTop(k - 1) && p.pcbs[k - 1].irq == [] && !InInterrupt(p.pcbs[k - 1].flags)
    && p.pcbs[0].irq == [FIRST_TERM_SHELL] && Parked(p.pcbs[0])
  }

  lemma ChildLoaded(p: Proc, k: int)
    requires Loaded(p, k) && k < MAX_PROCS
    ensures HasCurrent(p) && Current(p) == k - 1 && LeastFree(p.used) == k
    ensures Loaded(InternalExecute(p, true, USER_EXECUTE, 0), k + 1)
  {
    MaskFindsPcb(k - 1);
    assert k !in p.used && 0 in p.used;
  }

  /** One more shell in the foreground of terminal 1. */
  lemma OneMoreChild(s: State, a: Abstract, k: int, stack: seq<Byte>) returns (s': State, a': Abstract)
    requires Related(s, a) && Loaded(s.p, k) && k < MAX_PROCS && |stack| == 4
    ensures Run(s, [Execute(Loader.SHELL, stack, 0)], s') && Related(s', a')
    ensures Loaded(s'.p, k + 1) && a'.screens == a.screens
  {
    ChildLoaded(s.p, k);
    ShellStarts(s, stack);
    RelatedOk(s, a);
    s', a' := Extend(s, a, Execute(Loader.SHELL, stack, 0));
  }

  /** Shells until no pid is left. */
  lemma {:induction false} FillTable(s: State, a: Abstract, k: int, stack: seq<Byte>)
    returns (evs: seq<Event>, s': State, a': Abstract)
    requires Related(s, a) && Loaded(s.p, k) && |stack| == 4
    ensures Run(s, evs, s') && Related(s', a') && Loaded(s'.p, MAX_PROCS) && a'.screens == a.screens
    decreases MAX_PROCS - k
  {
    if k == MAX_PROCS {
      evs, s', a' := [], s, a;
    } else {
      var m, b := OneMoreChild(s, a, k, stack);
      evs, s', a' := FillTable(m, b, k + 1, stack);
      PathAppend(Guarded, s, [Execute(Loader.SHELL, stack, 0)], m, evs, s');
      evs := [Execute(Loader.SHELL, stack, 0)] + evs;
    }
  }

  /** The tick that puts terminal 0 in charge, and the rest of its keyboard handler. */
  lemma TickWhenFull(p: Proc)
    requires Loaded(p, MAX_PROCS)
    ensures CanTick(p) && HasCurrent(TickProc(p, 1)) && TickProc(p, 1).pcbs[Current(TickProc(p, 1))].irq != []
    ensures var f := FinishIrqProc(TickProc(p, 1));
            f.visible == 1 && f.serviced == 0 && f.launched == {0, 1} && f.used == p.used
  {
    MaskFindsPcb(0);
    MaskFindsPcb(MAX_PROCS - 1);
    assert 1 in p.launched && 2 !in p.launched;
  }

  lemma LaunchedOne(boot: State) returns (s: State, a: Abstract)
    requires Fresh(boot)
    ensures Run(Booted(boot), [AltKey(1, 0)], s) && Related(s, a) && Loaded(s.p, 2)
    ensures a.screens == Screens(boot.p, boot.v)
  {
    BootEffect(boot);
    BootRelated(boot);
    MaskFindsPcb(0);
    var s0 := Booted(boot);
    LaunchLoaded(s0.p);
    s, a := Extend(s0, BootAbstract(boot), AltKey(1, 0));
    LaunchIsStep(s0);
    RelatedOk(s0, BootAbstract(boot));
    assert 1 !in s0.p.launched;
    LaunchKeepsScreens(BootAbstract(boot), boot.img, a);
  }

  lemma LaunchLoaded(p: Proc)
    requires HasCurrent(p) && Current(p) == 0 && p.used == {0} && p.launched == {0} && p.top[0] == 0
    requires p.pcbs[0].irq == [] && p.pcbs[0].flags == FIRST_TERM_SHELL
    ensures LeastFree(p.used) == 1 && Loaded(LaunchProc(p, 1, 0), 2)
  {
    LaunchAfterBoot(p);
  }

  lemma LaunchKeepsScreens(a: Abstract, img: FileSystem.Image, b: Abstract)
    requires AbstractOk(a) && FileSystem.ImageOk(img) && AbstractStep(a, img, AltKey(1, 0), b)
    requires a.visible == 0 && LeastFree(Members(a.stacks)) != FAILURE
    ensures b.screens == a.screens
  {
  }

  /** A guarded run after which no pid is left, terminal 2 is not launched, and terminal 0 is
      served in the background. Nothing was printed on the way. */
  lemma BackgroundRefusal(boot: State, stack: seq<Byte>) returns (evs: seq<Event>, s: State, a: Abstract)
    requires Fresh(boot) && |stack| == 4
    ensures Run(Booted(boot), evs, s) && Related(s, a) && LaunchRefused(s.p, 2)
    ensures s.p.serviced == 0 && s.p.visible == 1 && a.screens == Screens(boot.p, boot.v)
  {
    var s1, a1 := LaunchedOne(boot);
    var fill, s2, a2 := FillTable(s1, a1, 2, stack);
    TickWhenFull(s2.p);
    var s3, a3 := Extend(s2, a2, Tick(1));
    s, a := Extend(s3, a3, FinishIrq);
    PathAppend(Guarded, Booted(boot), [AltKey(1, 0)], s1, fill, s2);
    PathAppend(Guarded, Booted(boot), [AltKey(1, 0)] + fill, s2, [Tick(1)], s3);
    PathAppend(Guarded, Booted(boot), [AltKey(1, 0)] + fill + [Tick(1)], s3, [FinishIrq], s);
    evs := [AltKey(1, 0)] + fill + [Tick(1)] + [FinishIrq];
  }

  /** Video memory as the kernel boots: the first 8000 cells, counted through all four pages, are blank.
      The last page keeps a tail that is not cleared. */
  ghost predicate ClearedAtBoot(pages: seq<seq<Cell>>) {
    && PagesOk(pages)
    && forall i, j :: 0 <= i <= NUM_TERMINALS && 0 <= j < PAGE_CELLS && i * PAGE_CELLS + j < CELLS * 4 ==>
         pages[i][j].ch == SPACE
  }

  /** The failing case is real: from every boot a run leads to a refused launch whose message shows on the
      visible terminal's page and not on the serviced one's. */
  lemma RefusalMisplacedFromBoot(boot: State, stack: seq<Byte>) returns (evs: seq<Event>, s: State)
    requires Fresh(boot) && ClearedAtBoot(boot.v.pages) && |stack| == 4
    ensures Run(Booted(boot), evs, s) && Defined(s, AltKey(2, 0))
    ensures Misplaced(s, Step(s, AltKey(2, 0))) && !StepReports(s, 2, 0)
  {
    var a;
    evs, s, a := BackgroundRefusal(boot, stack);
    NoMarkAtBoot(boot.v.pages, s.v.attr);
    assert a.screens[1].page == boot.v.pages[2];
    MisplacedNow(s, a);
  }

  /** Terminal 1's page holds no mark at boot. */
  lemma NoMarkAtBoot(pages: seq<seq<Cell>>, attr: Byte)
    requires ClearedAtBoot(pages)
    ensures Cell(MARK, attr) !in pages[2]
  {
    forall j | 0 <= j < PAGE_CELLS
      ensures pages[2][j] != Cell(MARK, attr)
    {
      assert 2 * PAGE_CELLS + j < CELLS * 4;
      assert pages[2][j].ch == SPACE;
    }
  }

  lemma MisplacedNow(s: State, a: Abstract)
    requires Related(s, a) && LaunchRefused(s.p, 2) && s.p.serviced == 0 && s.p.visible == 1
    requires |a.screens| == NUM_TERMINALS && Cell(MARK, s.v.attr) !in a.screens[1].page
    ensures Defined(s, AltKey(2, 0)) && Misplaced(s, Step(s, AltKey(2, 0))) && !StepReports(s, 2, 0)
  {
    RefusalStep(s, a, 2, 0);
    BackgroundMisplaces(s, a);
    assert a.screens == Screens(s.p, s.v);
    MisplacedIsNotReported(s, Refusing(s));
  }

  /** There is such a boot, and so such a run. */
  lemma MisplacedRunExists() returns (boot: State, evs: seq<Event>, s: State)
    ensures Fresh(boot) && ClearedAtBoot(boot.v.pages) && Run(Booted(boot), evs, s)
    ensures Defined(s, AltKey(2, 0)) && !StepReports(s, 2, 0)
  {
    boot := ClearedBoot();
    evs, s := RefusalMisplacedFromBoot(boot, [0, 0, 0, 0]);
  }

  lemma ClearedBoot() returns (boot: State)
    ensures Fresh(boot) && ClearedAtBoot(boot.v.pages)
  {
    var pages := BlankPages();
    boot := FreshExists();
    boot := WithPages(boot, pages);
  }

  lemma BlankPages() returns (pages: seq<seq<Cell>>)
    ensures ClearedAtBoot(pages)
  {
    var page: seq<Cell> := seq(PAGE_CELLS, _ => Blank(7));
    pages := seq(NUM_TERMINALS + 1, _ => page);
  }
}
