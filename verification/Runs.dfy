/** What holds over whole runs of the kernel. */
module Runs {
  import opened Bytes
  import opened Kernel
  import opened Chains
  import opened Refinement

  // ---------------------------------------------------------------------------------------
  // Boot and runs
  // ---------------------------------------------------------------------------------------

  /** The machine just before the first shell: no process, the kernel's own stack and page
      directory, terminal 0 visible and serviced. PCB contents are arbitrary. */
  ghost predicate Fresh(s: State) {
    && s.p.used == {} && |s.p.pcbs| == MAX_PROCS && s.p.top == [0, 0, 0]
    && s.p.launched == {0} && s.p.visible == 0 && s.p.serviced == 0
    && s.p.esp0 == STACK_START && s.p.cr3 == KERNEL_DIRECTORY
    && VideoOk(s.v) && Loader.ShellReady(s.img)
  }

  /** There is such a machine. */
  lemma FreshExists() returns (s: State)
    ensures Fresh(s)
  {
    var img := Loader.ShellImage();
    var v := BlankVideo();
    var pcbs := seq(MAX_PROCS, i => Pcb(0, 0, 0, 0, 0, 0, NoLabel, NoFrame, []));
    s := State(Proc({}, pcbs, [0, 0, 0], {0}, 0, 0, STACK_START, KERNEL_DIRECTORY, Unchanged), v, img);
  }

  lemma BlankVideo() returns (v: Video)
    ensures VideoOk(v)
  {
    var table: Paging.Table := seq(Paging.ENTRIES, i => 0);
    var page := seq(TextScreen.PAGE_CELLS, i => TextScreen.Cell(0, 0));
    var all := seq(MAX_PROCS, i => table);
    var corners := seq(NUM_TERMINALS, i => Cursor(0, 0));
    v := Video(all, all, 0, seq(NUM_TERMINALS + 1, i => page), corners, 0, 0, 0);
  }

  lemma FreshCurrent(s: State)
    requires Fresh(s)
    ensures HasCurrent(s.p) && Current(s.p) == 0 && LeastFree(s.p.used) == 0
  {
    MaskFindsPcb(0);
    assert StackTop(0) == STACK_START;
    assert 0 !in s.p.used;
  }

  /** Running the first shell. Its PCB is the very slot the boot stack lies in. */
  ghost function Booted(s: State): State
    requires Fresh(s)
  {
    FreshCurrent(s);
    s.(p := InternalExecute(s.p, true, FIRST_TERM_SHELL, 0), v := SetupTable(s.v, true, 0))
  }

  const BOOT_STACKS: Stacks := [[0], [], []]

  ghost function BootAbstract(s: State): Abstract
    requires Fresh(s)
  {
    Abstract(BOOT_STACKS, [0, 0, 0], Screens(s.p, s.v), 0, 0, s.v.attr)
  }

  lemma BootEffect(s: State)
    requires Fresh(s)
    ensures var r := Booted(s).p;
            && r.used == {0} && |r.pcbs| == MAX_PROCS && r.top == [0, 0, 0] && r.launched == {0}
            && r.visible == 0 && r.serviced == 0 && r.esp0 == StackTop(0) && r.cr3 == 0
            && r.pcbs[0].pid == 0 && r.pcbs[0].owner == 0 && r.pcbs[0].flags == FIRST_TERM_SHELL
            && r.pcbs[0].irq == [] && r.pcbs[0].esp0 == StackTop(0) && r.pcbs[0].parent == 0
  {
    FreshCurrent(s);
  }

  lemma BootForest(pcbs: seq<Pcb>, used: set<int>)
    requires used == {0} && |pcbs| == MAX_PROCS && StackOk(pcbs, used, [0], 0) && pcbs[0].owner == 0
    ensures Forest(pcbs, used, BOOT_STACKS)
  {
    var st := BOOT_STACKS;
    assert st[0] == [0] && st[1] == [] && st[2] == [];
    assert Covered(pcbs, st, 0);
  }

  lemma BootChained(r: Proc)
    requires r.used == {0} && |r.pcbs| == MAX_PROCS && r.top == [0, 0, 0] && r.launched == {0}
    requires r.visible == 0 && r.serviced == 0 && r.esp0 == StackTop(0) && r.cr3 == 0
    requires r.pcbs[0].pid == 0 && r.pcbs[0].owner == 0 && r.pcbs[0].flags == FIRST_TERM_SHELL
    requires r.pcbs[0].irq == [] && r.pcbs[0].esp0 == StackTop(0) && r.pcbs[0].parent == 0
    ensures Chained(r, BOOT_STACKS)
  {
    MaskFindsPcb(0);
    RootStack(r.pcbs, r.used, 0, 0);
    BootForest(r.pcbs, r.used);
    assert BOOT_STACKS[0] == [0] && BOOT_STACKS[1] == [] && BOOT_STACKS[2] == [];
  }

  /** Boot establishes the invariant. */
  lemma BootRelated(s: State)
    requires Fresh(s)
    ensures Related(Booted(s), BootAbstract(s))
  {
    BootEffect(s);
    var r := Booted(s);
    BootChained(r.p);
    BootTables(r.p, s.v);
    ScreensFrame(s.p, s.v, r.p, r.v);
  }

  lemma BootTables(r: Proc, v: Video)
    requires ProcOk(r) && r.used == {0} && r.visible == 0 && r.pcbs[0].owner == 0 && VideoOk(v)
    ensures TablesOk(r, SetupTable(v, true, 0))
  {
    Paging.BaseVideo();
    assert TableOk(r, SetupTable(v, true, 0), 0);
  }

  /** Any step relation, taken along a list of events. */
  ghost predicate Path(r: (State, Event, State) -> bool, s: State, evs: seq<Event>, s': State)
    decreases |evs|
  {
    if evs == [] then s' == s
    else exists m :: r(s, evs[0], m) && Path(r, m, evs[1..], s')
  }

  lemma {:induction false} PathAppend(r: (State, Event, State) -> bool, s: State, evs: seq<Event>, m: State,
                                      more: seq<Event>, s': State)
    requires Path(r, s, evs, m) && Path(r, m, more, s')
    ensures Path(r, s, evs + more, s')
    decreases |evs|
  {
    if evs == [] {
      assert evs + more == more;
    } else {
      assert (evs + more)[1..] == evs[1..] + more;
      var n :| r(s, evs[0], n) && Path(r, n, evs[1..], m);
      PathAppend(r, n, evs[1..], m, more, s');
    }
  }

  /** What every step keeps, every path keeps. */
  lemma {:induction false} PathKeeps(r: (State, Event, State) -> bool, inv: State -> bool, s: State,
                                     evs: seq<Event>, s': State)
    requires inv(s) && Path(r, s, evs, s')
    requires forall x, ev, y :: inv(x) && r(x, ev, y) ==> inv(y)
    ensures inv(s')
    decreases |evs|
  {
    if evs != [] {
      var m :| r(s, evs[0], m) && Path(r, m, evs[1..], s');
      PathKeeps(r, inv, m, evs[1..], s');
    }
  }

  lemma PathOne(r: (State, Event, State) -> bool, s: State, ev: Event, s': State)
    requires r(s, ev, s')
    ensures Path(r, s, [ev], s')
  {
    assert [ev][1..] == [];
    assert Path(r, s', [], s');
  }

  /** One guarded step. */
  ghost predicate Guarded(s: State, ev: Event, s': State) {
    Guard(s, ev) && Defined(s, ev) && s' == Step(s, ev)
  }

  /** evs leads from s to s' by guarded steps. */
  ghost predicate Run(s: State, evs: seq<Event>, s': State) {
    Path(Guarded, s, evs, s')
  }

  /** The same events taken by the three independent terminals. */
  ghost predicate AbstractRun(a: Abstract, img: FileSystem.Image, evs: seq<Event>, b: Abstract)
    requires FileSystem.ImageOk(img)
    decreases |evs|
  {
    if evs == [] then b == a
    else AbstractOk(a) &&
         exists m :: AbstractStep(a, img, evs[0], m) && AbstractRun(m, img, evs[1..], b)
  }

  /** Every run of the kernel is a run of three independent terminals. */
  lemma {:induction false} RunRefines(s: State, a: Abstract, evs: seq<Event>, s': State) returns (b: Abstract)
    requires Related(s, a) && Run(s, evs, s')
    ensures AbstractRun(a, s.img, evs, b) && Related(s', b) && s'.img == s.img
    decreases |evs|
  {
    if evs == [] {
      b := a;
    } else {
      var m :| Guarded(s, evs[0], m) && Path(Guarded, m, evs[1..], s');
      var c := GuardedRefines(s, a, evs[0], m);
      b := RunRefines(m, c, evs[1..], s');
      OneMore(a, s.img, evs, c, b);
    }
  }

  lemma GuardedRefines(s: State, a: Abstract, ev: Event, m: State) returns (c: Abstract)
    requires Related(s, a) && Guarded(s, ev, m)
    ensures AbstractOk(a) && FileSystem.ImageOk(s.img) && AbstractStep(a, s.img, ev, c)
    ensures Related(m, c) && m.img == s.img
  {
    c := StepRefines(s, a, ev);
    RelatedOk(s, a);
    StepKeepsImage(s, ev);
  }

  lemma StepKeepsImage(s: State, ev: Event)
    requires Defined(s, ev)
    ensures Step(s, ev).img == s.img
  {
  }

  lemma OneMore(a: Abstract, img: FileSystem.Image, evs: seq<Event>, c: Abstract, b: Abstract)
    requires AbstractOk(a) && FileSystem.ImageOk(img) && evs != []
    requires AbstractStep(a, img, evs[0], c) && AbstractRun(c, img, evs[1..], b)
    ensures AbstractRun(a, img, evs, b)
  {
  }

  /** After boot and any guarded run: the used pids are exactly one parent chain per launched
      terminal, each ending at a first shell, with terminals[t].pid on top; the registers
      designate the serviced terminal's process; each screen is its terminal's own. */
  lemma ReachableStatesAreChained(boot: State, evs: seq<Event>, s: State) returns (a: Abstract)
    requires Fresh(boot) && Run(Booted(boot), evs, s)
    ensures Related(s, a)
    ensures AbstractRun(BootAbstract(boot), boot.img, evs, a)
    ensures s.p.esp0 == StackTop(s.p.top[s.p.serviced]) && s.p.cr3 == s.p.top[s.p.serviced]
    ensures Current(s.p) == s.p.top[s.p.serviced]
  {
    BootRelated(boot);
    a := RunRefines(Booted(boot), BootAbstract(boot), evs, s);
    RelatedOk(s, a);
  }

  // ---------------------------------------------------------------------------------------
  // The foreground guard is exact
  // ---------------------------------------------------------------------------------------

  /** A state that gave the visible terminal's new top process the processor has chains only
      if the visible terminal is the serviced one. */
  lemma ChainedNeedsForeground(r: Proc, st: Stacks, n: int)
    requires Chained(r, st) && IsPid(n)
    requires r.esp0 == StackTop(n) && r.pcbs[n].owner == r.visible
    ensures r.serviced == r.visible
  {
    OwnerIs(r.pcbs, r.used, st, r.serviced, |st[r.serviced]| - 1);
  }

  /** Starting a process keeps the chains if and only if the serviced terminal is visible. */
  lemma ExecuteGuardExact(p: Proc, st: Stacks, id: int)
    requires Chained(p, st) && LeastFree(p.used) != FAILURE
    requires HasCurrent(p) && p.pcbs[Current(p)].irq == []
    ensures (exists st' :: Chained(InternalExecute(p, true, USER_EXECUTE, id), st')) <==> p.serviced == p.visible
  {
    var r := InternalExecute(p, true, USER_EXECUTE, id);
    if p.serviced == p.visible {
      ExecutePushes(p, st, id);
    }
    CurrentIsTop(p, st);
    forall st' | Chained(r, st')
      ensures p.serviced == p.visible
    {
      ChainedNeedsForeground(r, st', LeastFree(p.used));
    }
  }

  /** Likewise for the restart of a first shell. */
  lemma RestartGuardExact(p: Proc, st: Stacks)
    requires Chained(p, st) && |st[p.serviced]| == 1
    ensures CanRestart(p)
    ensures (exists st' :: Chained(RestartShell(p), st')) <==> p.serviced == p.visible
  {
    CurrentIsTop(p, st);
    var c := Current(p);
    var n := LeastFree(p.used - {c});
    assert n != FAILURE by { assert c !in p.used - {c}; }
    RestartEffect(p, c, n);
    if p.serviced == p.visible {
      RestartReplaces(p, st);
    }
    forall st' | Chained(RestartShell(p), st')
      ensures p.serviced == p.visible
    {
      ChainedNeedsForeground(RestartShell(p), st', n);
    }
  }

  // ---------------------------------------------------------------------------------------
  // The guard is needed
  // ---------------------------------------------------------------------------------------

  /** What launching terminal 1 right after boot leaves behind. */
  lemma LaunchAfterBoot(p: Proc)
    requires HasCurrent(p) && Current(p) == 0 && p.used == {0} && p.launched == {0} && p.top[0] == 0
    requires p.pcbs[0].irq == [] && p.pcbs[0].flags == FIRST_TERM_SHELL
    ensures LeastFree(p.used) == 1
    ensures var r := LaunchProc(p, 1, 0);
            && r.visible == 1 && r.serviced == 1 && r.used == {0, 1} && r.launched == {0, 1}
            && |r.top| == NUM_TERMINALS && r.top[0] == 0 && r.esp0 == StackTop(1)
            && r.pcbs[1].irq == [] && r.pcbs[1].flags == FIRST_TERM_SHELL
            && r.top[1] == 1 && r.pcbs[1].parent == 0 && r.pcbs[1].esp0 == p.esp0
            && r.pcbs[0].irq == [FIRST_TERM_SHELL] && Parked(r.pcbs[0])
  {
    assert 1 !in p.used;
    LaunchEffect(p, 1, 0, 0, 1);
  }

  /** The tick after it goes back to terminal 0, whose keyboard handler then finishes. */
  lemma TickAfterLaunch(p: Proc)
    requires ProcOk(p) && p.visible == 1 && p.serviced == 1 && p.used == {0, 1} && p.launched == {0, 1}
    requires p.top[0] == 0 && p.esp0 == StackTop(1)
    requires p.pcbs[1].irq == [] && p.pcbs[1].flags == FIRST_TERM_SHELL
    requires p.pcbs[0].irq == [FIRST_TERM_SHELL] && Parked(p.pcbs[0])
    ensures CanTick(p)
    ensures var r := TickProc(p, 1);
            && HasCurrent(r) && Current(r) == 0 && r.pcbs[0].irq == [FIRST_TERM_SHELL]
            && r.visible == 1 && r.serviced == 0 && r.used == {0, 1}
            && var f := FinishIrqProc(r);
            && f.visible == 1 && f.serviced == 0 && f.used == {0, 1} && HasCurrent(f) && f.pcbs[Current(f)].irq == []
            && f.launched == {0, 1} && f.top == p.top && Current(f) == 0 && Parked(f.pcbs[1])
            && f.pcbs[1] == p.pcbs[1].(eip := f.pcbs[1].eip, frame := f.pcbs[1].frame)
  {
    MaskFindsPcb(0);
    MaskFindsPcb(1);
    assert 1 in p.launched && 2 !in p.launched;
  }

  /** Terminals 0 and 1 are launched, and terminal 1's first shell, pid 1, was started by pid 0 and is
      parked. */
  ghost predicate Second(p: Proc) {
    && ProcOk(p) && p.launched == {0, 1} && p.top[1] == 1 && Parked(p.pcbs[1])
    && p.pcbs[1].irq == [] && p.pcbs[1].flags == FIRST_TERM_SHELL
    && p.pcbs[1].parent == 0 && p.pcbs[1].esp0 == StackTop(0)
  }

  lemma LaunchIsStep(s: State)
    requires Defined(s, AltKey(1, 0)) && s.p.visible == 0 && s.p.launched == {0} && LeastFree(s.p.used) != FAILURE
    ensures Step(s, AltKey(1, 0)).p == LaunchProc(s.p, 1, 0)
  {
  }

  /** Terminal 1 is launched by the only process there is. */
  lemma SecondLaunched(s0: State, a0: Abstract) returns (s: State, a: Abstract)
    requires Related(s0, a0) && HasCurrent(s0.p) && s0.p.esp0 == StackTop(0) && Current(s0.p) == 0
    requires s0.p.used == {0} && s0.p.launched == {0} && s0.p.top[0] == 0 && s0.p.visible == 0
    requires s0.p.pcbs[0].irq == [] && s0.p.pcbs[0].flags == FIRST_TERM_SHELL
    ensures Run(s0, [AltKey(1, 0)], s) && Related(s, a)
    ensures s.p.visible == 1 && s.p.serviced == 1 && s.p.used == {0, 1} && s.p.launched == {0, 1}
    ensures ProcOk(s.p) && s.p.top[0] == 0 && s.p.top[1] == 1 && s.p.esp0 == StackTop(1)
    ensures s.p.pcbs[1].irq == [] && s.p.pcbs[1].flags == FIRST_TERM_SHELL && s.p.pcbs[1].parent == 0
    ensures s.p.pcbs[1].esp0 == StackTop(0) && s.p.pcbs[0].irq == [FIRST_TERM_SHELL] && Parked(s.p.pcbs[0])
  {
    LaunchAfterBoot(s0.p);
    RelatedOk(s0, a0);
    s, a := Extend(s0, a0, AltKey(1, 0));
    LaunchIsStep(s0);
  }

  /** A guarded run after which terminal 0 is served in the background. */
  lemma BackgroundRun(boot: State) returns (s: State, a: Abstract)
    requires Fresh(boot)
    ensures Run(Booted(boot), [AltKey(1, 0)] + [Tick(1)] + [FinishIrq], s) && Related(s, a)
    ensures s.p.visible == 1 && s.p.serviced == 0 && s.p.used == {0, 1}
    ensures HasCurrent(s.p) && s.p.pcbs[Current(s.p)].irq == []
    ensures Second(s.p) && Current(s.p) == 0
  {
    BootEffect(boot);
    BootRelated(boot);
    MaskFindsPcb(0);
    var s1, a1 := SecondLaunched(Booted(boot), BootAbstract(boot));
    TickAfterLaunch(s1.p);
    var s2, a2 := Extend(s1, a1, Tick(1));
    s, a := Extend(s2, a2, FinishIrq);
    PathAppend(Guarded, Booted(boot), [AltKey(1, 0)], s1, [Tick(1)], s2);
    PathAppend(Guarded, Booted(boot), [AltKey(1, 0)] + [Tick(1)], s2, [FinishIrq], s);
  }

  /** Taking one more guarded step. */
  lemma Extend(s: State, a: Abstract, ev: Event) returns (s': State, a': Abstract)
    requires Related(s, a) && Guard(s, ev)
    ensures Defined(s, ev) && s' == Step(s, ev) && Related(s', a') && Run(s, [ev], s')
    ensures AbstractOk(a) && FileSystem.ImageOk(s.img) && AbstractStep(a, s.img, ev, a')
  {
    a' := StepRefines(s, a, ev);
    s' := Step(s, ev);
    PathOne(Guarded, s, ev, s');
  }

  lemma ShellStarts(s: State, stack: seq<Byte>)
    requires Loader.ShellReady(s.img) && |stack| == 4 && LeastFree(s.p.used) != FAILURE
    ensures ExecuteStarts(s, Loader.SHELL, stack)
  {
  }

  /** The guard is not idle: launch a terminal, let one timer tick pass, and the first
      terminal runs in the background; a shell it executes then belongs to the wrong
      terminal and no chains are left. */
  lemma GuardNeeded(boot: State, stack: seq<Byte>) returns (s: State)
    requires Fresh(boot) && |stack| == 4
    ensures Run(Booted(boot), [AltKey(1, 0)] + [Tick(1)] + [FinishIrq], s)
    ensures StateOk(s) && s.p.serviced != s.p.visible && ExecuteStarts(s, Loader.SHELL, stack)
    ensures forall st :: !Chained(InternalExecute(s.p, true, USER_EXECUTE, 2), st)
  {
    var a;
    s, a := BackgroundRun(boot);
    BackgroundShell(s, a, stack);
  }

  lemma BackgroundShell(s: State, a: Abstract, stack: seq<Byte>)
    requires Related(s, a) && |stack| == 4 && s.p.visible == 1 && s.p.serviced == 0 && s.p.used == {0, 1}
    requires HasCurrent(s.p) && s.p.pcbs[Current(s.p)].irq == []
    ensures StateOk(s) && ExecuteStarts(s, Loader.SHELL, stack)
    ensures forall st :: !Chained(InternalExecute(s.p, true, USER_EXECUTE, 2), st)
  {
    RelatedOk(s, a);
    TwoIsFree(s.p.used);
    ShellStarts(s, stack);
    BackgroundBreaks(s.p, a.stacks);
  }

  lemma TwoIsFree(used: set<int>)
    requires used == {0, 1}
    ensures LeastFree(used) != FAILURE
  {
    assert 2 !in used;
  }

  lemma BackgroundBreaks(p: Proc, st: Stacks)
    requires Chained(p, st) && LeastFree(p.used) != FAILURE && p.serviced != p.visible
    requires HasCurrent(p) && p.pcbs[Current(p)].irq == []
    ensures forall st' :: !Chained(InternalExecute(p, true, USER_EXECUTE, 2), st')
  {
    ExecuteGuardExact(p, st, 2);
  }

  // ---------------------------------------------------------------------------------------
  // Without any guard
  // ---------------------------------------------------------------------------------------

  /** One defined step, guarded or not. */
  ghost predicate Free(s: State, ev: Event, s': State) {
    Defined(s, ev) && s' == Step(s, ev)
  }

  ghost predicate VideoMapped(s: State) {
    TablesOk(s.p, s.v)
  }

  /** After boot and any run of defined steps, foreground or background: every used pid's table
      sends VIDEO to its owner's page, and the backing pages stay identity mapped. */
  lemma VideoMapFromBoot(boot: State, evs: seq<Event>, s: State)
    requires Fresh(boot) && Path(Free, Booted(boot), evs, s)
    ensures TablesOk(s.p, s.v)
  {
    BootRelated(boot);
    forall x, ev, y | VideoMapped(x) && Free(x, ev, y)
      ensures VideoMapped(y)
    {
      VideoMapKept(x, ev);
    }
    PathKeeps(Free, VideoMapped, Booted(boot), evs, s);
  }
}
