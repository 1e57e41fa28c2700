/** Execute and halt match last-in first-out, and a process that is not running is frozen. */
module Lifo {
  import opened Kernel
  import opened Chains
  import opened Refinement
  import opened Runs

  // ---------------------------------------------------------------------------------------
  // Only the running process is touched
  // ---------------------------------------------------------------------------------------

  /** A used pid other than the running one keeps its whole PCB and stays in use. */
  ghost predicate Untouched(p: Proc, r: Proc, q: int)
    requires |p.pcbs| == |r.pcbs| == MAX_PROCS
  {
    q in r.used && IsPid(q) && r.pcbs[q] == p.pcbs[q]
  }

  lemma ExecuteTouches(p: Proc, loadable: bool, flags: int, id: int, q: int)
    requires HasCurrent(p) && q in p.used && q != Current(p)
    ensures Untouched(p, InternalExecute(p, loadable, flags, id), q)
  {
  }

  lemma HaltTouches(p: Proc, st: Stacks, status: int, q: int)
    requires Chained(p, st) && HasCurrent(p) && p.pcbs[Current(p)].irq == [] && q in p.used && q != Current(p)
    ensures CanHalt(p) && Untouched(p, HaltProc(p, status), q)
    ensures |st[p.serviced]| > 1 ==> CanReturn(p) && Untouched(p, ReturnToParent(p, status), q)
  {
    CurrentIsTop(p, st);
    var c := Current(p);
    if |st[p.serviced]| == 1 {
      var n := LeastFree(p.used - {c});
      assert n != FAILURE by { assert c !in p.used - {c}; }
      RestartEffect(p, c, n);
    } else {
      ParentIs(p, st);
    }
  }

  lemma AltKeyTouches(s: State, t: int, id: int, q: int)
    requires HasCurrent(s.p) && IsTerminal(t) && Mapped(s.v, s.p.top[s.p.visible])
    requires q in s.p.used && q != Current(s.p) && Current(s.p) in s.p.used
    ensures |AltKeyStep(s, t, id).p.pcbs| == MAX_PROCS && Untouched(s.p, AltKeyStep(s, t, id).p, q)
  {
    if t != s.p.visible && t !in s.p.launched && t != 0 && LeastFree(s.p.used) != FAILURE {
      LaunchEffect(s.p, t, id, Current(s.p), LeastFree(s.p.used));
    }
  }

  /** No step touches the PCB of a process that is not running. */
  lemma OnlyRunningTouched(s: State, a: Abstract, ev: Event, q: int)
    requires Related(s, a) && Guard(s, ev) && Defined(s, ev)
    requires q in s.p.used && q != Current(s.p)
    ensures |Step(s, ev).p.pcbs| == MAX_PROCS && Untouched(s.p, Step(s, ev).p, q)
  {
    RelatedOk(s, a);
    match ev
    case Execute(command, stack, id) =>
      ExecuteTouches(s.p, Loader.Loadable(s.img, command, stack), USER_EXECUTE, id, q);
    case Halt(status) => HaltTouches(s.p, a.stacks, status, q);
    case Exception => HaltTouches(s.p, a.stacks, EXCEPTION_STATUS, q);
    case AltKey(t, id) => AltKeyTouches(s, t, id, q);
    case _ =>
  }

  // ---------------------------------------------------------------------------------------
  // Frozen processes and exact resumption
  // ---------------------------------------------------------------------------------------

  /** Guarded steps during none of which q is the running process. */
  ghost function Without(q: int): (State, Event, State) -> bool {
    (s: State, ev: Event, s': State) => Guarded(s, ev, s') && Current(s.p) != q
  }

  /** q is in use with this PCB, in a state with chains. */
  ghost function Holding(q: int, c: Pcb): State -> bool {
    (s: State) => q in s.p.used && IsPid(q) && |s.p.pcbs| == MAX_PROCS && s.p.pcbs[q] == c &&
                  exists a :: Related(s, a)
  }

  /** While a process is not running, nothing changes a bit of its PCB - whatever the others
      execute, halt, switch or launch. */
  lemma FrozenWhileNotRunning(s: State, a: Abstract, evs: seq<Event>, s': State, q: int) returns (b: Abstract)
    requires Related(s, a) && q in s.p.used && Path(Without(q), s, evs, s')
    ensures Related(s', b) && q in s'.p.used && IsPid(q) && s'.p.pcbs[q] == s.p.pcbs[q]
  {
    var c := s.p.pcbs[q];
    forall x, ev, y | Holding(q, c)(x) && Without(q)(x, ev, y)
      ensures Holding(q, c)(y)
    {
      var e :| Related(x, e);
      OnlyRunningTouched(x, e, ev, q);
      var f := StepRefines(x, e, ev);
    }
    PathKeeps(Without(q), Holding(q, c), s, evs, s');
    b :| Related(s', b);
  }

  /** The next timer tick will go to q. */
  ghost predicate NextUp(p: Proc, q: int) {
    TakesTurn(p) &&
    var t := NextLaunched(p.launched, p.serviced);
    0 <= t < NUM_TERMINALS && p.top[t] == q
  }

  /** When q is scheduled again it is resumed with exactly the instruction pointer and stack
      frame it had when it stopped running. */
  lemma ResumedAsSaved(s: State, a: Abstract, evs: seq<Event>, s': State, id: int, q: int)
    requires Related(s, a) && q in s.p.used && Path(Without(q), s, evs, s')
    requires NextUp(s'.p, q)
    ensures CanTick(s'.p) && IsPid(q)
    ensures var r := TickProc(s'.p, id);
            Current(r) == q && r.control == Resumed(s.p.pcbs[q].eip, s.p.pcbs[q].frame)
  {
    var b := FrozenWhileNotRunning(s, a, evs, s', q);
    TickResumes(s'.p, b.stacks, id, q);
  }

  lemma TickResumes(p: Proc, st: Stacks, id: int, q: int)
    requires Chained(p, st) && NextUp(p, q)
    ensures CanTick(p) && IsPid(q)
    ensures var r := TickProc(p, id);
            Current(r) == q && r.control == Resumed(p.pcbs[q].eip, p.pcbs[q].frame)
  {
    CurrentIsTop(p, st);
    TurnIsSchedule(p, st);
    NextIsAnother(p.launched, p.serviced);
    var t := NextLaunched(p.launched, p.serviced);
    OwnerIs(p.pcbs, p.used, st, t, |st[t]| - 1);
    OwnerIs(p.pcbs, p.used, st, p.serviced, |st[p.serviced]| - 1);
    MaskFindsPcb(q);
  }

  /** The running process loses the processor: to a scheduling tick, or to a launch. */
  ghost predicate Loses(p: Proc, ev: Event) {
    && HasCurrent(p)
    && (ev.Tick? ==> TakesTurn(p))
    && (ev.AltKey? ==>
          IsTerminal(ev.t) && ev.t !in p.launched && ev.t != 0 && ev.t != p.visible && LeastFree(p.used) != FAILURE)
    && (ev.Tick? || ev.AltKey?)
  }

  /** Where it then left off. */
  function LeftAt(ev: Event): Control
    requires ev.Tick? || ev.AltKey?
  {
    if ev.Tick? then Resumed(SwitchContext, SchedulerFrame(ev.id))
    else Resumed(SwitchTerminalContext, KeyboardFrame(ev.id))
  }

  lemma LosesSaves(s: State, a: Abstract, ev: Event, m: State)
    requires Related(s, a) && Guarded(s, ev, m) && Loses(s.p, ev)
    ensures IsPid(Current(s.p)) && |m.p.pcbs| == MAX_PROCS && Current(s.p) in m.p.used
    ensures var c := m.p.pcbs[Current(s.p)]; Resumed(c.eip, c.frame) == LeftAt(ev)
  {
    RelatedOk(s, a);
    TurnIsSchedule(s.p, a.stacks);
    LostTo(s, ev);
    ContextSaved(s.p, ev);
  }

  lemma LostTo(s: State, ev: Event)
    requires Defined(s, ev) && Loses(s.p, ev)
    ensures ev.Tick? ==> CanTick(s.p) && Step(s, ev).p == TickProc(s.p, ev.id)
    ensures ev.AltKey? ==> Step(s, ev).p == LaunchProc(s.p, ev.t, ev.id)
  {
  }

  lemma ContextSaved(p: Proc, ev: Event)
    requires Loses(p, ev) && Current(p) in p.used && (ev.Tick? ==> CanTick(p) && Schedules(p))
    ensures var r := if ev.Tick? then TickProc(p, ev.id) else LaunchProc(p, ev.t, ev.id);
            && |r.pcbs| == MAX_PROCS && Current(p) in r.used
            && Resumed(r.pcbs[Current(p)].eip, r.pcbs[Current(p)].frame) == LeftAt(ev)
  {
    if ev.AltKey? {
      LaunchEffect(p, ev.t, ev.id, Current(p), LeastFree(p.used));
    }
  }

  /** A process that loses the processor to a tick or a launch, and is scheduled again any number of
      steps later, resumes at the label and in the frame of exactly that tick or launch. */
  lemma ResumedWhereItLeft(s: State, a: Abstract, ev: Event, m: State, evs: seq<Event>, s': State, id: int, q: int)
    requires Related(s, a) && q == Current(s.p) && Guarded(s, ev, m) && Loses(s.p, ev)
    requires Path(Without(q), m, evs, s') && NextUp(s'.p, q)
    ensures CanTick(s'.p)
    ensures Current(TickProc(s'.p, id)) == q && TickProc(s'.p, id).control == LeftAt(ev)
  {
    LosesSaves(s, a, ev, m);
    var b := GuardedRefines(s, a, ev, m);
    ResumedAsSaved(m, b, evs, s', id, q);
  }

  // ---------------------------------------------------------------------------------------
  // Last in, first out
  // ---------------------------------------------------------------------------------------

  /** Guarded steps during which the process p is not halted. */
  ghost function Outliving(p: int): (State, Event, State) -> bool {
    (s: State, ev: Event, s': State) =>
      Guarded(s, ev, s') && !((ev.Halt? || ev.Exception?) && Current(s.p) == p)
  }

  /** Child p sits directly on its parent q, at depth i of terminal t's stack. */
  predicate Above(st: Stacks, t: int, i: int, p: int, q: int) {
    |st| == NUM_TERMINALS && 0 <= t < NUM_TERMINALS && 1 <= i < |st[t]| && st[t][i] == p && st[t][i - 1] == q
  }

  /** A step that does not halt a process leaves it on its parent. */
  lemma StaysAbove(s: State, a: Abstract, ev: Event, b: Abstract, t: int, i: int, p: int, q: int)
    requires AbstractOk(a) && FileSystem.ImageOk(s.img) && AbstractStep(a, s.img, ev, b)
    requires Above(a.stacks, t, i, p, q)
    requires !((ev.Halt? || ev.Exception?) && Last(a.stacks[a.serviced]) == p)
    ensures Above(b.stacks, t, i, p, q)
  {
  }

  lemma RunningTouched(s: State, a: Abstract, ev: Event, m: State, q: int)
    requires Related(s, a) && Guarded(s, ev, m) && q in s.p.used && q != Current(s.p)
    ensures IsPid(q) && |m.p.pcbs| == MAX_PROCS && |s.p.pcbs| == MAX_PROCS && m.p.pcbs[q] == s.p.pcbs[q]
  {
    OnlyRunningTouched(s, a, ev, q);
  }

  /** A parent that waits below a child is in use and not running. */
  lemma WaiterNotRunning(p0: Proc, st: Stacks, t: int, i: int, p: int, q: int)
    requires Chained(p0, st) && Above(st, t, i, p, q)
    ensures IsPid(q) && q in p0.used && q != Current(p0)
  {
    CurrentIsTop(p0, st);
    OwnerIs(p0.pcbs, p0.used, st, t, i - 1);
    TopIsLast(p0.pcbs, p0.used, st, t, i - 1);
    assert OnTop(st, Current(p0));
  }

  lemma OneStepWaits(s: State, a: Abstract, ev: Event, m: State, t: int, i: int, p: int, q: int)
    returns (c: Abstract)
    requires Related(s, a) && Above(a.stacks, t, i, p, q) && Outliving(p)(s, ev, m)
    ensures Related(m, c) && Above(c.stacks, t, i, p, q)
    ensures IsPid(q) && |m.p.pcbs| == MAX_PROCS && |s.p.pcbs| == MAX_PROCS && m.p.pcbs[q] == s.p.pcbs[q]
  {
    WaiterNotRunning(s.p, a.stacks, t, i, p, q);
    RunningTouched(s, a, ev, m, q);
    c := GuardedRefines(s, a, ev, m);
    RunningIsLast(s, a);
    StaysAbove(s, a, ev, c, t, i, p, q);
  }

  lemma RunningIsLast(s: State, a: Abstract)
    requires Related(s, a)
    ensures AbstractOk(a) && Current(s.p) == Last(a.stacks[a.serviced])
  {
    RelatedOk(s, a);
  }

  /** Child p waits to be halted above its parent q, whose PCB is c. */
  ghost function Waiting(t: int, i: int, p: int, q: int, c: Pcb): State -> bool {
    (s: State) => IsPid(q) && |s.p.pcbs| == MAX_PROCS && s.p.pcbs[q] == c &&
                  exists a :: Related(s, a) && Above(a.stacks, t, i, p, q)
  }

  lemma StillWaiting(x: State, ev: Event, y: State, t: int, i: int, p: int, q: int, c: Pcb)
    requires Waiting(t, i, p, q, c)(x) && Outliving(p)(x, ev, y)
    ensures Waiting(t, i, p, q, c)(y)
  {
    var e :| Related(x, e) && Above(e.stacks, t, i, p, q);
    var f := OneStepWaits(x, e, ev, y, t, i, p, q);
  }

  /** While a child is not halted its parent waits below it, untouched. */
  lemma ParentWaits(s: State, a: Abstract, evs: seq<Event>, s': State, t: int, i: int,
                    p: int, q: int) returns (b: Abstract)
    requires Related(s, a) && Above(a.stacks, t, i, p, q)
    requires Path(Outliving(p), s, evs, s')
    ensures Related(s', b) && Above(b.stacks, t, i, p, q)
    ensures IsPid(q) && s'.p.pcbs[q] == s.p.pcbs[q]
  {
    OwnerIs(s.p.pcbs, s.p.used, a.stacks, t, i - 1);
    var c := s.p.pcbs[q];
    forall x, ev, y | Waiting(t, i, p, q, c)(x) && Outliving(p)(x, ev, y)
      ensures Waiting(t, i, p, q, c)(y)
    {
      StillWaiting(x, ev, y, t, i, p, q, c);
    }
    PathKeeps(Outliving(p), Waiting(t, i, p, q, c), s, evs, s');
    b :| Related(s', b) && Above(b.stacks, t, i, p, q);
  }

  /** What the execute of a child leaves in the registers and in the parent's PCB. */
  lemma ExecuteSaves(s: State, a: Abstract, ev: Event, p: int, q: int)
    requires Related(s, a) && Guard(s, ev) && Defined(s, ev) && ev.Execute? && |ev.stack| == 4
    requires ExecuteStarts(s, ev.command, ev.stack) && p == LeastFree(s.p.used) && q == Current(s.p)
    ensures Step(s, ev).p.pcbs[q].frame == ExecuteFrame(p, ev.id)
    ensures s.p.esp0 == StackTop(q) && s.p.cr3 == q && s.p.top[s.p.serviced] == q
    ensures AbstractOk(a) && forall b :: AbstractStep(a, s.img, ev, b) ==>
              Above(b.stacks, s.p.serviced, |a.stacks[s.p.serviced]|, p, q)
  {
    RelatedOk(s, a);
    FrameSaved(s.p, ev.id);
    forall b | AbstractStep(a, s.img, ev, b)
      ensures Above(b.stacks, s.p.serviced, |a.stacks[s.p.serviced]|, p, q)
    {
      ChildAbove(a, s.img, ev, b);
    }
  }

  /** The frame that a successful execute saves in its caller's PCB. */
  lemma FrameSaved(p: Proc, id: int)
    requires HasCurrent(p) && p.used != {} && Current(p) in p.used && LeastFree(p.used) != FAILURE
    ensures InternalExecute(p, true, USER_EXECUTE, id).pcbs[Current(p)].frame == ExecuteFrame(LeastFree(p.used), id)
  {
  }

  lemma ChildAbove(a: Abstract, img: FileSystem.Image, ev: Event, b: Abstract)
    requires AbstractOk(a) && FileSystem.ImageOk(img) && ev.Execute? && |ev.stack| == 4
    requires LeastFree(Members(a.stacks)) != FAILURE && Loader.Loadable(img, ev.command, ev.stack)
    requires AbstractStep(a, img, ev, b)
    ensures var stk := a.stacks[a.serviced];
            Above(b.stacks, a.serviced, |stk|, LeastFree(Members(a.stacks)), Last(stk))
  {
  }

  /** The registers and the parent are again as before the child, which alone is gone, and the
      parent's execute returns the value. s0 is the state before the execute, s1 after it, s2
      before the halt and s3 after it. */
  ghost predicate GivenBack(s0: Proc, s1: Proc, s2: Proc, s3: Proc, p: int, q: int, id: int, value: int) {
    && ProcOk(s0) && ProcOk(s1) && ProcOk(s2) && ProcOk(s3) && IsPid(q)
    && s3.esp0 == s0.esp0 && s3.cr3 == s0.cr3 && Current(s3) == Current(s0) == q
    && s3.serviced == s0.serviced && s3.top[s3.serviced] == s0.top[s0.serviced] == q
    && p in s2.used && s3.used == s2.used - {p}
    && s3.pcbs[q] == s1.pcbs[q]
    && s3.control == ReturnFromExecute(ExecuteFrame(p, id), value)
  }

  /** Execute and halt match. A child p started by process q and halted any number of steps
      later, after whatever its own children, the other terminals, timer ticks and terminal
      switches did, gives back the kernel stack, page directory and terminal pid that q had,
      frees exactly its own pid, and returns its status to exactly that execute. */
  lemma ExecuteHaltMatch(s0: State, a: Abstract, exec: Event, s1: State, evs: seq<Event>, s2: State, stop: Event,
                         s3: State, p: int, q: int)
    requires Related(s0, a) && exec.Execute? && Guarded(s0, exec, s1)
    requires |exec.stack| == 4 && ExecuteStarts(s0, exec.command, exec.stack)
    requires p == LeastFree(s0.p.used) && q == Current(s0.p)
    requires Path(Outliving(p), s1, evs, s2)
    requires (stop.Halt? || stop.Exception?) && Current(s2.p) == p && Guarded(s2, stop, s3)
    ensures GivenBack(s0.p, s1.p, s2.p, s3.p, p, q, exec.id,
                      if stop.Halt? then stop.status else EXCEPTION_STATUS)
  {
    ExecuteSaves(s0, a, exec, p, q);
    var t, i := s0.p.serviced, |a.stacks[s0.p.serviced]|;
    var b := StepRefines(s0, a, exec);
    var c := ParentWaits(s1, b, evs, s2, t, i, p, q);
    HaltIsReturn(s2, c, stop, t, i, p, q);
    ReturnGivesBack(s2.p, c.stacks, t, i, p, q, if stop.Halt? then stop.status else EXCEPTION_STATUS);
  }

  /** An execute can tell how its child ended: it returns 256 exactly when the child took an exception, and
      otherwise the byte that the child passed to halt. */
  lemma ExceptionTold(s0: State, a: Abstract, exec: Event, s1: State, evs: seq<Event>, s2: State, stop: Event,
                      s3: State, p: int, q: int)
    requires Related(s0, a) && exec.Execute? && Guarded(s0, exec, s1)
    requires |exec.stack| == 4 && ExecuteStarts(s0, exec.command, exec.stack)
    requires p == LeastFree(s0.p.used) && q == Current(s0.p)
    requires Path(Outliving(p), s1, evs, s2)
    requires (stop.Halt? || stop.Exception?) && Current(s2.p) == p && Guarded(s2, stop, s3)
    ensures s3.p.control.ReturnFromExecute?
    ensures s3.p.control.value == 256 <==> stop.Exception?
    ensures stop.Halt? ==> s3.p.control.value == stop.status
  {
    ExecuteHaltMatch(s0, a, exec, s1, evs, s2, stop, s3, p, q);
  }

  lemma HaltIsReturn(s: State, c: Abstract, stop: Event, t: int, i: int, p: int, q: int)
    requires Related(s, c) && Above(c.stacks, t, i, p, q) && Current(s.p) == p
    requires (stop.Halt? || stop.Exception?) && Guard(s, stop) && Defined(s, stop)
    ensures CanReturn(s.p)
    ensures Step(s, stop).p == ReturnToParent(s.p, if stop.Halt? then stop.status else EXCEPTION_STATUS)
  {
    RelatedOk(s, c);
    RunningDepth(s.p, c.stacks, t, i, p, q);
    ParentIs(s.p, c.stacks);
  }

  /** A running child is on top of the serviced stack. */
  lemma RunningDepth(r: Proc, st: Stacks, t: int, i: int, p: int, q: int)
    requires Chained(r, st) && Above(st, t, i, p, q) && Current(r) == p
    ensures r.serviced == t && i == |st[t]| - 1
  {
    CurrentIsTop(r, st);
    OwnerIs(r.pcbs, r.used, st, t, i);
    OwnerIs(r.pcbs, r.used, st, r.serviced, |st[r.serviced]| - 1);
    DepthIs(r.pcbs, r.used, st[t], t, i, |st[t]| - 1);
  }

  lemma ReturnGivesBack(r: Proc, st: Stacks, t: int, i: int, p: int, q: int, value: int)
    requires Chained(r, st) && Above(st, t, i, p, q) && Current(r) == p
    ensures CanReturn(r) && IsPid(q) && p in r.used && r.serviced == t
    ensures var n := ReturnToParent(r, value);
            && ProcOk(n) && n.esp0 == StackTop(q) && n.cr3 == q && n.serviced == t && n.top[t] == q
            && n.used == r.used - {p} && n.pcbs[q] == r.pcbs[q] && Current(n) == q
            && n.control == ReturnFromExecute(r.pcbs[q].frame, value)
  {
    RunningDepth(r, st, t, i, p, q);
    ParentIs(r, st);
    OwnerIs(r.pcbs, r.used, st, t, i);
    MaskFindsPcb(q);
  }
}
