/** An exception of a terminal's first shell: halt_excep, unlike halt, does not restart it. */
module RootException {
  import opened Bytes
  import opened Kernel
  import opened Chains
  import opened Refinement
  import opened Runs

  // ---------------------------------------------------------------------------------------
  // Exactly when the chains survive
  // ---------------------------------------------------------------------------------------

  /** The return of halt_excep follows no wild pointer, and leaves chains. */
  ghost predicate Survives(p: Proc) {
    CanReturn(p) && exists st :: Chained(ReturnToParent(p, EXCEPTION_STATUS), st)
  }

  /** The running process's saved stack is its own, as the very first shell's is, and it last saved an
      execute frame whose child is no longer in use. */
  predicate ReturnsToItself(p: Proc)
    requires HasCurrent(p)
  {
    var c := p.pcbs[Current(p)];
    c.esp0 == StackTop(Current(p)) && c.frame.ExecuteFrame? && IsPid(c.frame.child) && c.frame.child !in p.used
  }

  /** Chains survive an exception of a first shell exactly when it returns to itself: once more from an
      execute that already returned. */
  lemma RootExceptionExact(p: Proc, st: Stacks)
    requires Chained(p, st) && |st[p.serviced]| == 1
    ensures HasCurrent(p) && (Survives(p) <==> ReturnsToItself(p))
  {
    CurrentIsTop(p, st);
    MaskFindsPcb(Current(p));
    var c := Current(p);
    assert st[p.serviced] == [c];
    if ReturnsToItself(p) {
      RootExceptionKeeps(p, st);
    }
    if CanReturn(p) {
      forall st' | Chained(ReturnToParent(p, EXCEPTION_STATUS), st')
        ensures ReturnsToItself(p)
      {
        var r := ReturnToParent(p, EXCEPTION_STATUS);
        RunningIsRoot(p, st, r, st', c);
        ChildUnused(p, st, r, st', c, p.pcbs[p.pcbs[c].parent].frame.child);
      }
    }
  }

  lemma RootExceptionKeeps(p: Proc, st: Stacks)
    requires Chained(p, st) && |st[p.serviced]| == 1 && CanReturn(p)
    requires p.pcbs[Current(p)].esp0 == StackTop(Current(p))
    requires p.pcbs[p.pcbs[Current(p)].parent].frame.child !in p.used
    ensures Chained(ReturnToParent(p, EXCEPTION_STATUS), st)
  {
    CurrentIsTop(p, st);
    MaskFindsPcb(Current(p));
    var r := ReturnToParent(p, EXCEPTION_STATUS);
    assert r.used == p.used;
    CurrentTouched(p, st, r.pcbs);
    forall t | 0 <= t < NUM_TERMINALS && st[t] != [] && t != r.serviced
      ensures IsPid(Last(st[t])) && Parked(r.pcbs[Last(st[t])])
    {
      OwnerIs(p.pcbs, p.used, st, t, |st[t]| - 1);
    }
  }

  /** If there are chains after the return, the running process is still the first shell. */
  lemma RunningIsRoot(p: Proc, st: Stacks, r: Proc, st': Stacks, c: int)
    requires Chained(p, st) && Chained(r, st') && IsPid(c) && st[p.serviced] == [c] && r.serviced == p.serviced
    requires r.used <= p.used && forall q :: 0 <= q < MAX_PROCS ==> r.pcbs[q].owner == p.pcbs[q].owner
    ensures r.esp0 == StackTop(c) && c in r.used
  {
    var x := Last(st'[r.serviced]);
    OwnerIs(r.pcbs, r.used, st', r.serviced, |st'[r.serviced]| - 1);
    assert Covered(p.pcbs, st, x);
  }

  /** If there are chains after the return, the freed pid was in use by no terminal. */
  lemma ChildUnused(p: Proc, st: Stacks, r: Proc, st': Stacks, c: int, n: int)
    requires Chained(p, st) && Chained(r, st') && IsPid(c) && st[p.serviced] == [c] && c in r.used
    requires r.used == p.used - {n} && r.launched == p.launched && r.serviced == p.serviced
    requires forall q :: 0 <= q < MAX_PROCS && q != c ==> r.pcbs[q] == p.pcbs[q]
    requires forall u :: 0 <= u < NUM_TERMINALS && u != p.serviced ==> r.top[u] == p.top[u]
    ensures n !in p.used
  {
    if n in p.used {
      assert Covered(p.pcbs, st, n);
      var u := p.pcbs[n].owner;
      var j :| 0 <= j < |st[u]| && st[u][j] == n;
      assert u != p.serviced;
      if j == |st[u]| - 1 {
        OwnerIs(r.pcbs, r.used, st', u, |st'[u]| - 1);
      } else {
        DifferentDepths(p.pcbs, p.used, st[u], u, j);
        OwnerIs(p.pcbs, p.used, st, u, j + 1);
        ParentInUse(p, st, r, st', c, u, j);
      }
    }
  }

  /** A used process in a chain keeps its parent in use. */
  lemma ParentInUse(p: Proc, st: Stacks, r: Proc, st': Stacks, c: int, u: int, j: int)
    requires Chained(p, st) && Chained(r, st') && IsPid(c) && st[p.serviced] == [c]
    requires 0 <= u < NUM_TERMINALS && u != p.serviced && 0 <= j < |st[u]| - 1 && st[u][j + 1] in r.used
    requires forall q :: 0 <= q < MAX_PROCS && q != c ==> r.pcbs[q] == p.pcbs[q]
    ensures st[u][j] in r.used
  {
    var y := st[u][j + 1];
    OwnerIs(p.pcbs, p.used, st, u, j + 1);
    OwnerIs(p.pcbs, p.used, st, u, j);
    OwnerIs(p.pcbs, p.used, st, p.serviced, 0);
    assert Covered(r.pcbs, st', y);
    var i :| 0 <= i < |st'[u]| && st'[u][i] == y;
    OwnerIs(r.pcbs, r.used, st', u, i);
    if i > 0 {
      OwnerIs(r.pcbs, r.used, st', u, i - 1);
    }
  }

  lemma DifferentDepths(pcbs: seq<Pcb>, used: set<int>, stk: seq<int>, t: int, j: int)
    requires |pcbs| == MAX_PROCS && StackOk(pcbs, used, stk, t) && 0 <= j < |stk| - 1
    ensures stk[j] != stk[j + 1]
  {
  }

  // ---------------------------------------------------------------------------------------
  // A run that gets there
  // ---------------------------------------------------------------------------------------

  /** Terminal 1's first shell runs again, and the process that launched it waits for a child. */
  ghost predicate Exposed(p: Proc) {
    && ProcOk(p) && p.serviced == 1 && p.esp0 == StackTop(1)
    && p.pcbs[1].irq == [] && p.pcbs[1].flags == FIRST_TERM_SHELL
    && p.pcbs[1].parent == 0 && p.pcbs[1].esp0 == StackTop(0)
    && IsTerminal(p.pcbs[0].owner) && p.pcbs[0].frame.ExecuteFrame? && IsPid(p.pcbs[0].frame.child)
  }

  lemma ChildThenTick(p: Proc)
    requires Second(p) && p.visible == 0 && p.serviced == 0 && p.used == {0, 1} && p.esp0 == StackTop(0)
    requires IsTerminal(p.pcbs[0].owner)
    ensures HasCurrent(p) && LeastFree(p.used) == 2
    ensures var q := InternalExecute(p, true, USER_EXECUTE, 2); CanTick(q) && Exposed(TickProc(q, 3))
  {
    MaskFindsPcb(0);
    MaskFindsPcb(1);
    MaskFindsPcb(2);
    assert 2 !in p.used && 1 in p.launched;
  }

  /** Terminal 0 comes to the foreground and starts a shell, and the next tick serves terminal 1. */
  lemma ExposedRun(boot: State, stack: seq<Byte>) returns (evs: seq<Event>, s: State, a: Abstract)
    requires Fresh(boot) && |stack| == 4
    ensures Run(Booted(boot), evs, s) && Related(s, a) && Exposed(s.p)
  {
    var s3, a3 := BackgroundRun(boot);
    RelatedOk(s3, a3);
    var s4, a4 := Extend(s3, a3, AltKey(0, 0));
    ForegroundAgain(s3, a3);
    OwnerIs(s4.p.pcbs, s4.p.used, a4.stacks, 0, |a4.stacks[0]| - 1);
    var first := [AltKey(1, 0)] + [Tick(1)] + [FinishIrq];
    PathAppend(Guarded, Booted(boot), first, s3, [AltKey(0, 0)], s4);
    var more;
    more, s, a := ShellThenTick(s4, a4, stack);
    PathAppend(Guarded, Booted(boot), first + [AltKey(0, 0)], s4, more, s);
    evs := first + [AltKey(0, 0)] + more;
  }

  lemma ForegroundAgain(s: State, a: Abstract)
    requires Related(s, a) && Defined(s, AltKey(0, 0)) && s.p.visible == 1 && s.p.serviced == 0 && Second(s.p)
    ensures var r := Step(s, AltKey(0, 0)).p;
            && Second(r) && r.visible == 0 && r.serviced == 0 && r.used == s.p.used && r.esp0 == s.p.esp0
            && r.pcbs == s.p.pcbs
  {
  }

  lemma ShellThenTick(s: State, a: Abstract, stack: seq<Byte>) returns (evs: seq<Event>, s': State, b: Abstract)
    requires Related(s, a) && Second(s.p) && s.p.visible == 0 && s.p.serviced == 0 && s.p.used == {0, 1}
    requires s.p.esp0 == StackTop(0) && IsTerminal(s.p.pcbs[0].owner) && s.p.pcbs[0].irq == [] && |stack| == 4
    ensures Run(s, evs, s') && Related(s', b) && Exposed(s'.p)
  {
    ChildThenTick(s.p);
    MaskFindsPcb(0);
    ShellStarts(s, stack);
    RelatedOk(s, a);
    var m, c := Extend(s, a, Execute(Loader.SHELL, stack, 2));
    s', b := Extend(m, c, Tick(3));
    PathAppend(Guarded, s, [Execute(Loader.SHELL, stack, 2)], m, [Tick(3)], s');
    evs := [Execute(Loader.SHELL, stack, 2)] + [Tick(3)];
  }

  /** The failing case is real: a run from boot after which an exception of a first shell, which
      follows no wild pointer, leaves no chains. */
  lemma RootExceptionBreaks(boot: State, stack: seq<Byte>) returns (evs: seq<Event>, s: State)
    requires Fresh(boot) && |stack| == 4
    ensures Run(Booted(boot), evs, s) && Defined(s, Exception)
    ensures s.p.pcbs[Current(s.p)].flags == FIRST_TERM_SHELL
    ensures forall st :: !Chained(Step(s, Exception).p, st)
  {
    var a;
    evs, s, a := ExposedRun(boot, stack);
    RelatedOk(s, a);
    MaskFindsPcb(1);
    RootExceptionExact(s.p, a.stacks);
    assert StackTop(0) != StackTop(1);
  }
}
