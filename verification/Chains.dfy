/** Over every guarded run the process tables are one stack of processes per launched
    terminal: parents below children, the first shell at the bottom, terminals[t].pid on top. */
module Chains {
  import opened Kernel

  type Stacks = seq<seq<int>>

  function Last(stk: seq<int>): int
    requires stk != []
  {
    stk[|stk| - 1]
  }

  // ---------------------------------------------------------------------------------------
  // The invariant
  // ---------------------------------------------------------------------------------------

  /** The flags a process has outside interrupts. */
  function BaseFlags(c: Pcb): int {
    if c.irq == [] then c.flags else c.irq[0]
  }

  /** The interrupt bit is set exactly while a handler activation is on the stack, and the
      saved flags restore to the base flags. */
  predicate FlagsOk(c: Pcb, base: int) {
    && (base == USER_EXECUTE || base == FIRST_TERM_SHELL)
    && BaseFlags(c) == base
    && (c.irq != [] ==> c.flags == base + IN_INTERRUPT)
    && forall i :: 1 <= i < |c.irq| ==> c.irq[i] == base + IN_INTERRUPT
  }

  /** The process at depth i of terminal t's stack. */
  predicate Node(pcbs: seq<Pcb>, used: set<int>, stk: seq<int>, t: int, i: int)
    requires |pcbs| == MAX_PROCS && 0 <= i < |stk|
  {
    && IsPid(stk[i]) && stk[i] in used
    && var c := pcbs[stk[i]];
    && c.pid == stk[i] && c.owner == t
    && FlagsOk(c, if i == 0 then FIRST_TERM_SHELL else USER_EXECUTE)
    && (i == 0 ==> IsPid(SlotOf(c.esp0)) && c.parent == SlotOf(c.esp0))
    && (i > 0 ==> c.parent == stk[i - 1] && c.esp0 == StackTop(stk[i - 1]))
    && (i + 1 < |stk| ==> c.irq == [] && c.frame.ExecuteFrame? && c.frame.child == stk[i + 1])
  }

  ghost predicate StackOk(pcbs: seq<Pcb>, used: set<int>, stk: seq<int>, t: int)
    requires |pcbs| == MAX_PROCS
  {
    && (forall i :: 0 <= i < |stk| ==> Node(pcbs, used, stk, t, i))
    && forall i, j :: 0 <= i < j < |stk| ==> stk[i] != stk[j]
  }

  ghost predicate Covered(pcbs: seq<Pcb>, st: Stacks, q: int)
    requires |pcbs| == MAX_PROCS && |st| == NUM_TERMINALS
  {
    IsPid(q) && IsTerminal(pcbs[q].owner) && q in st[pcbs[q].owner]
  }

  /** Every used pid sits in the stack of the terminal that owns it, and only there. */
  ghost predicate Forest(pcbs: seq<Pcb>, used: set<int>, st: Stacks)
    requires |pcbs| == MAX_PROCS
  {
    && |st| == NUM_TERMINALS
    && (forall t :: 0 <= t < NUM_TERMINALS ==> StackOk(pcbs, used, st[t], t))
    && forall q :: q in used ==> Covered(pcbs, st, q)
  }

  /** The registers designate the serviced terminal's top process; the others are parked. */
  ghost predicate Placed(p: Proc, st: Stacks)
    requires ProcOk(p) && |st| == NUM_TERMINALS
  {
    && (forall t :: 0 <= t < NUM_TERMINALS ==> (t in p.launched <==> st[t] != []))
    && (forall t :: 0 <= t < NUM_TERMINALS && st[t] != [] ==> p.top[t] == Last(st[t]))
    && st[0] != [] && st[p.visible] != [] && st[p.serviced] != []
    && p.esp0 == StackTop(Last(st[p.serviced]))
    && p.cr3 == Last(st[p.serviced])
    && forall t :: 0 <= t < NUM_TERMINALS && st[t] != [] && t != p.serviced ==>
         IsPid(Last(st[t])) && Parked(p.pcbs[Last(st[t])])
  }

  ghost predicate Chained(p: Proc, st: Stacks) {
    ProcOk(p) && Forest(p.pcbs, p.used, st) && Placed(p, st)
  }

  /** The running process is the top of the serviced stack. */
  lemma CurrentIsTop(p: Proc, st: Stacks)
    requires Chained(p, st)
    ensures HasCurrent(p) && Current(p) == Last(st[p.serviced])
    ensures StackOk(p.pcbs, p.used, st[p.serviced], p.serviced)
    ensures Node(p.pcbs, p.used, st[p.serviced], p.serviced, |st[p.serviced]| - 1)
  {
    assert StackOk(p.pcbs, p.used, st[p.serviced], p.serviced);
    assert Node(p.pcbs, p.used, st[p.serviced], p.serviced, |st[p.serviced]| - 1);
    MaskFindsPcb(Last(st[p.serviced]));
  }

  // ---------------------------------------------------------------------------------------
  // Frames: which PCBs a stack depends on
  // ---------------------------------------------------------------------------------------

  /** Everything the stack invariant reads in a PCB, except that the top may still be saved,
      interrupted or resumed. */
  ghost predicate SameForStack(a: Pcb, b: Pcb, top: bool) {
    && a.pid == b.pid && a.owner == b.owner && a.parent == b.parent && a.esp0 == b.esp0
    && (!top ==> a == b)
    && (top ==> forall base :: FlagsOk(a, base) ==> FlagsOk(b, base))
  }

  lemma StackFrame(pcbs: seq<Pcb>, pcbs': seq<Pcb>, used: set<int>, used': set<int>, stk: seq<int>, t: int)
    requires |pcbs| == |pcbs'| == MAX_PROCS
    requires StackOk(pcbs, used, stk, t)
    requires forall i :: 0 <= i < |stk| ==>
               (IsPid(stk[i]) && stk[i] in used' && SameForStack(pcbs[stk[i]], pcbs'[stk[i]], i == |stk| - 1))
    ensures StackOk(pcbs', used', stk, t)
  {
    forall i | 0 <= i < |stk|
      ensures Node(pcbs', used', stk, t, i)
    {
      assert Node(pcbs, used, stk, t, i);
    }
  }

  /** q is the top process of some terminal. */
  ghost predicate OnTop(st: Stacks, q: int) {
    exists t :: 0 <= t < |st| && st[t] != [] && Last(st[t]) == q
  }

  /** A PCB outside every stack may change at will. */
  lemma ForestFrame(pcbs: seq<Pcb>, pcbs': seq<Pcb>, used: set<int>, st: Stacks)
    requires |pcbs| == |pcbs'| == MAX_PROCS
    requires Forest(pcbs, used, st)
    requires forall q :: q in used ==> IsPid(q) && SameForStack(pcbs[q], pcbs'[q], OnTop(st, q))
    ensures Forest(pcbs', used, st)
  {
    forall t | 0 <= t < NUM_TERMINALS
      ensures StackOk(pcbs', used, st[t], t)
    {
      var stk := st[t];
      forall i | 0 <= i < |stk|
        ensures IsPid(stk[i]) && stk[i] in used && SameForStack(pcbs[stk[i]], pcbs'[stk[i]], i == |stk| - 1)
      {
        assert Node(pcbs, used, stk, t, i);
        TopIsLast(pcbs, used, st, t, i);
      }
      StackFrame(pcbs, pcbs', used, used, stk, t);
    }
  }

  /** The owner field says which stack a pid is in. */
  lemma OwnerIs(pcbs: seq<Pcb>, used: set<int>, st: Stacks, t: int, i: int)
    requires |pcbs| == MAX_PROCS && Forest(pcbs, used, st)
    requires 0 <= t < NUM_TERMINALS && 0 <= i < |st[t]|
    ensures IsPid(st[t][i]) && st[t][i] in used && pcbs[st[t][i]].owner == t
    ensures Node(pcbs, used, st[t], t, i)
  {
    assert StackOk(pcbs, used, st[t], t);
    assert Node(pcbs, used, st[t], t, i);
  }

  /** A pid sits at one depth only. */
  lemma DepthIs(pcbs: seq<Pcb>, used: set<int>, stk: seq<int>, t: int, i: int, j: int)
    requires |pcbs| == MAX_PROCS && StackOk(pcbs, used, stk, t)
    requires 0 <= i < |stk| && 0 <= j < |stk| && stk[i] == stk[j]
    ensures i == j
  {
  }

  /** A pid below the top of one stack is on top of none. */
  lemma TopIsLast(pcbs: seq<Pcb>, used: set<int>, st: Stacks, t: int, i: int)
    requires |pcbs| == MAX_PROCS && Forest(pcbs, used, st)
    requires 0 <= t < NUM_TERMINALS && 0 <= i < |st[t]|
    ensures OnTop(st, st[t][i]) <==> i == |st[t]| - 1
  {
    OwnerIs(pcbs, used, st, t, i);
    if OnTop(st, st[t][i]) {
      var u :| 0 <= u < |st| && st[u] != [] && Last(st[u]) == st[t][i];
      OwnerIs(pcbs, used, st, u, |st[u]| - 1);
      DepthIs(pcbs, used, st[t], t, i, |st[t]| - 1);
    }
  }

  // ---------------------------------------------------------------------------------------
  // Execute: a push
  // ---------------------------------------------------------------------------------------

  /** pcbs' differs from pcbs at the given two slots only. */
  ghost predicate SameElsewhere(pcbs: seq<Pcb>, pcbs': seq<Pcb>, a: int, b: int) {
    |pcbs| == |pcbs'| == MAX_PROCS && forall q :: IsPid(q) && q != a && q != b ==> pcbs'[q] == pcbs[q]
  }

  /** The stack that grows by one child. */
  lemma PushStack(pcbs: seq<Pcb>, pcbs': seq<Pcb>, used: set<int>, stk: seq<int>, t: int, n: int)
    requires |pcbs| == MAX_PROCS && StackOk(pcbs, used, stk, t) && stk != [] && IsPid(Last(stk))
    requires IsPid(n) && n !in used && SameElsewhere(pcbs, pcbs', n, Last(stk))
    requires var c, d := pcbs[Last(stk)], pcbs'[Last(stk)];
             c.irq == [] && d.frame.ExecuteFrame? && d.frame.child == n && d == c.(frame := d.frame)
    requires var c := pcbs'[n];
             c.pid == n && c.owner == t && c.flags == USER_EXECUTE && c.irq == [] &&
             c.parent == Last(stk) && c.esp0 == StackTop(Last(stk))
    ensures StackOk(pcbs', used + {n}, stk + [n], t)
  {
    var stk' := stk + [n];
    forall i | 0 <= i < |stk'|
      ensures Node(pcbs', used + {n}, stk', t, i)
    {
      if i < |stk| {
        assert Node(pcbs, used, stk, t, i);
        if i < |stk| - 1 {
          assert stk[i] != Last(stk);
        }
      }
    }
    forall i, j | 0 <= i < j < |stk'|
      ensures stk'[i] != stk'[j]
    {
      assert Node(pcbs, used, stk, t, i);
    }
  }

  /** A stack that a step does not touch. */
  lemma OtherStack(pcbs: seq<Pcb>, pcbs': seq<Pcb>, used: set<int>, used': set<int>, stk: seq<int>, t: int)
    requires |pcbs| == |pcbs'| == MAX_PROCS && StackOk(pcbs, used, stk, t)
    requires forall q :: q in used && IsPid(q) && pcbs[q].owner == t ==> pcbs'[q] == pcbs[q] && q in used'
    ensures StackOk(pcbs', used', stk, t)
  {
    forall i | 0 <= i < |stk|
      ensures IsPid(stk[i]) && stk[i] in used' && SameForStack(pcbs[stk[i]], pcbs'[stk[i]], i == |stk| - 1)
    {
      assert Node(pcbs, used, stk, t, i);
    }
    StackFrame(pcbs, pcbs', used, used', stk, t);
  }

  /** Replacing one stack, when the pids of the others are left alone. */
  lemma ReplaceStack(pcbs: seq<Pcb>, pcbs': seq<Pcb>, used: set<int>, used': set<int>, st: Stacks, t: int,
                     stk': seq<int>)
    requires |pcbs| == |pcbs'| == MAX_PROCS && Forest(pcbs, used, st) && 0 <= t < NUM_TERMINALS
    requires StackOk(pcbs', used', stk', t)
    requires forall q :: q in used && IsPid(q) && pcbs[q].owner != t ==> pcbs'[q] == pcbs[q] && q in used'
    requires forall q :: q in used' && q !in stk' ==> q in used && IsPid(q) && pcbs[q].owner != t
    ensures Forest(pcbs', used', st[t := stk'])
  {
    var st' := st[t := stk'];
    forall u | 0 <= u < NUM_TERMINALS
      ensures StackOk(pcbs', used', st'[u], u)
    {
      assert StackOk(pcbs, used, st[u], u);
      if u != t {
        OtherStack(pcbs, pcbs', used, used', st[u], u);
      }
    }
    forall q | q in used'
      ensures Covered(pcbs', st', q)
    {
      if q in stk' {
        var i :| 0 <= i < |stk'| && stk'[i] == q;
        assert Node(pcbs', used', stk', t, i);
      } else {
        assert Covered(pcbs, st, q);
      }
    }
  }

  /** A user execute with the foreground guard pushes the least free pid. */
  lemma ExecutePushes(p: Proc, st: Stacks, id: int)
    requires Chained(p, st) && p.serviced == p.visible && LeastFree(p.used) != FAILURE
    requires HasCurrent(p) && p.pcbs[Current(p)].irq == []
    ensures Chained(InternalExecute(p, true, USER_EXECUTE, id),
                    st[p.serviced := st[p.serviced] + [LeastFree(p.used)]])
  {
    CurrentIsTop(p, st);
    var t, n, c := p.serviced, LeastFree(p.used), Current(p);
    var r := InternalExecute(p, true, USER_EXECUTE, id);
    assert c in p.used && p.used != {};
    PushStack(p.pcbs, r.pcbs, p.used, st[t], t, n);
    forall q | q in r.used && q !in st[t] + [n]
      ensures q in p.used && IsPid(q) && p.pcbs[q].owner != t
    {
      assert n in st[t] + [n];
      assert Covered(p.pcbs, st, q);
    }
    ReplaceStack(p.pcbs, r.pcbs, p.used, r.used, st, t, st[t] + [n]);
    PushPlaced(p, r, st, t, n);
  }

  /** Registers and parked processes after a new top n of the serviced terminal t. */
  lemma PushPlaced(p: Proc, r: Proc, st: Stacks, t: int, n: int)
    requires Chained(p, st) && ProcOk(r) && t == p.serviced == r.serviced == p.visible == r.visible
    requires IsPid(n) && n !in p.used && SameElsewhere(p.pcbs, r.pcbs, n, Last(st[t]))
    requires r.launched == p.launched && r.top == p.top[t := n] && r.esp0 == StackTop(n) && r.cr3 == n
    ensures Placed(r, st[t := st[t] + [n]])
  {
    var st' := st[t := st[t] + [n]];
    forall u | 0 <= u < NUM_TERMINALS && st'[u] != [] && u != r.serviced
      ensures IsPid(Last(st'[u])) && Parked(r.pcbs[Last(st'[u])])
    {
      OwnerIs(p.pcbs, p.used, st, u, |st[u]| - 1);
      OwnerIs(p.pcbs, p.used, st, t, |st[t]| - 1);
    }
  }

  // ---------------------------------------------------------------------------------------
  // Halt and exception: a pop, or a new first shell
  // ---------------------------------------------------------------------------------------

  lemma PopStack(pcbs: seq<Pcb>, pcbs': seq<Pcb>, used: set<int>, stk: seq<int>, t: int)
    requires |pcbs| == MAX_PROCS && StackOk(pcbs, used, stk, t) && |stk| > 1
    requires SameElsewhere(pcbs, pcbs', Last(stk), Last(stk))
    ensures StackOk(pcbs', used - {Last(stk)}, stk[..|stk| - 1], t)
  {
    var stk' := stk[..|stk| - 1];
    forall i | 0 <= i < |stk'|
      ensures Node(pcbs', used - {Last(stk)}, stk', t, i)
    {
      assert Node(pcbs, used, stk, t, i);
      assert stk[i] != Last(stk);
    }
  }

  /** Who the running non-root process returns to. */
  lemma ParentIs(p: Proc, st: Stacks)
    requires Chained(p, st) && |st[p.serviced]| > 1
    ensures HasCurrent(p) && CanReturn(p)
    ensures var stk := st[p.serviced]; var c := p.pcbs[Current(p)]; var q := p.pcbs[c.parent];
            && Current(p) == Last(stk) && c.parent == stk[|stk| - 2] && c.esp0 == StackTop(c.parent)
            && c.parent != Current(p) && q.pid == c.parent && q.owner == p.serviced
            && q.frame.child == Current(p) && q.irq == []
  {
    CurrentIsTop(p, st);
    var stk := st[p.serviced];
    assert Node(p.pcbs, p.used, stk, p.serviced, |stk| - 2);
    assert Node(p.pcbs, p.used, stk, p.serviced, |stk| - 1);
    assert stk[|stk| - 2] != stk[|stk| - 1];
  }

  /** Halting a non-root process pops it: the parent becomes the running process again. */
  lemma ReturnPops(p: Proc, st: Stacks, value: int)
    requires Chained(p, st) && |st[p.serviced]| > 1
    ensures CanReturn(p)
    ensures Chained(ReturnToParent(p, value),
                    st[p.serviced := st[p.serviced][..|st[p.serviced]| - 1]])
  {
    ParentIs(p, st);
    var t, stk := p.serviced, st[p.serviced];
    var stk' := stk[..|stk| - 1];
    var c := Last(stk);
    var r := ReturnToParent(p, value);
    assert StackOk(p.pcbs, p.used, stk, t);
    PopStack(p.pcbs, r.pcbs, p.used, stk, t);
    forall q | q in r.used && q !in stk'
      ensures q in p.used && IsPid(q) && p.pcbs[q].owner != t
    {
      assert Covered(p.pcbs, st, q);
      assert stk == stk' + [c];
    }
    forall q | q in p.used && IsPid(q) && p.pcbs[q].owner != t
      ensures r.pcbs[q] == p.pcbs[q] && q in r.used
    {
      OwnerIs(p.pcbs, p.used, st, t, |stk| - 1);
    }
    ReplaceStack(p.pcbs, r.pcbs, p.used, r.used, st, t, stk');
    PopPlaced(p, r, st, t);
  }

  lemma PopPlaced(p: Proc, r: Proc, st: Stacks, t: int)
    requires Chained(p, st) && ProcOk(r) && t == p.serviced == r.serviced && p.visible == r.visible
    requires |st[t]| > 1 && SameElsewhere(p.pcbs, r.pcbs, Last(st[t]), Last(st[t]))
    requires r.launched == p.launched
    requires var n := st[t][|st[t]| - 2]; r.top == p.top[t := n] && r.esp0 == StackTop(n) && r.cr3 == n
    ensures Placed(r, st[t := st[t][..|st[t]| - 1]])
  {
    var st' := st[t := st[t][..|st[t]| - 1]];
    forall u | 0 <= u < NUM_TERMINALS && st'[u] != [] && u != r.serviced
      ensures IsPid(Last(st'[u])) && Parked(r.pcbs[Last(st'[u])])
    {
      OwnerIs(p.pcbs, p.used, st, u, |st[u]| - 1);
      OwnerIs(p.pcbs, p.used, st, t, |st[t]| - 1);
    }
  }

  /** A stack of one new first shell. */
  lemma RootStack(pcbs: seq<Pcb>, used: set<int>, t: int, n: int)
    requires |pcbs| == MAX_PROCS && IsPid(n) && n in used
    requires var c := pcbs[n];
             && c.pid == n && c.owner == t && c.flags == FIRST_TERM_SHELL && c.irq == []
             && IsPid(SlotOf(c.esp0)) && c.parent == SlotOf(c.esp0)
    ensures StackOk(pcbs, used, [n], t)
  {
  }

  /** Halting a first shell with the foreground guard replaces it by a new one. */
  lemma RestartReplaces(p: Proc, st: Stacks)
    requires Chained(p, st) && p.serviced == p.visible && |st[p.serviced]| == 1
    ensures CanRestart(p)
    ensures Chained(RestartShell(p), st[p.serviced := [LeastFree(p.used - {Current(p)})]])
  {
    CurrentIsTop(p, st);
    var t, c := p.serviced, Current(p);
    assert st[t] == [c];
    var freed := p.used - {c};
    var n := LeastFree(freed);
    assert c !in freed;
    var r := RestartShell(p);
    RestartEffect(p, c, n);
    RootStack(r.pcbs, r.used, t, n);
    forall q | q in r.used && q !in [n]
      ensures q in p.used && IsPid(q) && p.pcbs[q].owner != t
    {
      assert n in [n];
      assert Covered(p.pcbs, st, q);
      assert q != c;
    }
    ReplaceStack(p.pcbs, r.pcbs, p.used, r.used, st, t, [n]);
    NewRootPlaced(p, r, st, t, n);
  }

  /** What restarting does to the PCBs: the new shell's slot is written, and the kernel's own
      slot only when no other process is left. */
  lemma RestartEffect(p: Proc, c: int, n: int)
    requires CanRestart(p) && c == Current(p) && c in p.used && p.pcbs[c].pid == c
    requires n == LeastFree(p.used - {c}) && n != FAILURE
    ensures var r := RestartShell(p);
            && ProcOk(r) && r.used == p.used - {c} + {n}
            && r.pcbs[n].pid == n && r.pcbs[n].owner == p.visible && r.pcbs[n].flags == FIRST_TERM_SHELL
            && r.pcbs[n].irq == [] && r.pcbs[n].esp0 == p.pcbs[c].esp0 && r.pcbs[n].parent == SlotOf(p.pcbs[c].esp0)
            && (forall q :: q in p.used && q != c ==> r.pcbs[q] == p.pcbs[q])
            && r.top == p.top[p.visible := n] && r.esp0 == StackTop(n) && r.cr3 == n
            && r.launched == p.launched && r.visible == p.visible && r.serviced == p.serviced
  {
    forall q | q in p.used && q != c
      ensures RestartShell(p).pcbs[q] == p.pcbs[q]
    {
      assert q in p.used - {c};
    }
  }

  lemma NewRootPlaced(p: Proc, r: Proc, st: Stacks, t: int, n: int)
    requires Chained(p, st) && ProcOk(r) && t == p.serviced == r.serviced == p.visible == r.visible
    requires IsPid(n)
    requires forall q :: q in p.used && p.pcbs[q].owner != t ==> r.pcbs[q] == p.pcbs[q]
    requires r.launched == p.launched && r.top == p.top[t := n] && r.esp0 == StackTop(n) && r.cr3 == n
    ensures Placed(r, st[t := [n]])
  {
    var st' := st[t := [n]];
    forall u | 0 <= u < NUM_TERMINALS && st'[u] != [] && u != r.serviced
      ensures IsPid(Last(st'[u])) && Parked(r.pcbs[Last(st'[u])])
    {
      OwnerIs(p.pcbs, p.used, st, u, |st[u]| - 1);
    }
  }

  // ---------------------------------------------------------------------------------------
  // Interrupts: only the running process's own PCB changes
  // ---------------------------------------------------------------------------------------

  /** The running process may be saved or interrupted without disturbing any stack. */
  lemma CurrentTouched(p: Proc, st: Stacks, pcbs: seq<Pcb>)
    requires Chained(p, st) && HasCurrent(p)
    requires SameElsewhere(p.pcbs, pcbs, Current(p), Current(p))
    requires SameForStack(p.pcbs[Current(p)], pcbs[Current(p)], true)
    ensures Forest(pcbs, p.used, st)
  {
    CurrentIsTop(p, st);
    assert OnTop(st, Current(p));
    forall q | q in p.used
      ensures IsPid(q) && SameForStack(p.pcbs[q], pcbs[q], OnTop(st, q))
    {
      assert Covered(p.pcbs, st, q);
    }
    ForestFrame(p.pcbs, pcbs, p.used, st);
  }

  /** With two or more launched terminals the round robin moves to another launched one. */
  lemma NextIsAnother(launched: set<int>, t: int)
    requires 0 in launched && launched != {0} && t in launched
    requires forall u :: u in launched ==> IsTerminal(u)
    ensures NextLaunched(launched, t) in launched && NextLaunched(launched, t) != t
  {
    assert (forall u :: u in launched ==> u == 0) ==> launched == {0};
    var u :| u in launched && u != 0;
    assert u == 1 || u == 2;
  }

  lemma TickKeepsStacks(p: Proc, st: Stacks, id: int)
    requires Chained(p, st)
    ensures CanTick(p) && Chained(TickProc(p, id), st)
  {
    CurrentIsTop(p, st);
    if Schedules(p) {
      var t := NextLaunched(p.launched, p.serviced);
      NextIsAnother(p.launched, p.serviced);
      var r := TickProc(p, id);
      OwnerIs(p.pcbs, p.used, st, t, |st[t]| - 1);
      CurrentTouched(p, st, r.pcbs);
      forall u | 0 <= u < NUM_TERMINALS && st[u] != [] && u != r.serviced
        ensures IsPid(Last(st[u])) && Parked(r.pcbs[Last(st[u])])
      {
        OwnerIs(p.pcbs, p.used, st, u, |st[u]| - 1);
      }
    }
  }

  /** The next terminal with a process, cyclically; t itself if there is no other. */
  function NextStack(st: Stacks, t: int): int
    requires |st| == NUM_TERMINALS && IsTerminal(t)
  {
    if st[(t + 1) % 3] != [] then (t + 1) % 3 else if st[(t + 2) % 3] != [] then (t + 2) % 3 else t
  }

  /** A tick has to switch: no keyboard handler is on the running process's stack, and another terminal
      is launched. */
  ghost predicate TakesTurn(p: Proc) {
    HasCurrent(p) && p.pcbs[Current(p)].irq == [] && exists t :: t in p.launched && t != p.serviced
  }

  lemma TurnIsSchedule(p: Proc, st: Stacks)
    requires Chained(p, st)
    ensures HasCurrent(p) && (TakesTurn(p) <==> Schedules(p))
    ensures NextLaunched(p.launched, p.serviced) == NextStack(st, p.serviced)
    ensures TakesTurn(p) <==> p.pcbs[Current(p)].irq == [] && NextStack(st, p.serviced) != p.serviced
  {
    CurrentIsTop(p, st);
    assert 0 in p.launched && p.serviced in p.launched;
    if p.launched != {0} {
      NextIsAnother(p.launched, p.serviced);
    } else {
      assert 1 !in p.launched && 2 !in p.launched;
    }
  }

  /** The state after the process on top of terminal t was resumed where it left, and the interrupted one
      saved. */
  ghost predicate Resumes(p: Proc, r: Proc, st: Stacks, t: int, id: int)
    requires HasCurrent(p) && |st| == NUM_TERMINALS && 0 <= t < NUM_TERMINALS && st[t] != [] && IsPid(Last(st[t]))
  {
    var q, c := Last(st[t]), Current(p);
    && r.serviced == t && r.esp0 == StackTop(q) && r.cr3 == q
    && r.control == Resumed(p.pcbs[q].eip, p.pcbs[q].frame)
    && r.pcbs == p.pcbs[c := p.pcbs[c].(eip := SwitchContext, frame := SchedulerFrame(id))]
    && r.used == p.used && r.top == p.top && r.launched == p.launched && r.visible == p.visible
  }

  /** What a tick does, exactly: outside a keyboard handler and with another terminal launched the next of
      these is served and its top process resumed; otherwise nothing happens. */
  lemma TickExact(p: Proc, st: Stacks, id: int)
    requires Chained(p, st)
    ensures HasCurrent(p) && CanTick(p)
    ensures var t := NextStack(st, p.serviced);
            if p.pcbs[Current(p)].irq == [] && t != p.serviced
            then st[t] != [] && IsPid(Last(st[t])) && Resumes(p, TickProc(p, id), st, t, id)
            else TickProc(p, id) == p
  {
    CurrentIsTop(p, st);
    TickKeepsStacks(p, st, id);
    TurnIsSchedule(p, st);
    var t := NextStack(st, p.serviced);
    if TakesTurn(p) {
      OwnerIs(p.pcbs, p.used, st, t, |st[t]| - 1);
    }
  }

  lemma FinishIrqKeepsStacks(p: Proc, st: Stacks)
    requires Chained(p, st) && HasCurrent(p) && p.pcbs[Current(p)].irq != []
    ensures Chained(FinishIrqProc(p), st)
  {
    CurrentIsTop(p, st);
    var r := FinishIrqProc(p);
    CurrentTouched(p, st, r.pcbs);
    forall u | 0 <= u < NUM_TERMINALS && st[u] != [] && u != r.serviced
      ensures IsPid(Last(st[u])) && Parked(r.pcbs[Last(st[u])])
    {
      OwnerIs(p.pcbs, p.used, st, u, |st[u]| - 1);
      OwnerIs(p.pcbs, p.used, st, p.serviced, |st[p.serviced]| - 1);
    }
  }

  /** Making another launched terminal visible. */
  lemma SwitchKeepsStacks(p: Proc, st: Stacks, t: int)
    requires Chained(p, st) && 0 <= t < NUM_TERMINALS && st[t] != []
    ensures Chained(Restored(p.(visible := t)), st)
  {
  }

  // ---------------------------------------------------------------------------------------
  // Launching a terminal
  // ---------------------------------------------------------------------------------------

  /** What launching does: the interrupted process is parked, the new shell's slot written. */
  lemma LaunchEffect(p: Proc, t: int, id: int, c: int, n: int)
    requires HasCurrent(p) && IsTerminal(t) && c == Current(p) && c in p.used
    requires n == LeastFree(p.used) && n != FAILURE
    ensures var r := LaunchProc(p, t, id);
            && ProcOk(r) && r.used == p.used + {n} && r.launched == p.launched + {t}
            && r.visible == t && r.serviced == t
            && r.pcbs[n].pid == n && r.pcbs[n].owner == t && r.pcbs[n].flags == FIRST_TERM_SHELL
            && r.pcbs[n].irq == [] && r.pcbs[n].esp0 == p.esp0 && r.pcbs[n].parent == c
            && r.pcbs[c] == p.pcbs[c].(irq := p.pcbs[c].irq + [p.pcbs[c].flags],
                                       flags := WithInterrupt(p.pcbs[c].flags),
                                       eip := SwitchTerminalContext, frame := KeyboardFrame(id))
            && SameElsewhere(p.pcbs, r.pcbs, n, c)
            && r.top == p.top[t := n] && r.esp0 == StackTop(n) && r.cr3 == n
  {
  }

  /** Launching needs no guard: it makes the new terminal visible and serviced at once. */
  lemma LaunchAddsStack(p: Proc, st: Stacks, t: int, id: int)
    requires Chained(p, st) && 0 <= t < NUM_TERMINALS && st[t] == [] && LeastFree(p.used) != FAILURE
    ensures HasCurrent(p)
    ensures Chained(LaunchProc(p, t, id), st[t := [LeastFree(p.used)]])
  {
    CurrentIsTop(p, st);
    var c, n := Current(p), LeastFree(p.used);
    var r := LaunchProc(p, t, id);
    LaunchEffect(p, t, id, c, n);
    var parked := p.pcbs[c := r.pcbs[c]];
    InterruptedOk(p.pcbs[c], r.pcbs[c]);
    CurrentTouched(p, st, parked);
    RootStack(r.pcbs, r.used, t, n);
    forall q | q in r.used && q !in [n]
      ensures q in p.used && IsPid(q) && parked[q].owner != t
    {
      assert n in [n];
      assert Covered(p.pcbs, st, q);
    }
    ReplaceStack(parked, r.pcbs, p.used, r.used, st, t, [n]);
    LaunchPlaced(p, r, st, t, c, n);
  }

  lemma InterruptedOk(a: Pcb, b: Pcb)
    requires b == a.(irq := a.irq + [a.flags], flags := WithInterrupt(a.flags), eip := b.eip, frame := b.frame)
    ensures SameForStack(a, b, true)
  {
  }

  lemma LaunchPlaced(p: Proc, r: Proc, st: Stacks, t: int, c: int, n: int)
    requires Chained(p, st) && ProcOk(r) && 0 <= t < NUM_TERMINALS && st[t] == []
    requires IsPid(n) && n !in p.used && IsPid(c) && c == Last(st[p.serviced])
    requires SameElsewhere(p.pcbs, r.pcbs, n, c) && Parked(r.pcbs[c])
    requires r.visible == r.serviced == t && r.launched == p.launched + {t}
    requires r.top == p.top[t := n] && r.esp0 == StackTop(n) && r.cr3 == n
    ensures Placed(r, st[t := [n]])
  {
    var st' := st[t := [n]];
    forall u | 0 <= u < NUM_TERMINALS && st'[u] != [] && u != r.serviced
      ensures IsPid(Last(st'[u])) && Parked(r.pcbs[Last(st'[u])])
    {
      OwnerIs(p.pcbs, p.used, st, u, |st[u]| - 1);
      if u != p.serviced {
        OwnerIs(p.pcbs, p.used, st, p.serviced, |st[p.serviced]| - 1);
      }
    }
  }
}
