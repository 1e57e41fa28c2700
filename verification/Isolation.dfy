/** Address spaces over whole runs: what the kernel's steps do to each pid's directory and base
    table, and what user code of different processes can then share. */
module Isolation {
  import opened Bytes
  import opened Kernel
  import opened Refinement
  import opened Runs

  /** The remappings of a pid's table in change_terminal_state. */
  function RemapOps(p: Proc, q: int, from: int, to: int): seq<Paging.Op>
    requires ProcOk(p) && IsPid(q) && IsTerminal(from)
  {
    if q !in p.used then []
    else (if p.pcbs[q].owner == from then [Paging.Remap(BackingAddress(from))] else []) +
         (if p.pcbs[q].owner == to then [Paging.Remap(Paging.VIDEO)] else [])
  }

  function SetupOps(started: bool, pid: int, q: int): seq<Paging.Op> {
    if started && pid == q then [Paging.Setup] else []
  }

  /** What a step does to the space of a pid. */
  ghost function OpsOf(s: State, ev: Event, q: int): seq<Paging.Op>
    requires Defined(s, ev) && IsPid(q)
  {
    match ev
    case Execute(command, stack, _) => SetupOps(ExecuteStarts(s, command, stack), LeastFree(s.p.used), q)
    case Halt(_) =>
      var c := s.p.pcbs[Current(s.p)];
      SetupOps(c.flags == FIRST_TERM_SHELL, LeastFree(s.p.used - {c.pid}), q)
    case Vidmap => if q == s.p.pcbs[Current(s.p)].pid then [Paging.Vidmap] else []
    case AltKey(t, _) =>
      if t == s.p.visible then []
      else if t in s.p.launched || t == 0 then RemapOps(s.p, q, s.p.visible, t)
      else if LeastFree(s.p.used) != FAILURE then
        RemapOps(s.p, q, s.p.visible, t) + SetupOps(true, LeastFree(s.p.used), q)
      else []
    case _ => []
  }

  // ---------------------------------------------------------------------------------------
  // One step
  // ---------------------------------------------------------------------------------------

  lemma ApplyNone(s: Paging.Space, q: nat)
    requires Paging.SpaceOk(s)
    ensures Paging.ApplyAll(s, q, []) == s
  {
  }

  lemma ApplyOne(s: Paging.Space, q: nat, op: Paging.Op)
    requires Paging.SpaceOk(s)
    ensures Paging.ApplyAll(s, q, [op]) == Paging.Apply(s, q, op)
  {
    assert [op][..0] == [];
  }

  lemma {:induction false} ApplyMore(s: Paging.Space, q: nat, a: seq<Paging.Op>, b: seq<Paging.Op>)
    requires Paging.SpaceOk(s)
    ensures Paging.ApplyAll(s, q, a + b) == Paging.ApplyAll(Paging.ApplyAll(s, q, a), q, b)
    decreases |b|
  {
    if b == [] {
      assert a + b == a;
    } else {
      var n := |b| - 1;
      assert (a + b)[..|a| + n] == a + b[..n];
      ApplyMore(s, q, a, b[..n]);
    }
  }

  lemma SetupApplies(v: Video, started: bool, pid: int, q: int)
    requires VideoOk(v) && IsPid(q) && VideoOk(SetupTable(v, started, pid))
    ensures SpaceOf(SetupTable(v, started, pid), q) == Paging.ApplyAll(SpaceOf(v, q), q, SetupOps(started, pid, q))
  {
    ApplyNone(SpaceOf(v, q), q);
    ApplyOne(SpaceOf(v, q), q, Paging.Setup);
  }

  lemma SwitchApplies(p: Proc, v: Video, q: int, from: int, to: int)
    requires ProcOk(p) && Mapped(v, p.cr3) && IsTerminal(from) && IsTerminal(to) && IsPid(q)
    ensures SpaceOf(ChangeTerminal(p, v, from, to), q) ==
            Paging.ApplyAll(SpaceOf(v, q), q, RemapOps(p, q, from, to))
  {
    var s := SpaceOf(v, q);
    ApplyNone(s, q);
    if q in p.used {
      var back, home := Paging.Remap(BackingAddress(from)), Paging.Remap(Paging.VIDEO);
      ApplyOne(s, q, back);
      ApplyOne(s, q, home);
      ApplyMore(s, q, [back], [home]);
      ApplyOne(Paging.Apply(s, q, back), q, home);
    }
  }

  lemma AltKeyApplies(s: State, t: int, id: int, q: int)
    requires Defined(s, AltKey(t, id)) && IsPid(q)
    ensures VideoOk(AltKeyStep(s, t, id).v)
    ensures SpaceOf(AltKeyStep(s, t, id).v, q) ==
            Paging.ApplyAll(SpaceOf(s.v, q), q, OpsOf(s, AltKey(t, id), q))
  {
    var k := KeyboardView(s.p);
    ApplyNone(SpaceOf(s.v, q), q);
    if t == s.p.visible {
    } else if t !in s.p.launched && t != 0 && LeastFree(s.p.used) == FAILURE {
      WriteKeepsSpace(k, s.v, REFUSED, q);
    } else {
      SwitchApplies(k, s.v, q, s.p.visible, t);
      if Launches(s.p, t) {
        LaunchApplies(k, s.v, q, t);
      }
    }
  }

  lemma WriteKeepsSpace(p: Proc, v: Video, text: seq<Byte>, q: int)
    requires ProcOk(p) && Mapped(v, p.cr3) && IsPid(q)
    ensures SpaceOf(WriteTerminal(p, v, text), q) == SpaceOf(v, q)
  {
  }

  lemma LaunchApplies(p: Proc, v: Video, q: int, t: int)
    requires ProcOk(p) && Mapped(v, p.cr3) && IsTerminal(t) && IsPid(q) && LeastFree(p.used) != FAILURE
    ensures var w := SetupTable(ChangeTerminal(p, v, p.visible, t), true, LeastFree(p.used));
            && VideoOk(w)
            && SpaceOf(w, q) == Paging.ApplyAll(SpaceOf(v, q), q,
                                  RemapOps(p, q, p.visible, t) + SetupOps(true, LeastFree(p.used), q))
  {
    var w := ChangeTerminal(p, v, p.visible, t);
    SwitchApplies(p, v, q, p.visible, t);
    SetupOneTable(w, true, LeastFree(p.used));
    SetupApplies(w, true, LeastFree(p.used), q);
    ApplyMore(SpaceOf(v, q), q, RemapOps(p, q, p.visible, t), SetupOps(true, LeastFree(p.used), q));
  }

  /** Every step applies exactly its own operations to every pid's space. */
  lemma StepApplies(s: State, ev: Event, q: int)
    requires Defined(s, ev) && IsPid(q)
    ensures VideoOk(Step(s, ev).v)
    ensures SpaceOf(Step(s, ev).v, q) == Paging.ApplyAll(SpaceOf(s.v, q), q, OpsOf(s, ev, q))
  {
    ApplyNone(SpaceOf(s.v, q), q);
    match ev
    case Execute(command, stack, _) =>
      SetupApplies(s.v, ExecuteStarts(s, command, stack), LeastFree(s.p.used), q);
    case Halt(_) =>
      var c := s.p.pcbs[Current(s.p)];
      SetupApplies(s.v, c.flags == FIRST_TERM_SHELL, LeastFree(s.p.used - {c.pid}), q);
    case Vidmap =>
      ApplyOne(SpaceOf(s.v, q), q, Paging.Vidmap);
    case AltKey(t, id) =>
      AltKeyApplies(s, t, id, q);
    case _ =>
  }

  /** A pid that comes into use has its space set up in that step. */
  lemma StartedIsSetUp(s: State, ev: Event, q: int)
    requires Defined(s, ev) && IsPid(q) && q in Step(s, ev).p.used
    ensures q in s.p.used || Paging.Setup in OpsOf(s, ev, q)
  {
  }

  // ---------------------------------------------------------------------------------------
  // Whole runs
  // ---------------------------------------------------------------------------------------

  /** ops is what the steps of a path did to q's space, in order. */
  ghost predicate Did(s: State, evs: seq<Event>, s': State, q: int, ops: seq<Paging.Op>)
    requires IsPid(q)
    decreases |evs|
  {
    if evs == [] then s' == s && ops == []
    else exists m, rest :: DidFirst(s, evs[0], m, q, ops, rest) && Did(m, evs[1..], s', q, rest)
  }

  ghost predicate DidFirst(s: State, ev: Event, m: State, q: int, ops: seq<Paging.Op>, rest: seq<Paging.Op>)
    requires IsPid(q)
  {
    Free(s, ev, m) && ops == OpsOf(s, ev, q) + rest
  }

  /** Every path does some sequence of operations to a pid's space. */
  lemma {:induction false} PathDid(s: State, evs: seq<Event>, s': State, q: int) returns (ops: seq<Paging.Op>)
    requires IsPid(q) && Path(Free, s, evs, s')
    ensures Did(s, evs, s', q, ops)
    decreases |evs|
  {
    ops := [];
    if evs != [] {
      var m :| Free(s, evs[0], m) && Path(Free, m, evs[1..], s');
      var rest := PathDid(m, evs[1..], s', q);
      ops := OpsOf(s, evs[0], q) + rest;
      assert DidFirst(s, evs[0], m, q, ops, rest);
    }
  }

  lemma OneStepDid(s: State, ev: Event, m: State, q: int, ops: seq<Paging.Op>, rest: seq<Paging.Op>)
    requires IsPid(q) && DidFirst(s, ev, m, q, ops, rest)
    ensures VideoOk(s.v) && VideoOk(m.v)
    ensures Paging.ApplyAll(SpaceOf(s.v, q), q, ops) == Paging.ApplyAll(SpaceOf(m.v, q), q, rest)
    ensures q in m.p.used ==> q in s.p.used || Paging.Setup in ops
    ensures Paging.Setup in rest ==> Paging.Setup in ops
  {
    StepApplies(s, ev, q);
    ApplyMore(SpaceOf(s.v, q), q, OpsOf(s, ev, q), rest);
    if q in m.p.used {
      StartedIsSetUp(s, ev, q);
    }
  }

  /** The space at the end of a path is the one at its start with the path's operations applied,
      and a pid that came into use on the way was set up. */
  lemma {:induction false} SpaceHistory(s: State, evs: seq<Event>, s': State, q: int, ops: seq<Paging.Op>)
    requires IsPid(q) && VideoOk(s.v) && Did(s, evs, s', q, ops)
    ensures VideoOk(s'.v) && SpaceOf(s'.v, q) == Paging.ApplyAll(SpaceOf(s.v, q), q, ops)
    ensures q in s'.p.used ==> q in s.p.used || Paging.Setup in ops
    decreases |evs|
  {
    if evs != [] {
      var m, rest :| DidFirst(s, evs[0], m, q, ops, rest) && Did(m, evs[1..], s', q, rest);
      OneStepDid(s, evs[0], m, q, ops, rest);
      SpaceHistory(m, evs[1..], s', q, rest);
    }
  }

  /** Everything done to q's space since before boot, guarded steps or not. */
  ghost predicate SinceBoot(boot: State, evs: seq<Event>, s: State, q: int, ops: seq<Paging.Op>)
    requires Fresh(boot) && IsPid(q)
  {
    exists later :: Did(Booted(boot), evs, s, q, later) && ops == SetupOps(true, 0, q) + later
  }

  /** After boot and any run of defined steps, the space of every pid is the boot space with the
      run's own operations applied; a used pid's were set up, and VIDEO in it leads to the page of
      its owner. */
  lemma SpacesAreHistories(boot: State, evs: seq<Event>, s: State, q: int) returns (ops: seq<Paging.Op>)
    requires Fresh(boot) && Path(Free, Booted(boot), evs, s) && IsPid(q)
    ensures SinceBoot(boot, evs, s, q, ops)
    ensures VideoOk(s.v) && SpaceOf(s.v, q) == Paging.ApplyAll(SpaceOf(boot.v, q), q, ops)
    ensures q in s.p.used ==> Paging.Setup in ops
    ensures TablesOk(s.p, s.v)
    ensures q in s.p.used ==> Paging.VideoTarget(ops) == HomeAddress(s.p.visible, s.p.pcbs[q].owner)
  {
    ops := HistorySinceBoot(boot, evs, s, q);
    VideoMapFromBoot(boot, evs, s);
    if q in s.p.used {
      TargetIs(s, q, SpaceOf(boot.v, q), ops);
    }
  }

  lemma HistorySinceBoot(boot: State, evs: seq<Event>, s: State, q: int) returns (ops: seq<Paging.Op>)
    requires Fresh(boot) && Path(Free, Booted(boot), evs, s) && IsPid(q)
    ensures SinceBoot(boot, evs, s, q, ops)
    ensures VideoOk(s.v) && SpaceOf(s.v, q) == Paging.ApplyAll(SpaceOf(boot.v, q), q, ops)
    ensures q in s.p.used ==> Paging.Setup in ops
  {
    var b := Booted(boot);
    BootEffect(boot);
    var later := PathDid(b, evs, s, q);
    ops := SetupOps(true, 0, q) + later;
    assert SinceBoot(boot, evs, s, q, ops);
    SpaceHistory(b, evs, s, q, later);
    SetupApplies(boot.v, true, 0, q);
    ApplyMore(SpaceOf(boot.v, q), q, SetupOps(true, 0, q), later);
  }

  lemma TargetIs(s: State, q: int, start: Paging.Space, ops: seq<Paging.Op>)
    requires TablesOk(s.p, s.v) && q in s.p.used && IsPid(q) && Paging.SpaceOk(start) && Paging.Setup in ops
    requires SpaceOf(s.v, q) == Paging.ApplyAll(start, q, ops)
    ensures Paging.VideoTarget(ops) == HomeAddress(s.p.visible, s.p.pcbs[q].owner)
  {
    Paging.SlotHistory(start, q, ops);
    assert TableOk(s.p, s.v, q);
    OneTarget(SpaceOf(s.v, q), q, Paging.VidmapSinceSetup(ops), Paging.VideoTarget(ops),
              HomeAddress(s.p.visible, s.p.pcbs[q].owner));
  }

  /** A space has one video target. */
  lemma OneTarget(s: Paging.Space, q: nat, vidmapped: bool, target: nat, home: nat)
    requires Paging.SlotShape(s, q, vidmapped, target) && Paging.VideoMaps(s.table, home)
    ensures target == home
  {
    Paging.FlagBits(target, if vidmapped then 7 else 3);
  }

  /** An address in the k-th video page, walked to through q's directory, leads to the same place in
      the page that the step system's page index names. */
  ghost predicate WalkAgrees(v: Video, q: int, k: nat, va: nat) {
    && VideoOk(v) && IsPid(q) && k <= NUM_TERMINALS && va < 0x1_0000_0000
    && Paging.Translate(SpaceOf(v, q), va) == Some(va + (PageIndex(v, q, k) - k) * Paging.PAGE)
  }

  /** Through the directory of a used pid, the walk of a video address is what the step system's
      page index says. */
  lemma WalkIsPageIndex(boot: State, evs: seq<Event>, s: State, q: int, k: nat, va: nat)
    requires Fresh(boot) && Path(Free, Booted(boot), evs, s) && q in s.p.used
    requires k <= NUM_TERMINALS && Paging.VIDEO + k * Paging.PAGE <= va < Paging.VIDEO + (k + 1) * Paging.PAGE
    ensures WalkAgrees(s.v, q, k, va)
  {
    VideoMapFromBoot(boot, evs, s);
    var ops := SpacesAreHistories(boot, evs, s, q);
    PageMoves(s.p, s.v, q, k, ops);
    var moved := (PageIndex(s.v, q, k) - k) * Paging.PAGE;
    WalkIs(SpaceOf(boot.v, q), q, ops, k, va, moved);
    Agrees(s.v, q, k, va, SpaceOf(s.v, q), moved);
  }

  lemma Agrees(v: Video, q: int, k: nat, va: nat, space: Paging.Space, moved: int)
    requires VideoOk(v) && IsPid(q) && k <= NUM_TERMINALS && va < 0x1_0000_0000
    requires Paging.SpaceOk(space) && space == SpaceOf(v, q)
    requires moved == (PageIndex(v, q, k) - k) * Paging.PAGE && 0 <= va + moved
    requires Paging.Translate(space, va) == Some(va + moved)
    ensures WalkAgrees(v, q, k, va)
  {
  }

  lemma PageMoves(p: Proc, v: Video, q: int, k: nat, ops: seq<Paging.Op>)
    requires TablesOk(p, v) && q in p.used && IsPid(q) && k <= NUM_TERMINALS
    requires Paging.VideoTarget(ops) == HomeAddress(p.visible, p.pcbs[q].owner)
    ensures (PageIndex(v, q, k) - k) * Paging.PAGE == if k == 0 then Paging.VideoTarget(ops) - Paging.VIDEO else 0
  {
    TablePages(p, v, q, k);
    HomeIs(p.visible, p.pcbs[q].owner);
  }

  lemma HomeIs(visible: int, t: int)
    ensures HomeAddress(visible, t) == Paging.VIDEO + HomePage(visible, t) * Paging.PAGE
  {
  }

  lemma WalkIs(start: Paging.Space, q: nat, ops: seq<Paging.Op>, k: nat, va: nat, moved: int)
    requires Paging.SpaceOk(start) && Paging.Setup in ops && q < Paging.MAX_TASKS
    requires k <= NUM_TERMINALS && Paging.VIDEO + k * Paging.PAGE <= va < Paging.VIDEO + (k + 1) * Paging.PAGE
    requires moved == if k == 0 then Paging.VideoTarget(ops) - Paging.VIDEO else 0
    ensures 0 <= va + moved && Paging.Translate(Paging.ApplyAll(start, q, ops), va) == Some(va + moved)
  {
    Paging.TranslationExact(start, q, ops, va);
  }

  lemma TablePages(p: Proc, v: Video, q: int, k: nat)
    requires TablesOk(p, v) && q in p.used && IsPid(q) && k <= NUM_TERMINALS
    ensures PageIndex(v, q, k) == if k == 0 then HomePage(p.visible, p.pcbs[q].owner) else k
  {
    assert TableOk(p, v, q);
    HomeAligned(p.visible, p.pcbs[q].owner);
    var e := v.tables[q][Paging.VIDEO_PAGE + k];
    if k > 0 {
      assert e == Paging.VIDEO + k * Paging.PAGE + Paging.PRESENT;
    } else {
      assert e / Paging.PAGE == Paging.AddressAssign(e) / Paging.PAGE;
    }
  }

  /** The kernel reaches every process block through the directory of any used pid. */
  lemma UsedReachesBlocks(boot: State, evs: seq<Event>, s: State, q: int)
    requires Fresh(boot) && Path(Free, Booted(boot), evs, s) && q in s.p.used
    ensures VideoOk(s.v) && IsPid(q) && Paging.BlocksMapped(s.v.directories[q])
    ensures Loader.ReachesBlocks(SpaceOf(s.v, q))
  {
    VideoMapFromBoot(boot, evs, s);
    var ops := SpacesAreHistories(boot, evs, s, q);
    Loader.TaskMapsBlocks(SpaceOf(boot.v, q), q, ops);
    Loader.BlocksReached(SpaceOf(s.v, q));
  }

  /** Whether user code of q can touch the physical byte at an address, through va. */
  ghost predicate Touches(v: Video, q: int, va: nat, byte: nat)
    requires VideoOk(v) && IsPid(q)
  {
    && va < 0x1_0000_0000 && Paging.UserAccessible(SpaceOf(v, q), va)
    && Paging.Translate(SpaceOf(v, q), va) == Some(byte)
  }

  /** Whether user code of q can store to the physical byte at an address, through va. */
  ghost predicate Stores(v: Video, q: int, va: nat, byte: nat)
    requires VideoOk(v) && IsPid(q)
  {
    Touches(v, q, va, byte) && Paging.UserWritable(SpaceOf(v, q), va)
  }

  /** In every state reachable from boot: user code of a used pid may store at an address if and only if
      it is in its program page, or in the VIDEO page and the process called vidmap since it was set up. */
  lemma UsedWritable(boot: State, evs: seq<Event>, s: State, q: int, va: nat) returns (ops: seq<Paging.Op>)
    requires Fresh(boot) && Path(Free, Booted(boot), evs, s) && q in s.p.used && va < 0x1_0000_0000
    ensures VideoOk(s.v) && IsPid(q) && SinceBoot(boot, evs, s, q, ops)
    ensures Paging.UserWritable(SpaceOf(s.v, q), va) <==>
            Paging.InProgramPage(va) || (Paging.VidmapSinceSetup(ops) && Paging.InVideoPage(va))
  {
    VideoMapFromBoot(boot, evs, s);
    ops := SpacesAreHistories(boot, evs, s, q);
    Paging.UserAccessExact(SpaceOf(boot.v, q), q, ops, va);
  }

  /** In every state reachable from boot, guarded or not: user code of a used pid reaches its own
      program block, and its owner's video page once it called vidmap since it was set up; so two
      processes share no byte but of the VIDEO page of one terminal that owns both. */
  lemma UserCodeIsolated(boot: State, evs: seq<Event>, s: State, p: int, q: int, va: nat, vb: nat, byte: nat)
    requires Fresh(boot) && Path(Free, Booted(boot), evs, s)
    requires p in s.p.used && q in s.p.used && p != q
    ensures TablesOk(s.p, s.v) && IsPid(p) && IsPid(q)
    ensures Touches(s.v, p, va, byte) && Touches(s.v, q, vb, byte) ==>
            && Paging.InVideoPage(va) && Paging.InVideoPage(vb)
            && s.p.pcbs[p].owner == s.p.pcbs[q].owner
  {
    VideoMapFromBoot(boot, evs, s);
    if Touches(s.v, p, va, byte) && Touches(s.v, q, vb, byte) {
      UserReach(boot, evs, s, p, va, byte);
      UserReach(boot, evs, s, q, vb, byte);
      assert TableOk(s.p, s.v, p) && TableOk(s.p, s.v, q);
      HomesDiffer(s.p.visible, s.p.pcbs[p].owner, s.p.pcbs[q].owner, va - Paging.VIDEO, vb - Paging.VIDEO);
    }
  }

  /** The physical bytes user code reaches. */
  lemma UserReach(boot: State, evs: seq<Event>, s: State, q: int, va: nat, byte: nat)
    requires ProcOk(s.p) && VideoOk(s.v) && IsPid(q) && q in s.p.used && Touches(s.v, q, va, byte)
    requires Fresh(boot) && Path(Free, Booted(boot), evs, s)
    ensures if Paging.InVideoPage(va) then byte == HomeAddress(s.p.visible, s.p.pcbs[q].owner) + (va - Paging.VIDEO)
            else Paging.BlockAddress(q) <= byte < Paging.BlockAddress(q) + Paging.PID_SPACE
  {
    var ops := SpacesAreHistories(boot, evs, s, q);
    Paging.UserAccessExact(SpaceOf(boot.v, q), q, ops, va);
    Paging.TranslationExact(SpaceOf(boot.v, q), q, ops, va);
  }

  lemma HomesDiffer(visible: int, t: int, u: int, i: int, j: int)
    requires IsTerminal(t) && IsTerminal(u) && 0 <= i < Paging.PAGE && 0 <= j < Paging.PAGE
    requires HomeAddress(visible, t) + i == HomeAddress(visible, u) + j
    ensures t == u
  {
  }

  // ---------------------------------------------------------------------------------------
  // Stores into the VIDEO page
  // ---------------------------------------------------------------------------------------

  lemma UsedMapped(p: Proc, v: Video, q: int)
    requires TablesOk(p, v) && q in p.used && IsPid(q)
    ensures Mapped(v, q)
  {
    assert TableOk(p, v, q);
    forall k | 0 <= k <= NUM_TERMINALS
      ensures MappedPage(v, q, k)
    {
      TablePages(p, v, q, k);
      Paging.FlagBits(Paging.VIDEO + k * Paging.PAGE, Paging.PRESENT);
    }
  }

  /** In every reachable state the step system lets user code store in VIDEO exactly when the page walk
      does. */
  lemma PokeIsAccess(boot: State, evs: seq<Event>, s: State, offset: nat)
    requires Fresh(boot) && Path(Free, Booted(boot), evs, s) && s.p.cr3 in s.p.used && offset < Paging.PAGE
    ensures VideoOk(s.v) && IsPid(s.p.cr3)
    ensures MayPoke(s.p, s.v, offset) <==> Paging.UserWritable(SpaceOf(s.v, s.p.cr3), Paging.VIDEO + offset)
  {
    VideoMapFromBoot(boot, evs, s);
    var q := s.p.cr3;
    UsedMapped(s.p, s.v, q);
    var ops := SpacesAreHistories(boot, evs, s, q);
    Paging.UserAccessExact(SpaceOf(boot.v, q), q, ops, Paging.VIDEO + offset);
    Paging.SlotHistory(SpaceOf(boot.v, q), q, ops);
    VideoBit(SpaceOf(s.v, q), q, Paging.VidmapSinceSetup(ops), Paging.VideoTarget(ops));
  }

  /** Once the running process has called vidmap its user code may store in all of the VIDEO page, and still
      nowhere else but in its program page. */
  lemma VidmapGrants(boot: State, evs: seq<Event>, s: State, va: nat)
    requires Fresh(boot) && Path(Free, Booted(boot), evs, s) && Defined(s, Vidmap) && va < 0x1_0000_0000
    requires s.p.pcbs[Current(s.p)].pid in s.p.used
    ensures VideoOk(Step(s, Vidmap).v)
    ensures Paging.UserWritable(SpaceOf(Step(s, Vidmap).v, s.p.pcbs[Current(s.p)].pid), va) <==>
            Paging.InProgramPage(va) || Paging.InVideoPage(va)
  {
    var q := s.p.pcbs[Current(s.p)].pid;
    var ops := SpacesAreHistories(boot, evs, s, q);
    StepApplies(s, Vidmap, q);
    GrantedSpace(SpaceOf(boot.v, q), q, ops, va);
    VidmapIs(s.v, Step(s, Vidmap).v, q, SpaceOf(boot.v, q), ops);
  }

  lemma VidmapIs(v: Video, w: Video, q: int, start: Paging.Space, ops: seq<Paging.Op>)
    requires VideoOk(v) && VideoOk(w) && IsPid(q) && Paging.SpaceOk(start)
    requires SpaceOf(v, q) == Paging.ApplyAll(start, q, ops)
    requires SpaceOf(w, q) == Paging.ApplyAll(SpaceOf(v, q), q, [Paging.Vidmap])
    ensures SpaceOf(w, q) == Paging.ApplyAll(start, q, ops + [Paging.Vidmap])
  {
    ApplyMore(start, q, ops, [Paging.Vidmap]);
  }

  lemma GrantedSpace(start: Paging.Space, q: nat, ops: seq<Paging.Op>, va: nat)
    requires Paging.SpaceOk(start) && Paging.Setup in ops && q < Paging.MAX_TASKS && va < 0x1_0000_0000
    ensures Paging.UserWritable(Paging.ApplyAll(start, q, ops + [Paging.Vidmap]), va) <==>
            Paging.InProgramPage(va) || Paging.InVideoPage(va)
  {
    Paging.VidmapHistory(ops, Paging.Vidmap);
    Paging.UserAccessExact(start, q, ops + [Paging.Vidmap], va);
  }

  lemma VideoBit(s: Paging.Space, q: nat, vidmapped: bool, target: nat)
    requires Paging.SlotShape(s, q, vidmapped, target)
    ensures Paging.UserBit(s.table[Paging.VIDEO_PAGE]) <==> vidmapped
    ensures Paging.WriteBit(s.table[Paging.VIDEO_PAGE])
  {
    Paging.FlagBits(target, if vidmapped then 7 else 3);
  }

  // ---------------------------------------------------------------------------------------
  // The program page
  // ---------------------------------------------------------------------------------------

  ghost predicate OwnByte(s: Paging.Space, q: nat, va: nat)
    requires Paging.SpaceOk(s)
  {
    && Paging.TASK_BASE <= va < 0x1_0000_0000 && Paging.UserWritable(s, va)
    && Paging.Translate(s, va) == Some(Paging.BlockAddress(q) + (va - Paging.TASK_BASE))
  }

  /** A directory under which the program page is the pid's own block, which its user code
      may store to, and what follows it faults. */
  ghost predicate OwnPage(s: Paging.Space, q: nat) {
    && Paging.SpaceOk(s)
    && (forall va :: Paging.TASK_BASE <= va < Paging.TASK_BASE + Paging.BIG_PAGE ==> OwnByte(s, q, va))
    && Paging.Translate(s, Paging.TASK_BASE + Paging.BIG_PAGE) == None
  }

  lemma UsedOwnPage(boot: State, evs: seq<Event>, s: State, q: int)
    requires Fresh(boot) && Path(Free, Booted(boot), evs, s) && q in s.p.used
    ensures VideoOk(s.v) && IsPid(q) && OwnPage(SpaceOf(s.v, q), q)
  {
    VideoMapFromBoot(boot, evs, s);
    var ops := SpacesAreHistories(boot, evs, s, q);
    HistoryOwnPage(SpaceOf(boot.v, q), q, ops);
  }

  lemma HistoryOwnPage(start: Paging.Space, q: nat, ops: seq<Paging.Op>)
    requires Paging.SpaceOk(start) && Paging.Setup in ops && q < Paging.MAX_TASKS
    ensures OwnPage(Paging.ApplyAll(start, q, ops), q)
  {
    forall va | Paging.TASK_BASE <= va < Paging.TASK_BASE + Paging.BIG_PAGE
      ensures OwnByte(Paging.ApplyAll(start, q, ops), q, va)
    {
      Paging.TranslationExact(start, q, ops, va);
      Paging.UserAccessExact(start, q, ops, va);
    }
    Paging.TranslationExact(start, q, ops, Paging.TASK_BASE + Paging.BIG_PAGE);
  }
}
