/** The kernel's own code: globals changed in place, loops over pids and terminals. Each
    method is proved to take the step of the model. */
module Machine {
  import opened Bytes
  import opened TextScreen
  import opened Kernel

  /** The pids whose bit is set in the bitmap, given as its six bits. */
  function UsedPids(bits: seq<bool>): set<int>
    requires |bits| == MAX_PROCS
  {
    set q: int | 0 <= q < MAX_PROCS && bits[q]
  }

  lemma MarkedUsed(bits: seq<bool>, pid: int)
    requires |bits| == MAX_PROCS && IsPid(pid)
    ensures UsedPids(bits[pid := true]) == UsedPids(bits) + {pid}
    ensures UsedPids(bits[pid := false]) == UsedPids(bits) - {pid}
  {
  }

  /** The k-th terminal after t, cyclically. */
  function After(t: int, k: int): int {
    (t + k) % NUM_TERMINALS
  }

  /** What a successful execute leaves for its child: memory with its file loaded, what it reads in
      its whole program page through its own space, and its entry point. */
  ghost predicate ChildReady(img: FileSystem.Image, command: seq<Byte>, entryStack: seq<Byte>, before: seq<Byte>,
                             after: seq<Byte>, v: Video, pid: int, entry: seq<Byte>) {
    && FileSystem.ImageOk(img) && VideoOk(v) && IsPid(pid) && |entryStack| == 4
    && var d := FileSystem.Lookup(img, Loader.CommandName(command) + [0]);
    && d.Some? && |before| == Loader.MEMORY
    && after == Loader.LoadedMemory(img, d.value.inode, before, pid)
    && Loader.ChildReads(img, d.value.inode, before, after, SpaceOf(v, pid), pid)
    && entry == Loader.HeaderSeen(img, d.value.inode, Loader.ENTRY_POINT, entryStack)
  }

  /** What a load works on: the file system image, what the local buffers held, and the kernel's own address
      space. */
  datatype Source = Source(img: FileSystem.Image, stack: seq<Byte>, entryStack: seq<Byte>, kernel: Paging.Space)

  ghost predicate SourceOk(src: Source) {
    Loader.ShellReady(src.img) && |src.stack| == 4 && |src.entryStack| == 4 && Paging.SpaceOk(src.kernel)
  }

  /** Memory after the shell was loaded for a pid, if it was. */
  ghost function ShellLoaded(img: FileSystem.Image, loaded: bool, memory: seq<Byte>, pid: int): (r: seq<Byte>)
    requires FileSystem.ImageOk(img) && |memory| == Loader.MEMORY
  {
    if loaded then CommandLoaded(img, Loader.SHELL, true, memory, pid) else memory
  }

  lemma AltKeyLoads(p: Proc, img: FileSystem.Image, t: int, memory: seq<Byte>)
    requires ProcOk(p) && FileSystem.ImageOk(img) && |memory| == Loader.MEMORY
    ensures var k := KeyboardView(p);
            AltKeyMemory(p, img, t, memory) == ShellLoaded(img, Launches(k, t), memory, LeastFree(k.used))
    ensures t == p.visible ==> AltKeyMemory(p, img, t, memory) == memory
  {
  }

  lemma NothingStarts(img: FileSystem.Image, memory: seq<Byte>, v: Video)
    requires FileSystem.ImageOk(img) && |memory| == Loader.MEMORY && VideoOk(v)
    ensures CommandLoaded(img, Loader.SHELL, true, memory, FAILURE) == memory
    ensures SetupTable(v, true, FAILURE) == v == SetupTable(v, false, FAILURE)
  {
  }

  lemma ReadyIsLoaded(img: FileSystem.Image, entryStack: seq<Byte>, before: seq<Byte>, after: seq<Byte>, v: Video,
                      pid: int, entry: seq<Byte>)
    requires ChildReady(img, Loader.SHELL, entryStack, before, after, v, pid, entry)
    ensures after == CommandLoaded(img, Loader.SHELL, true, before, pid)
  {
  }

  // ---------------------------------------------------------------------------------------
  // Printing in pieces
  // ---------------------------------------------------------------------------------------

  /** Two writes are one write of both texts, so printing in pieces is printing the whole. */
  lemma WritesCompose(p: Proc, v: Video, a: seq<Byte>, b: seq<Byte>)
    requires ProcOk(p) && Mapped(v, p.cr3) && 0 !in a
    ensures Mapped(Kernel.WriteTerminal(p, v, a), p.cr3)
    ensures Kernel.WriteTerminal(p, Kernel.WriteTerminal(p, v, a), b) == Kernel.WriteTerminal(p, v, a + b)
  {
    var w := Kernel.WriteTerminal(p, v, a);
    assert forall k :: 0 <= k <= NUM_TERMINALS && MappedPage(v, p.cr3, k) ==> MappedPage(w, p.cr3, k);
    assert MappedPage(v, p.cr3, 0);
    var page := PageIndex(v, p.cr3, 0);
    var at := v.cursors[p.visible := Cursor(v.x, v.y)][p.serviced];
    JoinedText(a, b);
    PutAppend(Screen(v.pages[page], at.x, at.y), a, UpToNul(b), v.attr);
  }

  lemma OneMoreChar(p: Proc, v: Video, text: seq<Byte>, i: nat)
    requires ProcOk(p) && Mapped(v, p.cr3) && 0 !in text && i < |text|
    ensures Mapped(Kernel.WriteTerminal(p, v, text[..i]), p.cr3)
    ensures Kernel.WriteTerminal(p, Kernel.WriteTerminal(p, v, text[..i]), [text[i]]) ==
            Kernel.WriteTerminal(p, v, text[..i + 1])
  {
    WritesCompose(p, v, text[..i], [text[i]]);
    assert text[..i + 1] == text[..i] + [text[i]];
  }

  /** Alt-Fn of a terminal that is not visible, under the visible terminal's directory. */
  ghost predicate OtherKeyDone(p: Proc, v: Video, r: Proc, w: Video, t: int, id: int)
    requires HasCurrent(p) && IsTerminal(t) && Mapped(v, p.cr3)
  {
    if t in p.launched || t == 0 then r == Restored(p.(visible := t)) && w == ChangeTerminal(p, v, p.visible, t)
    else if LeastFree(p.used) != FAILURE then
      && r == LaunchProc(p, t, id)
      && w == SetupTable(ChangeTerminal(p, v, p.visible, t), true, LeastFree(p.used))
    else r == Restored(p) && w == Kernel.WriteTerminal(p, v, REFUSED)
  }

  lemma OtherKeyIs(s: State, r: Proc, w: Video, t: int, id: int)
    requires HasCurrent(s.p) && IsTerminal(t) && Mapped(s.v, s.p.top[s.p.visible]) && t != s.p.visible
    requires OtherKeyDone(KeyboardView(s.p), s.v, r, w, t, id)
    ensures State(r, w, s.img) == AltKeyStep(s, t, id)
  {
    if LeastFree(s.p.used) != FAILURE {
      LaunchIgnoresDirectory(s.p, s.p.top[s.p.visible], t, id);
    }
  }

  lemma JoinedText(a: seq<Byte>, b: seq<Byte>)
    requires 0 !in a
    ensures UpToNul(a) == a && UpToNul(a + b) == a + UpToNul(b)
  {
    assert a[..|a|] == a;
    UpToNulIs(a, |a|);
    var n := |a| + |UpToNul(b)|;
    assert (a + b)[..n] == a + UpToNul(b);
    UpToNulIs(a + b, n);
  }

  class Globals {
    var pidAvail: seq<bool>
    var pcbs: seq<Pcb>
    var top: seq<int>
    var launched: set<int>
    var terminalState: int
    var beingServiced: int
    var esp0: int
    var cr3: int
    var control: Control
    var directories: seq<Paging.Table>
    var tables: seq<Paging.Table>
    const tablesAt: nat
    var pages: seq<seq<Cell>>
    var cursors: seq<Cursor>
    var x: int
    var y: int
    var attr: Byte

    ghost predicate Valid()
      reads this
    {
      |pidAvail| == MAX_PROCS
    }

    ghost function Proc(): Proc
      requires Valid()
      reads this
    {
      Kernel.Proc(UsedPids(pidAvail), pcbs, top, launched, terminalState, beingServiced, esp0, cr3, control)
    }

    ghost function Video(): Video
      reads this
    {
      Kernel.Video(directories, tables, tablesAt, pages, cursors, x, y, attr)
    }

    /** get_available_pid: the first clear bit. */
    method GetAvailablePid() returns (pid: int)
      requires Valid()
      ensures pid == LeastFree(Proc().used)
    {
      for i := 0 to MAX_PROCS
        invariant forall k :: 0 <= k < i ==> k in UsedPids(pidAvail)
      {
        if !pidAvail[i] {
          return i;
        }
      }
      return FAILURE;
    }

    /** mark_pid_used: refuses pids out of range. */
    method MarkPidUsed(pid: int) returns (code: int)
      requires Valid()
      modifies this`pidAvail
      ensures Valid() && code == if IsPid(pid) then 0 else FAILURE
      ensures Proc() == if IsPid(pid) then old(Proc()).(used := old(Proc()).used + {pid}) else old(Proc())
    {
      if pid < 0 || pid >= MAX_PROCS {
        return FAILURE;
      }
      MarkedUsed(pidAvail, pid);
      pidAvail := pidAvail[pid := true];
      return 0;
    }

    /** mark_pid_free: refuses pids out of range. */
    method MarkPidFree(pid: int) returns (code: int)
      requires Valid()
      modifies this`pidAvail
      ensures Valid() && code == if IsPid(pid) then 0 else FAILURE
      ensures Proc() == old(Proc()).(used := old(Proc()).used - {pid})
    {
      if pid < 0 || pid >= MAX_PROCS {
        return FAILURE;
      }
      MarkedUsed(pidAvail, pid);
      pidAvail := pidAvail[pid := false];
      return 0;
    }

    /** setup_task_paging of a pid. */
    method SetupSpace(pid: int)
      requires VideoOk(Video()) && IsPid(pid)
      modifies this`tables, this`directories
      ensures Video() == SetupTable(old(Video()), true, pid)
    {
      var directory, table := new nat[Paging.ENTRIES], new nat[Paging.ENTRIES];
      Paging.SetupTaskPaging(directory, table, tablesAt + pid * Paging.PAGE, Paging.BlockAddress(pid));
      directories := directories[pid := directory[..]];
      tables := tables[pid := table[..]];
    }

    /** With no process yet, the current PCB becomes the kernel's. */
    method PrepareBoot()
      requires Valid() && HasCurrent(Proc())
      modifies this`pcbs
      ensures Proc() == BootPcb(old(Proc())) && HasCurrent(Proc())
    {
      if UsedPids(pidAvail) == {} {
        var curr := SlotOf(esp0);
        pcbs := pcbs[curr := pcbs[curr].(pid := KERNEL_PID, parent := -1, retVal := 0, esp0 := 0)];
      }
    }

    /** The space of the active directory. */
    function ActiveSpace(kernel: Paging.Space): Paging.Space
      requires VideoOk(Kernel.Video(directories, tables, tablesAt, pages, cursors, x, y, attr))
      requires cr3 == KERNEL_DIRECTORY || IsPid(cr3)
      reads this
    {
      if cr3 == KERNEL_DIRECTORY then kernel
      else Paging.Space(directories[cr3], tables[cr3], tablesAt + cr3 * Paging.PAGE)
    }

    /** internal_execute, from the command string to the jump into the new program: the checks, the
        load through the active directory, the child's own directory and its PCB. stack and
        entryStack are what the local buffers held. A command that fails while some process exists
        changes nothing; one that succeeds loads its file into the new pid's block, as far as its
        blocks are in range. */
    method ExecuteCommand(img: FileSystem.Image, command: seq<Byte>, stack: seq<Byte>, entryStack: seq<Byte>,
                          memory: array<Byte>, kernel: Paging.Space, flags: int, id: int)
      returns (result: int, entry: seq<Byte>)
      requires Valid() && HasCurrent(Proc()) && VideoOk(Video()) && FileSystem.ImageOk(img)
      requires 0 !in command && |stack| == 4 && |entryStack| == 4 && memory.Length == Loader.MEMORY
      requires (cr3 == KERNEL_DIRECTORY || IsPid(cr3)) && Loader.ReachesBlocks(ActiveSpace(kernel))
      modifies this, memory
      ensures Valid()
      ensures Proc() == Kernel.InternalExecute(old(Proc()), Loader.Loadable(img, command, stack), flags, id)
      ensures Video() == SetupTable(old(Video()), Starts(old(Proc()), Loader.Loadable(img, command, stack)),
                                    LeastFree(old(Proc()).used))
      ensures result == FAILURE <==> !Starts(old(Proc()), Loader.Loadable(img, command, stack))
      ensures result == FAILURE ==> memory[..] == old(memory[..])
      ensures result == FAILURE && old(Proc()).used != {} ==> Proc() == old(Proc()) && Video() == old(Video())
      ensures result != FAILURE ==>
                && result == LeastFree(old(Proc()).used)
                && ChildReady(img, command, entryStack, old(memory[..]), memory[..], Video(), result, entry)
    {
      var active := ActiveSpace(kernel);
      PrepareBoot();
      entry := entryStack;
      var inode;
      result, inode := ChooseChild(img, command, stack);
      if result == FAILURE {
        return;
      }
      entry := Loader.ReadHeader(img, inode, Loader.ENTRY_POINT, entryStack);
      LoadAndStart(img, inode, memory, active, result, flags, id);
    }

    /** The directory that is active under a cr3. */
    function DirectoryUnder(kernel: Paging.Space, cr3: int): Paging.Table
      requires |directories| == MAX_PROCS && (cr3 == KERNEL_DIRECTORY || IsPid(cr3))
      reads this`directories
    {
      if cr3 == KERNEL_DIRECTORY then kernel.directory else directories[cr3]
    }

    /** internal_execute of "shell", which every image that boots has. */
    method StartShell(src: Source, memory: array<Byte>, flags: int, id: int)
      requires Valid() && HasCurrent(Proc()) && VideoOk(Video()) && SourceOk(src) && memory.Length == Loader.MEMORY
      requires (cr3 == KERNEL_DIRECTORY || IsPid(cr3)) && Paging.BlocksMapped(DirectoryUnder(src.kernel, cr3))
      modifies this, memory
      ensures Valid() && Proc() == Kernel.InternalExecute(old(Proc()), true, flags, id)
      ensures Video() == SetupTable(old(Video()), true, LeastFree(old(Proc()).used))
      ensures memory[..] == CommandLoaded(src.img, Loader.SHELL, true, old(memory[..]), LeastFree(old(Proc()).used))
    {
      ActiveReaches(src.kernel);
      assert Loader.Loadable(src.img, Loader.SHELL, src.stack);
      ghost var before, v := memory[..], Video();
      var pid, entry := ExecuteCommand(src.img, Loader.SHELL, src.stack, src.entryStack, memory, src.kernel, flags, id);
      if pid == FAILURE {
        NothingStarts(src.img, before, v);
      } else {
        ReadyIsLoaded(src.img, src.entryStack, before, memory[..], Video(), pid, entry);
      }
    }

    lemma ActiveReaches(kernel: Paging.Space)
      requires VideoOk(Video()) && Paging.SpaceOk(kernel) && (cr3 == KERNEL_DIRECTORY || IsPid(cr3))
      requires Paging.BlocksMapped(DirectoryUnder(kernel, cr3))
      ensures Loader.ReachesBlocks(ActiveSpace(kernel))
    {
      Loader.BlocksReached(ActiveSpace(kernel));
    }

    method LoadAndStart(img: FileSystem.Image, inode: nat, memory: array<Byte>, active: Paging.Space, pid: int,
                        flags: int, id: int)
      requires Valid() && HasCurrent(Proc()) && VideoOk(Video()) && FileSystem.ImageOk(img) && IsPid(pid)
      requires memory.Length == Loader.MEMORY && Loader.ReachesBlocks(active)
      modifies this`tables, this`directories, memory
      modifies this`pcbs, this`top, this`esp0, this`pidAvail, this`cr3, this`control
      ensures Valid() && Proc() == Started(old(Proc()), pid, flags, id)
      ensures Video() == SetupTable(old(Video()), true, pid) && VideoOk(Video())
      ensures memory[..] == Loader.LoadedMemory(img, inode, old(memory[..]), pid)
      ensures Loader.ChildReads(img, inode, old(memory[..]), memory[..], SpaceOf(Video(), pid), pid)
    {
      LoadChild(img, inode, memory, active, pid);
      StartChild(pid, flags, id);
    }

    /** The checks of internal_execute, which change nothing. */
    method ChooseChild(img: FileSystem.Image, command: seq<Byte>, stack: seq<Byte>) returns (pid: int, inode: nat)
      requires Valid() && FileSystem.ImageOk(img) && 0 !in command && |stack| == 4
      ensures pid == if Starts(Proc(), Loader.Loadable(img, command, stack)) then LeastFree(Proc().used) else FAILURE
      ensures pid != FAILURE ==> FileSystem.Lookup(img, Loader.CommandName(command) + [0]).Some?
      ensures pid != FAILURE ==> inode == FileSystem.Lookup(img, Loader.CommandName(command) + [0]).value.inode
    {
      inode := 0;
      pid := GetAvailablePid();
      if pid == FAILURE {
        return;
      }
      var file := Loader.CheckCommand(img, command, stack);
      if file.None? {
        return FAILURE, 0;
      }
      inode := file.value;
    }

    /** The load into the pid's block, and its directory and base table. */
    method LoadChild(img: FileSystem.Image, inode: nat, memory: array<Byte>, active: Paging.Space, pid: int)
      requires VideoOk(Video()) && FileSystem.ImageOk(img) && IsPid(pid) && memory.Length == Loader.MEMORY
      requires Loader.ReachesBlocks(active)
      modifies this`tables, this`directories, memory
      ensures Video() == SetupTable(old(Video()), true, pid) && VideoOk(Video())
      ensures memory[..] == Loader.LoadedMemory(img, inode, old(memory[..]), pid)
      ensures Loader.ChildReads(img, inode, old(memory[..]), memory[..], SpaceOf(Video(), pid), pid)
    {
      var slot := Paging.Space(directories[pid], tables[pid], tablesAt + pid * Paging.PAGE);
      var space := Loader.LoadProgram(img, inode, memory, active, slot, pid);
      tables := tables[pid := space.table];
      directories := directories[pid := space.directory];
      assert SpaceOf(Video(), pid) == space;
    }

    /** The child's PCB, its terminal, its stack, its pid bit and its page directory. */
    method StartChild(pid: int, flags: int, id: int)
      requires Valid() && HasCurrent(Proc()) && IsPid(pid)
      modifies this`pcbs, this`top, this`esp0, this`pidAvail, this`cr3, this`control
      ensures Valid() && Proc() == Started(old(Proc()), pid, flags, id)
    {
      var curr := SlotOf(esp0);
      pcbs := pcbs[pid := pcbs[pid].(esp0 := esp0, parent := curr, pid := pid, flags := flags,
                                     owner := terminalState, irq := [])];
      top := top[terminalState := pid];
      esp0 := StackTop(pid);
      var _ := MarkPidUsed(pid);
      cr3 := pid;
      if flags % 2 == 0 {
        pcbs := pcbs[curr := pcbs[curr].(frame := ExecuteFrame(pid, id))];
      }
      control := Entered(pid);
    }

    /** halt: a first shell is started again; any other process returns to its parent through
        the frame the parent saved. */
    method Halt(src: Source, memory: array<Byte>, status: int)
      requires Valid() && CanHalt(Proc()) && VideoOk(Video()) && SourceOk(src) && memory.Length == Loader.MEMORY
      requires (cr3 == KERNEL_DIRECTORY || IsPid(cr3)) && Paging.BlocksMapped(DirectoryUnder(src.kernel, cr3))
      modifies this, memory
      ensures Valid() && Proc() == HaltProc(old(Proc()), status)
      ensures var c := old(Proc()).pcbs[Current(old(Proc()))];
              Video() == SetupTable(old(Video()), c.flags == FIRST_TERM_SHELL, LeastFree(old(Proc()).used - {c.pid}))
      ensures memory[..] == HaltMemory(old(Proc()), src.img, old(memory[..]))
    {
      ghost var p := Proc();
      var curr := SlotOf(esp0);
      if pcbs[curr].flags == FIRST_TERM_SHELL {
        esp0 := pcbs[curr].esp0;
        var _ := MarkPidFree(pcbs[curr].pid);
        StartShell(src, memory, FIRST_TERM_SHELL, 0);
      } else {
        ReturnToParent(status);
      }
    }

    /** The tail of halt and of halt_excep, and then the tail of internal_execute running in the
        parent's saved frame. */
    method ReturnToParent(status: int)
      requires Valid() && CanReturn(Proc())
      modifies this`esp0, this`cr3, this`top, this`pcbs, this`control, this`pidAvail
      ensures Valid() && Proc() == Kernel.ReturnToParent(old(Proc()), status) && Video() == old(Video())
    {
      var child := RestoreParent(status);
      var _ := MarkPidFree(child);
    }

    /** The halting process's half: registers, directory and terminal go back to the parent, whose saved
        frame says which child it waits for. */
    method RestoreParent(status: int) returns (child: int)
      requires Valid() && CanReturn(Proc())
      modifies this`esp0, this`cr3, this`top, this`pcbs, this`control
      ensures Valid() && Proc() == Kernel.ReturnToParent(old(Proc()), status).(used := old(Proc()).used)
      ensures child == old(pcbs)[old(pcbs)[SlotOf(old(esp0))].parent].frame.child
    {
      var curr := SlotOf(esp0);
      var c := pcbs[curr];
      var q := pcbs[c.parent];
      esp0 := c.esp0;
      cr3 := if q.pid == KERNEL_PID then KERNEL_DIRECTORY else q.pid;
      pcbs := pcbs[curr := c.(retVal := status)];
      top := top[q.owner := q.pid % 256];
      child := q.frame.child;
      control := ReturnFromExecute(q.frame, pcbs[child].retVal);
    }

    method SaveAndSwitch(pid: int, id: int)
      requires Valid() && HasCurrent(Proc()) && IsPid(pid)
      modifies this`esp0, this`cr3, this`pcbs, this`control
      ensures Valid() && Proc() == SwitchProcess(old(Proc()), pid, id) && Video() == old(Video())
    {
      cr3 := pid;
      var curr := SlotOf(esp0);
      pcbs := pcbs[curr := pcbs[curr].(eip := SwitchContext, frame := SchedulerFrame(id))];
      esp0 := StackTop(pid);
      control := Resumed(pcbs[pid].eip, pcbs[pid].frame);
    }

    /** IRQ0: the interrupt gate, and round_robin_scheduler's search for the next terminal. */
    method TimerInterrupt(id: int)
      requires Valid() && CanTick(Proc())
      modifies this
      ensures Valid() && Proc() == TickProc(old(Proc()), id) && Video() == old(Video())
    {
      if InInterrupt(pcbs[SlotOf(esp0)].flags) {
        return;
      }
      if launched == {0} {
        return;
      }
      ghost var p := Proc();
      ghost var v := Video();
      var i := 0;
      while i < NUM_TERMINALS
        invariant 0 <= i <= NUM_TERMINALS && Valid()
        invariant beingServiced == After(p.serviced, i)
        invariant Proc() == p.(serviced := beingServiced) && Video() == v
        invariant forall k :: 1 <= k <= i ==> After(p.serviced, k) !in launched
      {
        beingServiced := (beingServiced + 1) % NUM_TERMINALS;
        if beingServiced in launched {
          assert beingServiced == NextLaunched(p.launched, p.serviced) by { NextFound(p, i + 1); }
          SaveAndSwitch(top[beingServiced], id);
          return;
        }
        i := i + 1;
      }
      NoneLaunched(launched, p.serviced);
    }

    /** change_terminal_state. */
    method ChangeTerminalState(from: int, to: int)
      requires Valid() && ProcOk(Proc()) && Mapped(Video(), cr3) && IsTerminal(from) && IsTerminal(to)
      modifies this`pages, this`cursors, this`x, this`y, this`tables, this`terminalState
      ensures Valid() && Proc() == old(Proc()).(visible := to)
      ensures Video() == ChangeTerminal(old(Proc()), old(Video()), from, to)
    {
      SwapPages(from, to);
      RemapTables(from, to);
      assert tables == ChangeTerminal(old(Proc()), old(Video()), from, to).tables;
      terminalState := to;
    }

    /** The two page copies and the cursor exchange. */
    method SwapPages(from: int, to: int)
      requires Valid() && ProcOk(Proc()) && Mapped(Video(), cr3) && IsTerminal(from) && IsTerminal(to)
      modifies this`pages, this`cursors, this`x, this`y
      ensures Video() == ChangeTerminal(old(Proc()), old(Video()), from, to).(tables := tables)
    {
      assert MappedPage(Video(), cr3, 0) && MappedPage(Video(), cr3, from + 1) && MappedPage(Video(), cr3, to + 1);
      var screen, backing, next := ActivePage(0), ActivePage(from + 1), ActivePage(to + 1);
      pages := pages[backing := pages[screen]];
      pages := pages[screen := pages[next]];
      cursors := cursors[from := Cursor(x, y)];
      x, y := cursors[to].x, cursors[to].y;
    }

    /** The loop of change_terminal_state over the used pids. */
    method RemapTables(from: int, to: int)
      requires Valid() && ProcOk(Proc()) && IsTerminal(from) && IsTerminal(to) && |tables| == MAX_PROCS
      requires forall q :: 0 <= q < MAX_PROCS ==> |tables[q]| == Paging.ENTRIES
      modifies this`tables
      ensures |tables| == MAX_PROCS
      ensures forall q :: 0 <= q < MAX_PROCS ==>
                tables[q] == if pidAvail[q] then Remapped(old(tables)[q], pcbs[q].owner, from, to) else old(tables)[q]
    {
      for i := 0 to MAX_PROCS
        invariant |tables| == MAX_PROCS
        invariant forall q :: 0 <= q < i ==>
                    tables[q] == if pidAvail[q] then Remapped(old(tables)[q], pcbs[q].owner, from, to)
                                 else old(tables)[q]
        invariant forall q :: i <= q < MAX_PROCS ==> tables[q] == old(tables)[q]
      {
        if pidAvail[i] {
          if pcbs[i].owner == from {
            RemapOne(i, BackingAddress(from));
          }
          if pcbs[i].owner == to {
            RemapOne(i, Paging.VIDEO);
          }
        }
      }
    }

    /** change_table_mapping of VIDEO in one pid's table. */
    method RemapOne(pid: int, target: nat)
      requires 0 <= pid < |tables| && |tables[pid]| == Paging.ENTRIES
      modifies this`tables
      ensures tables == old(tables)[pid := Paging.RemappedVideo(old(tables)[pid], target)]
    {
      var entries := tables[pid];
      var table := new nat[Paging.ENTRIES](i requires 0 <= i < |entries| => entries[i]);
      assert table[..] == entries;
      Paging.ChangeTableMapping(table, Paging.VIDEO, target);
      tables := tables[pid := table[..]];
    }

    /** write_terminal: the descriptor and size checks, and the count it returns. memory is what lies
        at the buffer's address. */
    method WriteCall(fd: int, memory: seq<Byte>, nbytes: int) returns (code: int)
      requires Valid() && ProcOk(Proc()) && Mapped(Video(), cr3) && nbytes <= |memory|
      modifies this`pages, this`cursors, this`x, this`y
      ensures code == if fd == 1 && nbytes >= 0 then nbytes else FAILURE
      ensures Video() == if code == FAILURE then old(Video())
                         else Kernel.WriteTerminal(Proc(), old(Video()), memory[..nbytes])
    {
      if fd != 1 || nbytes < 0 {
        return FAILURE;
      }
      WriteTerminal(memory[..nbytes]);
      return nbytes;
    }

    /** The rest of write_terminal, on the page the active directory leads to. */
    method WriteTerminal(text: seq<Byte>)
      requires Valid() && ProcOk(Proc()) && Mapped(Video(), cr3)
      modifies this`pages, this`cursors, this`x, this`y
      ensures Video() == Kernel.WriteTerminal(Proc(), old(Video()), text)
    {
      assert MappedPage(Video(), cr3, 0);
      PrintAside(ActivePage(0), text);
    }

    /** The cursor exchange around put_t. */
    method PrintAside(page: int, text: seq<Byte>)
      requires 0 <= page < |pages| && |cursors| == NUM_TERMINALS && IsTerminal(terminalState)
      requires IsTerminal(beingServiced)
      requires var at := cursors[terminalState := Cursor(x, y)][beingServiced];
               OnScreen(Screen(pages[page], at.x, at.y))
      modifies this`pages, this`cursors, this`x, this`y
      ensures var aside := old(cursors)[terminalState := Cursor(old(x), old(y))];
              var at := aside[beingServiced];
              var s := PutAll(Screen(old(pages)[page], at.x, at.y), UpToNul(text), attr);
              && pages == old(pages)[page := s.page]
              && cursors == aside[beingServiced := Cursor(s.x, s.y)]
              && x == cursors[terminalState].x && y == cursors[terminalState].y
    {
      cursors := cursors[terminalState := Cursor(x, y)];
      x, y := cursors[beingServiced].x, cursors[beingServiced].y;
      PutText(page, text);
      cursors := cursors[beingServiced := Cursor(x, y)];
      x, y := cursors[terminalState].x, cursors[terminalState].y;
    }

    /** put_t on a video page. */
    method PutText(page: int, text: seq<Byte>)
      requires 0 <= page < |pages| && OnScreen(Screen(pages[page], x, y))
      modifies this`pages, this`x, this`y
      ensures var s := PutAll(Screen(old(pages)[page], old(x), old(y)), UpToNul(text), attr);
              pages == old(pages)[page := s.page] && x == s.x && y == s.y
    {
      var content := pages[page];
      var cells := new Cell[PAGE_CELLS](i requires 0 <= i < |content| => content[i]);
      assert cells[..] == content;
      var display := new Display(cells, x, y, attr);
      var _ := display.PutText(text);
      pages := pages[page := cells[..]];
      x, y := display.x, display.y;
    }

    /** putc_kbd, on the page the active directory leads to. */
    method PutcKbd(c: Byte)
      requires Valid() && Mapped(Video(), cr3)
      modifies this`pages, this`x, this`y
      ensures Video() == TypeChar(Proc(), old(Video()), c)
    {
      assert MappedPage(Video(), cr3, 0);
      var page := ActivePage(0);
      var content := pages[page];
      var cells := new Cell[PAGE_CELLS](i requires 0 <= i < |content| => content[i]);
      assert cells[..] == content;
      var display := new Display(cells, x, y, attr);
      display.PutC(c);
      pages := pages[page := cells[..]];
      x, y := display.x, display.y;
    }

    /** clear_and_reset, and the cursors with it. */
    method ClearScreen()
      requires Valid() && ProcOk(Proc()) && Mapped(Video(), cr3)
      modifies this`pages, this`x, this`y, this`cursors
      ensures Video() == ClearVideo(Proc(), old(Video()))
    {
      assert MappedPage(Video(), cr3, 0);
      var page := ActivePage(0);
      var content := pages[page];
      var cells := new Cell[PAGE_CELLS](i requires 0 <= i < |content| => content[i]);
      assert cells[..] == content;
      ClearCells(cells, attr);
      pages := pages[page := cells[..]];
      x, y := 0, 0;
      cursors := cursors[terminalState := Cursor(0, 0)];
    }

    /** printf_t of a text without conversions: one write_terminal per character. */
    method PrintText(text: seq<Byte>)
      requires Valid() && ProcOk(Proc()) && Mapped(Video(), cr3) && 0 !in text && text != []
      modifies this`pages, this`cursors, this`x, this`y
      ensures Video() == Kernel.WriteTerminal(Proc(), old(Video()), text)
    {
      ghost var p, v := Proc(), Video();
      WriteTerminal([text[0]]);
      var i := 1;
      assert text[..1] == [text[0]];
      while i < |text|
        invariant 1 <= i <= |text| && Valid() && Proc() == p
        invariant Video() == Kernel.WriteTerminal(p, v, text[..i])
      {
        OneMoreChar(p, v, text, i);
        WriteTerminal([text[i]]);
        i := i + 1;
      }
      assert text[..|text|] == text;
    }

    /** The two lines of the refusal. */
    method Refuse()
      requires Valid() && ProcOk(Proc()) && Mapped(Video(), cr3)
      modifies this`pages, this`cursors, this`x, this`y
      ensures Video() == Kernel.WriteTerminal(Proc(), old(Video()), REFUSED)
    {
      WritesCompose(Proc(), Video(), NO_PROCESS, PROMPT);
      PrintText(NO_PROCESS);
      PrintText(PROMPT);
    }

    /** The Alt-Fn branch of process_sent_scancode, from the change of directory to its undoing;
        a launch leaves through internal_execute instead. */
    method AltKeyPressed(t: int, id: int, src: Source, memory: array<Byte>)
      requires Valid() && HasCurrent(Proc()) && IsTerminal(t) && Mapped(Video(), top[terminalState])
      requires SourceOk(src) && memory.Length == Loader.MEMORY
      requires Paging.BlocksMapped(DirectoryUnder(src.kernel, top[terminalState]))
      modifies this, memory
      ensures Valid()
      ensures State(Proc(), Video(), src.img) == AltKeyStep(State(old(Proc()), old(Video()), src.img), t, id)
      ensures memory[..] == AltKeyMemory(old(Proc()), src.img, t, old(memory[..]))
    {
      ghost var s := State(Proc(), Video(), src.img);
      AltKeyLoads(Proc(), src.img, t, memory[..]);
      cr3 := top[terminalState];
      if t == terminalState {
        cr3 := top[beingServiced];
      } else {
        assert Proc() == KeyboardView(s.p);
        OtherKey(t, id, src, memory);
        OtherKeyIs(s, Proc(), Video(), t, id);
      }
    }

    /** Alt-Fn of another terminal, with the visible terminal's directory active. */
    method OtherKey(t: int, id: int, src: Source, memory: array<Byte>)
      requires Valid() && HasCurrent(Proc()) && IsTerminal(t) && t != terminalState
      requires Mapped(Video(), cr3) && cr3 == top[terminalState] && SourceOk(src) && memory.Length == Loader.MEMORY
      requires Paging.BlocksMapped(DirectoryUnder(src.kernel, cr3))
      modifies this, memory
      ensures Valid()
      ensures OtherKeyDone(old(Proc()), old(Video()), Proc(), Video(), t, id)
      ensures memory[..] == ShellLoaded(src.img, Launches(old(Proc()), t), old(memory[..]), LeastFree(old(Proc()).used))
    {
      if t == 0 || t in launched {
        SwitchKey(t);
      } else {
        NewTerminal(t, id, src, memory);
      }
    }

    /** Alt-Fn of a terminal that was never launched. */
    method NewTerminal(t: int, id: int, src: Source, memory: array<Byte>)
      requires Valid() && HasCurrent(Proc()) && IsTerminal(t) && t != terminalState && t != 0 && t !in launched
      requires Mapped(Video(), cr3) && cr3 == top[terminalState] && SourceOk(src) && memory.Length == Loader.MEMORY
      requires Paging.BlocksMapped(DirectoryUnder(src.kernel, cr3))
      modifies this, memory
      ensures Valid()
      ensures var p, v := old(Proc()), old(Video());
              if LeastFree(p.used) != FAILURE then
                && Proc() == LaunchProc(p, t, id)
                && Video() == SetupTable(ChangeTerminal(p, v, p.visible, t), true, LeastFree(p.used))
              else Proc() == Restored(p) && Video() == Kernel.WriteTerminal(p, v, REFUSED)
      ensures memory[..] == ShellLoaded(src.img, LeastFree(old(Proc()).used) != FAILURE, old(memory[..]),
                                        LeastFree(old(Proc()).used))
    {
      var free := GetAvailablePid();
      if free != FAILURE {
        Launch(t, id, src, memory);
      } else {
        RefuseKey();
      }
    }

    method RefuseKey()
      requires Valid() && ProcOk(Proc()) && Mapped(Video(), cr3)
      modifies this`pages, this`cursors, this`x, this`y, this`cr3
      ensures Valid() && Proc() == Restored(old(Proc()))
      ensures Video() == Kernel.WriteTerminal(old(Proc()), old(Video()), REFUSED)
    {
      Refuse();
      cr3 := top[beingServiced];
    }

    /** Alt-Fn of a launched terminal, with the visible terminal's directory active. */
    method SwitchKey(t: int)
      requires Valid() && ProcOk(Proc()) && IsTerminal(t) && Mapped(Video(), cr3)
      modifies this`pages, this`cursors, this`x, this`y, this`tables, this`terminalState, this`cr3
      ensures Valid() && Proc() == Restored(old(Proc()).(visible := t))
      ensures Video() == ChangeTerminal(old(Proc()), old(Video()), old(terminalState), t)
    {
      ChangeTerminalState(terminalState, t);
      cr3 := top[beingServiced];
    }

    /** Switching to a terminal for the first time and starting its shell. */
    method Launch(t: int, id: int, src: Source, memory: array<Byte>)
      requires Valid() && HasCurrent(Proc()) && IsTerminal(t) && Mapped(Video(), cr3) && cr3 == top[terminalState]
      requires t != terminalState && t != 0 && t !in launched && LeastFree(Proc().used) != FAILURE
      requires SourceOk(src) && memory.Length == Loader.MEMORY
      requires Paging.BlocksMapped(DirectoryUnder(src.kernel, cr3))
      modifies this, memory
      ensures Valid()
      ensures Proc() == LaunchProc(old(Proc()), t, id)
      ensures Video() == SetupTable(ChangeTerminal(old(Proc()), old(Video()), old(terminalState), t), true,
                                    LeastFree(old(Proc()).used))
      ensures memory[..] == CommandLoaded(src.img, Loader.SHELL, true, old(memory[..]), LeastFree(old(Proc()).used))
    {
      SwitchAndPark(t, id);
      StartShell(src, memory, FIRST_TERM_SHELL, id);
    }

    method SwitchAndPark(t: int, id: int)
      requires Valid() && HasCurrent(Proc()) && IsTerminal(t) && Mapped(Video(), cr3)
      modifies this`pages, this`cursors, this`x, this`y, this`tables, this`terminalState
      modifies this`pcbs, this`beingServiced, this`launched
      ensures Valid() && HasCurrent(Proc()) && Proc() == ParkedFor(old(Proc()), t, id)
      ensures VideoOk(Video()) && Video() == ChangeTerminal(old(Proc()), old(Video()), old(terminalState), t)
    {
      ChangeTerminalState(terminalState, t);
      Park(id);
    }

    /** The interrupted process's flags and context, and the new terminal in charge. */
    method Park(id: int)
      requires Valid() && HasCurrent(Proc())
      modifies this`pcbs, this`beingServiced, this`launched
      ensures Valid() && Proc() == ParkedFor(old(Proc()), terminalState, id)
    {
      var curr := SlotOf(esp0);
      var c := pcbs[curr];
      pcbs := pcbs[curr := c.(irq := c.irq + [c.flags], flags := WithInterrupt(c.flags))];
      beingServiced := terminalState;
      pcbs := pcbs[curr := pcbs[curr].(eip := SwitchTerminalContext, frame := KeyboardFrame(id))];
      launched := launched + {terminalState};
    }

    /** vidmap: user access to VIDEO in the running process's directory and table. */
    method VidmapCall(ghost img: FileSystem.Image)
      requires Valid() && Defined(State(Proc(), Video(), img), Vidmap)
      modifies this`directories, this`tables
      ensures State(Proc(), Video(), img) == Step(State(old(Proc()), old(Video()), img), Vidmap)
    {
      var q := pcbs[SlotOf(esp0)].pid;
      directories := directories[q := Paging.GrantedDirectory(directories[q])];
      tables := tables[q := Paging.GrantedVideo(tables[q])];
    }

    /** The video page reached through the active directory. */
    function ActivePage(k: int): int
      requires VideoOk(Video()) && 0 <= k <= NUM_TERMINALS && (cr3 == KERNEL_DIRECTORY || IsPid(cr3))
      reads this
    {
      if cr3 == KERNEL_DIRECTORY then k else tables[cr3][Paging.VIDEO_PAGE + k] / Paging.PAGE - Paging.VIDEO_PAGE
    }
  }

  /** The directory active before a launch does not matter: the new shell's replaces it. */
  lemma LaunchIgnoresDirectory(p: Proc, cr3: int, t: int, id: int)
    requires HasCurrent(p) && IsTerminal(t) && LeastFree(p.used) != FAILURE
    ensures LaunchProc(p.(cr3 := cr3), t, id) == LaunchProc(p, t, id)
  {
  }

  /** The loop of clear over the cells of a page. */
  method ClearCells(cells: array<Cell>, attr: Byte)
    requires cells.Length == PAGE_CELLS
    modifies cells
    ensures cells[..] == BlankScreen(old(cells[..]), attr).page
    ensures forall k :: 0 <= k < 2000 ==> cells[k] == Cell(32, attr)
    ensures forall k :: 2000 <= k < 2048 ==> cells[k] == old(cells[k])
  {
    for i := 0 to CELLS
      invariant forall k :: 0 <= k < i ==> cells[k] == Blank(attr)
      invariant forall k :: CELLS <= k < PAGE_CELLS ==> cells[k] == old(cells[k])
    {
      cells[i] := Cell(SPACE, attr);
    }
  }

  lemma NextFound(p: Proc, k: int)
    requires ProcOk(p) && 1 <= k <= NUM_TERMINALS && After(p.serviced, k) in p.launched
    requires forall j :: 1 <= j < k ==> After(p.serviced, j) !in p.launched
    ensures After(p.serviced, k) == NextLaunched(p.launched, p.serviced)
  {
    if k > 1 {
      assert After(p.serviced, 1) !in p.launched;
    }
    if k > 2 {
      assert After(p.serviced, 2) !in p.launched;
    }
  }

  lemma NoneLaunched(launched: set<int>, serviced: int)
    requires IsTerminal(serviced) && forall t :: t in launched ==> IsTerminal(t)
    requires forall k :: 1 <= k <= NUM_TERMINALS ==> After(serviced, k) !in launched
    ensures launched == {} && After(serviced, NUM_TERMINALS) == serviced
  {
    assert After(serviced, 1) !in launched && After(serviced, 2) !in launched && After(serviced, 3) !in launched;
    assert forall t :: t in launched ==> t == 0 || t == 1 || t == 2;
  }
}
