/** Physical memory over whole runs: user code stores through its own page directory, the kernel loads
    programs, and the block of a process changes by nothing but its own code and its own start. */
module ProcessMemory {
  import opened Bytes
  import opened Kernel
  import opened Refinement
  import opened Runs
  import opened Isolation

  /** The kernel's state and the memory that holds the process blocks. */
  datatype World = World(s: State, memory: seq<Byte>)

  /** A step of the kernel (a store into the VIDEO page among them), a store of user code into its program
      page, or a copy that a system call makes into a buffer of the running process. */
  datatype Act = Do(ev: Event) | Store(va: nat, b: Byte) | Copy(va: nat, data: seq<Byte>)

  /** Memory after a byte was stored at a physical address, if it is process memory. */
  function Stored(memory: seq<Byte>, byte: nat, b: Byte): (r: seq<Byte>)
    ensures |r| == |memory|
  {
    if Paging.START_MEM <= byte < |memory| then memory[byte := b] else memory
  }

  /** Where virtual addresses lead, or that they fault. */
  type Walk = nat -> Option<nat>

  function WalkOf(space: Paging.Space): Walk {
    va => if Paging.SpaceOk(space) && va < 0x1_0000_0000 then Paging.Translate(space, va) else None
  }

  /** The copy, byte by byte; it ends where a byte faults. */
  function CopyOut(walk: Walk, memory: seq<Byte>, va: nat, data: seq<Byte>): (r: seq<Byte>)
    ensures |r| == |memory|
    decreases |data|
  {
    if data == [] || walk(va).None? then memory
    else CopyOut(walk, Stored(memory, walk(va).value, data[0]), va + 1, data[1..])
  }

  /** User code runs under the active directory and touches what that lets it touch. System calls copy
      only to buffers that start in the program page: read, getargs and vidmap refuse any other. */
  ghost predicate Acts(x: World, act: Act, y: World) {
    && |x.memory| == Loader.MEMORY
    && match act
       case Do(ev) => Free(x.s, ev, y.s) && y.memory == StepMemory(x.s, ev, x.memory)
       case Store(va, b) =>
         && y.s == x.s && VideoOk(x.s.v) && IsPid(x.s.p.cr3) && x.s.p.cr3 in x.s.p.used && Paging.InProgramPage(va)
         && exists byte :: Stores(x.s.v, x.s.p.cr3, va, byte) && y.memory == Stored(x.memory, byte, b)
       case Copy(va, data) =>
         && y.s == x.s && VideoOk(x.s.v) && IsPid(x.s.p.cr3) && x.s.p.cr3 in x.s.p.used
         && y.memory == if Paging.InProgramPage(va) then CopyOut(WalkOf(SpaceOf(x.s.v, x.s.p.cr3)), x.memory, va, data)
                        else x.memory
  }

  ghost predicate ActAt(worlds: seq<World>, acts: seq<Act>, i: int) {
    0 <= i < |acts| && i + 1 < |worlds| && Acts(worlds[i], acts[i], worlds[i + 1])
  }

  ghost predicate Connected(worlds: seq<World>, acts: seq<Act>) {
    && |worlds| == |acts| + 1 && |worlds[0].memory| == Loader.MEMORY
    && forall i :: 0 <= i < |acts| ==> ActAt(worlds, acts, i)
  }

  /** Memory when the first shell starts: it was loaded for pid 0. */
  ghost function BootMemory(boot: State, before: seq<Byte>): (r: seq<Byte>)
    requires Fresh(boot) && |before| == Loader.MEMORY
    ensures |r| == Loader.MEMORY
  {
    CommandLoaded(boot.img, Loader.SHELL, true, before, 0)
  }

  ghost predicate LoadedAtBoot(boot: State, memory: seq<Byte>)
    requires Fresh(boot)
  {
    exists before :: |before| == Loader.MEMORY && memory == BootMemory(boot, before)
  }

  /** A run of kernel steps, user stores and copies from boot. */
  ghost predicate Trace(boot: State, worlds: seq<World>, acts: seq<Act>) {
    Fresh(boot) && Connected(worlds, acts) && worlds[0].s == Booted(boot) && LoadedAtBoot(boot, worlds[0].memory)
  }

  predicate InBlock(q: int, a: nat) {
    Paging.START_MEM + q * Paging.PID_SPACE <= a < Paging.START_MEM + (q + 1) * Paging.PID_SPACE
  }

  /** Two memories hold the same in a pid's block. */
  ghost predicate SameBlock(m: seq<Byte>, n: seq<Byte>, q: int) {
    |m| == |n| && forall a :: 0 <= a < |m| && InBlock(q, a) ==> m[a] == n[a]
  }

  /** What may change a pid's block: a store of its own code, a copy its own system call makes, or its own
      start. */
  ghost predicate Own(x: World, act: Act, q: int)
    requires IsPid(q)
  {
    match act
    case Do(ev) => Defined(x.s, ev) && Paging.Setup in OpsOf(x.s, ev, q)
    case Store(_, _) => x.s.p.cr3 == q
    case Copy(_, _) => x.s.p.cr3 == q
  }

  // ---------------------------------------------------------------------------------------
  // One act
  // ---------------------------------------------------------------------------------------

  lemma LoadKeepsBlock(img: FileSystem.Image, command: seq<Byte>, started: bool, memory: seq<Byte>, pid: int, q: int)
    requires FileSystem.ImageOk(img) && |memory| == Loader.MEMORY && IsPid(q) && !(started && pid == q)
    ensures SameBlock(memory, CommandLoaded(img, command, started, memory, pid), q)
  {
    var d := FileSystem.Lookup(img, Loader.CommandName(command) + [0]);
    if started && d.Some? && IsPid(pid) {
      forall a | 0 <= a < |memory| && InBlock(q, a)
        ensures memory[a] == Loader.LoadedMemory(img, d.value.inode, memory, pid)[a]
      {
        Loader.LoadStaysInBlock(img, d.value.inode, memory, pid, a);
      }
    }
  }

  /** A kernel step loads nothing but a process it starts. */
  lemma StepKeepsBlock(s: State, ev: Event, memory: seq<Byte>, q: int)
    requires Defined(s, ev) && |memory| == Loader.MEMORY && IsPid(q) && Paging.Setup !in OpsOf(s, ev, q)
    ensures SameBlock(memory, StepMemory(s, ev, memory), q)
  {
    match ev
    case Execute(command, stack, _) =>
      LoadKeepsBlock(s.img, command, ExecuteStarts(s, command, stack), memory, LeastFree(s.p.used), q);
    case Halt(_) =>
      var c := s.p.pcbs[Current(s.p)];
      LoadKeepsBlock(s.img, Loader.SHELL, c.flags == FIRST_TERM_SHELL, memory, LeastFree(s.p.used - {c.pid}), q);
    case AltKey(t, _) =>
      LoadKeepsBlock(s.img, Loader.SHELL, Launches(s.p, t), memory, LeastFree(s.p.used), q);
    case _ =>
  }

  /** User code stores into its own block or outside all of them. */
  lemma StoreKeepsBlock(boot: State, evs: seq<Event>, x: World, va: nat, b: Byte, y: World, q: int)
    requires Fresh(boot) && Path(Free, Booted(boot), evs, x.s) && IsPid(q)
    requires Acts(x, Store(va, b), y) && x.s.p.cr3 != q
    ensures SameBlock(x.memory, y.memory, q)
  {
    var byte :| Stores(x.s.v, x.s.p.cr3, va, byte) && y.memory == Stored(x.memory, byte, b);
    StoreLands(boot, evs, x.s, x.s.p.cr3, va, byte, q);
    StoredOutside(x.memory, byte, b, q);
  }

  lemma StoredOutside(memory: seq<Byte>, byte: nat, b: Byte, q: int)
    requires !InBlock(q, byte)
    ensures SameBlock(memory, Stored(memory, byte, b), q)
  {
  }

  lemma StoreLands(boot: State, evs: seq<Event>, s: State, p: int, va: nat, byte: nat, q: int)
    requires VideoOk(s.v) && IsPid(p) && p in s.p.used && IsPid(q) && p != q && Touches(s.v, p, va, byte)
    requires Fresh(boot) && Path(Free, Booted(boot), evs, s)
    ensures !InBlock(q, byte)
  {
    VideoMapFromBoot(boot, evs, s);
    UserReach(boot, evs, s, p, va, byte);
    assert TableOk(s.p, s.v, p);
    NotInBlock(s.p.visible, s.p.pcbs[p].owner, p, q, va, byte);
  }

  lemma NotInBlock(visible: int, owner: int, p: int, q: int, va: nat, byte: nat)
    requires IsPid(p) && IsPid(q) && p != q && IsTerminal(owner)
    requires if Paging.InVideoPage(va) then byte == HomeAddress(visible, owner) + (va - Paging.VIDEO)
             else Paging.BlockAddress(p) <= byte < Paging.BlockAddress(p) + Paging.PID_SPACE
    ensures !InBlock(q, byte)
  {
  }

  // ---------------------------------------------------------------------------------------
  // What a process that starts reads
  // ---------------------------------------------------------------------------------------

  /** The event starts a process with pid n: an execute of something loadable, the end of a first shell,
      or a function key of a terminal that is not launched, while a pid is free. */
  ghost predicate Starting(s: State, ev: Event, n: int)
    requires StateOk(s)
  {
    n != FAILURE &&
    match ev
    case Execute(command, stack, _) =>
      |stack| == 4 && Loader.Loadable(s.img, command, stack) && n == LeastFree(s.p.used)
    case Halt(_) =>
      var c := s.p.pcbs[Current(s.p)]; c.flags == FIRST_TERM_SHELL && n == LeastFree(s.p.used - {c.pid})
    case AltKey(t, _) =>
      t !in s.p.launched && t != 0 && t != s.p.visible && n == LeastFree(s.p.used)
    case _ => false
  }

  /** The file it runs: the first word of the command, or the shell. */
  function RunName(ev: Event): seq<Byte> {
    if ev.Execute? then Loader.CommandName(ev.command) else [115, 104, 101, 108, 108]
  }

  /** Process n runs a file: the processor enters n under n's directory and stack; user code reads the file
      from 0x08048000 on, as far as it was loaded, and elsewhere in the program page what the block held;
      it may store in the program page and nowhere else. */
  ghost predicate RunsFile(s: State, r: State, memory: seq<Byte>, after: seq<Byte>, name: seq<Byte>, n: int) {
    && FileSystem.ImageOk(s.img) && VideoOk(r.v) && IsPid(n) && |memory| == Loader.MEMORY
    && r.p.control == Entered(n) && r.p.cr3 == n && r.p.esp0 == StackTop(n) && n in r.p.used
    && var d := FileSystem.Lookup(s.img, name + [0]);
    && d.Some? && ReadsProgram(s.img, d.value.inode, SpaceOf(r.v, n), memory, after, n)
  }

  ghost predicate ReadsProgram(img: FileSystem.Image, inode: nat, space: Paging.Space, memory: seq<Byte>,
                               after: seq<Byte>, n: nat)
    requires FileSystem.ImageOk(img) && n < Paging.MAX_TASKS && |memory| == Loader.MEMORY && Paging.SpaceOk(space)
  {
    && Loader.ChildReads(img, inode, memory, after, space, n)
    && (forall i :: 0 <= i < Loader.LoadedBytes(img, inode) ==> ReadsAt(img, inode, space, after, i))
    && forall va :: 0 <= va < 0x1_0000_0000 ==> (Paging.UserWritable(space, va) <==> Paging.InProgramPage(va))
  }

  /** User code reads byte i of the file at its place behind 0x08048000. */
  ghost predicate ReadsAt(img: FileSystem.Image, inode: nat, space: Paging.Space, memory: seq<Byte>, i: int)
    requires FileSystem.ImageOk(img) && Paging.SpaceOk(space)
  {
    && inode < |img.inodes| && 0 <= i < img.inodes[inode].length && 0x804_8000 + i < 0x1_0000_0000
    && Loader.UserReads(space, memory, 0x804_8000 + i, FileSystem.FlatFile(img, inode)[i])
  }

  lemma ProgramRead(img: FileSystem.Image, inode: nat, slot: Paging.Space, memory: seq<Byte>, n: nat)
    requires FileSystem.ImageOk(img) && n < Paging.MAX_TASKS && |memory| == Loader.MEMORY && Paging.SpaceOk(slot)
    ensures ReadsProgram(img, inode, Paging.Apply(slot, n, Paging.Setup), memory,
                         Loader.LoadedMemory(img, inode, memory, n), n)
  {
    var space, after := Paging.Apply(slot, n, Paging.Setup), Loader.LoadedMemory(img, inode, memory, n);
    Loader.LoadedReads(img, inode, memory, slot, n);
    forall i | 0 <= i < Loader.LoadedBytes(img, inode)
      ensures ReadsAt(img, inode, space, after, i)
    {
      FileByteRead(img, inode, space, memory, after, n, i);
    }
    forall va | 0 <= va < 0x1_0000_0000
      ensures Paging.UserWritable(space, va) <==> Paging.InProgramPage(va)
    {
      FreshWritable(slot, n, va);
    }
  }

  lemma FileByteRead(img: FileSystem.Image, inode: nat, space: Paging.Space, memory: seq<Byte>, after: seq<Byte>,
                     n: nat, i: nat)
    requires FileSystem.ImageOk(img) && n < Paging.MAX_TASKS && |memory| == Loader.MEMORY && Paging.SpaceOk(space)
    requires Loader.ChildReads(img, inode, memory, after, space, n) && i < Loader.LoadedBytes(img, inode)
    ensures ReadsAt(img, inode, space, after, i)
  {
    assert Loader.UserReads(space, after, Paging.TASK_BASE + (Loader.IMAGE_OFFSET + i),
                            Loader.ProgramByte(img, inode, memory, n, Loader.IMAGE_OFFSET + i));
  }

  lemma FreshWritable(slot: Paging.Space, n: nat, va: nat)
    requires n < Paging.MAX_TASKS && Paging.SpaceOk(slot) && va < 0x1_0000_0000
    ensures Paging.UserWritable(Paging.Apply(slot, n, Paging.Setup), va) <==> Paging.InProgramPage(va)
  {
    Paging.SetupShape(slot, n);
    if va < Paging.BIG_PAGE {
      Paging.LowWalk(Paging.Apply(slot, n, Paging.Setup), n, false, Paging.VIDEO, va);
    } else {
      Paging.HighWalk(Paging.Apply(slot, n, Paging.Setup), n, false, Paging.VIDEO, va);
    }
  }

  lemma SetupSpaceIs(v: Video, n: int)
    requires VideoOk(v) && IsPid(n)
    ensures VideoOk(SetupTable(v, true, n))
    ensures SpaceOf(SetupTable(v, true, n), n) == Paging.Apply(SpaceOf(v, n), n, Paging.Setup)
  {
  }

  lemma ShellName()
    ensures Loader.CommandName(Loader.SHELL) == [115, 104, 101, 108, 108]
  {
    Loader.CommandNameIs(Loader.SHELL, 5);
    assert Loader.SHELL[..5] == Loader.SHELL;
  }

  /** What a step that starts a process does to memory, video side and registers. */
  lemma StartEffect(s: State, ev: Event, memory: seq<Byte>, n: int)
    requires Defined(s, ev) && Starting(s, ev, n) && |memory| == Loader.MEMORY && Loader.ShellReady(s.img)
    ensures IsPid(n) && FileSystem.Lookup(s.img, RunName(ev) + [0]).Some?
    ensures StepMemory(s, ev, memory) ==
            Loader.LoadedMemory(s.img, FileSystem.Lookup(s.img, RunName(ev) + [0]).value.inode, memory, n)
    ensures exists v :: VideoOk(v) && Step(s, ev).v == SetupTable(v, true, n)
    ensures var r := Step(s, ev).p; r.control == Entered(n) && r.cr3 == n && r.esp0 == StackTop(n) && n in r.used
  {
    ShellName();
    var zeros: seq<Byte> := [0, 0, 0, 0];
    assert Loader.Loadable(s.img, Loader.SHELL, zeros);
    match ev
    case Execute(command, stack, _) =>
    case Halt(_) =>
    case AltKey(t, _) =>
      assert VideoOk(ChangeTerminal(KeyboardView(s.p), s.v, s.p.visible, t));
  }

  /** In every state reachable from boot, whatever starts a process: it runs the file its command names, or
      the shell, from its own block. */
  lemma EveryStartLoads(boot: State, evs: seq<Event>, s: State, ev: Event, memory: seq<Byte>, n: int)
    requires Fresh(boot) && Path(Free, Booted(boot), evs, s)
    requires Defined(s, ev) && Starting(s, ev, n) && |memory| == Loader.MEMORY
    ensures RunsFile(s, Step(s, ev), memory, StepMemory(s, ev, memory), RunName(ev), n)
  {
    ImageFromBoot(boot, evs, s);
    StartEffect(s, ev, memory, n);
    var v :| VideoOk(v) && Step(s, ev).v == SetupTable(v, true, n);
    SetupSpaceIs(v, n);
    ProgramRead(s.img, FileSystem.Lookup(s.img, RunName(ev) + [0]).value.inode, SpaceOf(v, n), memory, n);
  }

  /** The first shell too runs from its file. */
  lemma BootLoads(boot: State, before: seq<Byte>)
    requires Fresh(boot) && |before| == Loader.MEMORY
    ensures RunsFile(boot, Booted(boot), before, BootMemory(boot, before), [115, 104, 101, 108, 108], 0)
  {
    FreshCurrent(boot);
    ShellName();
    var zeros: seq<Byte> := [0, 0, 0, 0];
    assert Loader.Loadable(boot.img, Loader.SHELL, zeros);
    SetupSpaceIs(boot.v, 0);
    ProgramRead(boot.img, FileSystem.Lookup(boot.img, Loader.SHELL + [0]).value.inode, SpaceOf(boot.v, 0), before, 0);
  }

  ghost function ImageIs(img: FileSystem.Image): State -> bool {
    (s: State) => s.img == img
  }

  lemma ImageFromBoot(boot: State, evs: seq<Event>, s: State)
    requires Fresh(boot) && Path(Free, Booted(boot), evs, s)
    ensures s.img == boot.img && Loader.ShellReady(s.img)
  {
    forall x, ev, y | ImageIs(boot.img)(x) && Free(x, ev, y)
      ensures ImageIs(boot.img)(y)
    {
      StepKeepsImage(x, ev);
    }
    PathKeeps(Free, ImageIs(boot.img), Booted(boot), evs, s);
  }

  // ---------------------------------------------------------------------------------------
  // Copies into user buffers
  // ---------------------------------------------------------------------------------------

  /** How much of a copy happens before the end of the program page. */
  function CopiedPart(va: nat, data: seq<Byte>): nat
    requires Paging.TASK_BASE <= va <= Paging.TASK_BASE + Paging.BIG_PAGE
  {
    var room := Paging.TASK_BASE + Paging.BIG_PAGE - va;
    if |data| < room then |data| else room
  }

  /** Memory with bytes put at an address. */
  function Placed(memory: seq<Byte>, at: nat, data: seq<Byte>): seq<Byte>
    requires at + |data| <= |memory|
  {
    memory[..at] + data + memory[at + |data|..]
  }

  lemma PlacedStep(memory: seq<Byte>, at: nat, data: seq<Byte>, n: nat)
    requires 0 < n <= |data| && at + n <= |memory|
    ensures Placed(memory[at := data[0]], at + 1, data[1..][..n - 1]) == Placed(memory, at, data[..n])
  {
    var a, b := Placed(memory[at := data[0]], at + 1, data[1..][..n - 1]), Placed(memory, at, data[..n]);
    forall k | 0 <= k < |memory|
      ensures a[k] == b[k]
    {
    }
  }

  /** Where a virtual address of the program page lies in memory. */
  function BlockByte(q: nat, va: nat): nat
    requires va >= Paging.TASK_BASE
  {
    Paging.BlockAddress(q) + (va - Paging.TASK_BASE)
  }

  lemma FitsBlock(q: nat, va: nat, data: seq<Byte>)
    requires q < Paging.MAX_TASKS && Paging.TASK_BASE <= va <= Paging.TASK_BASE + Paging.BIG_PAGE
    ensures Paging.START_MEM <= Paging.BlockAddress(q) <= BlockByte(q, va)
    ensures BlockByte(q, va) + CopiedPart(va, data) <= Paging.BlockAddress(q) + Paging.PID_SPACE <= Loader.MEMORY
  {
  }

  /** A walk that leads from the program page to a pid's own block, and faults behind it. */
  ghost predicate Owns(walk: Walk, q: nat) {
    && (forall va :: Paging.InProgramPage(va) ==> walk(va) == Some(BlockByte(q, va)))
    && walk(Paging.TASK_BASE + Paging.BIG_PAGE) == None
  }

  lemma SpaceOwns(space: Paging.Space, q: nat)
    requires OwnPage(space, q)
    ensures Owns(WalkOf(space), q)
  {
    forall va | Paging.InProgramPage(va)
      ensures WalkOf(space)(va) == Some(BlockByte(q, va))
    {
      assert OwnByte(space, q, va);
    }
  }

  /** A copy that starts in the program page puts its bytes in the pid's own block, up to the end of the
      page, where it faults. */
  lemma {:induction false} CopyExact(walk: Walk, q: nat, memory: seq<Byte>, va: nat, data: seq<Byte>)
    requires Owns(walk, q) && q < Paging.MAX_TASKS && |memory| == Loader.MEMORY
    requires Paging.TASK_BASE <= va <= Paging.TASK_BASE + Paging.BIG_PAGE
    ensures BlockByte(q, va) + CopiedPart(va, data) <= |memory|
    ensures CopyOut(walk, memory, va, data) == Placed(memory, BlockByte(q, va), data[..CopiedPart(va, data)])
    decreases |data|
  {
    var n := CopiedPart(va, data);
    FitsBlock(q, va, data);
    if n == 0 {
      assert data[..0] == [];
      assert Placed(memory, BlockByte(q, va), []) == memory;
    } else {
      CopyExact(walk, q, memory[BlockByte(q, va) := data[0]], va + 1, data[1..]);
      PlacedStep(memory, BlockByte(q, va), data, n);
    }
  }

  /** Copies run in kernel mode, which the read/write bit does not bind; still each byte of one goes where
      the process itself may store. */
  lemma CopyWhereStores(boot: State, evs: seq<Event>, s: State, va: nat, data: seq<Byte>, k: nat)
    requires Fresh(boot) && Path(Free, Booted(boot), evs, s) && s.p.cr3 in s.p.used
    requires Paging.InProgramPage(va) && k < CopiedPart(va, data)
    ensures VideoOk(s.v) && IsPid(s.p.cr3) && StoresOwn(s.v, s.p.cr3, va + k)
  {
    UsedOwnPage(boot, evs, s, s.p.cr3);
    OwnStores(s.v, s.p.cr3, va, data, k);
  }

  /** User code of q may store at an address of its program page, and reaches its own block there. */
  ghost predicate StoresOwn(v: Video, q: int, va: nat)
    requires VideoOk(v) && IsPid(q)
  {
    Paging.InProgramPage(va) && Stores(v, q, va, BlockByte(q, va))
  }

  lemma OwnStores(v: Video, q: int, va: nat, data: seq<Byte>, k: nat)
    requires VideoOk(v) && IsPid(q) && OwnPage(SpaceOf(v, q), q)
    requires Paging.InProgramPage(va) && k < CopiedPart(va, data)
    ensures StoresOwn(v, q, va + k)
  {
    assert OwnByte(SpaceOf(v, q), q, va + k);
  }

  /** A store of user code in its program page changes that byte of its own block and no other, and the
      process reads it back. */
  lemma StoreExact(boot: State, evs: seq<Event>, x: World, va: nat, b: Byte, y: World)
    requires Fresh(boot) && Path(Free, Booted(boot), evs, x.s) && Acts(x, Store(va, b), y)
    ensures Paging.InProgramPage(va) && VideoOk(y.s.v) && IsPid(y.s.p.cr3)
    ensures BlockByte(x.s.p.cr3, va) < |x.memory| && y.memory == x.memory[BlockByte(x.s.p.cr3, va) := b]
    ensures Loader.UserReads(SpaceOf(y.s.v, y.s.p.cr3), y.memory, va, b)
  {
    var byte :| Stores(x.s.v, x.s.p.cr3, va, byte) && y.memory == Stored(x.memory, byte, b);
    UsedOwnPage(boot, evs, x.s, x.s.p.cr3);
    StoreInBlock(x.s.v, x.s.p.cr3, va, byte);
  }

  lemma StoreInBlock(v: Video, q: int, va: nat, byte: nat)
    requires VideoOk(v) && IsPid(q) && OwnPage(SpaceOf(v, q), q) && Paging.InProgramPage(va) && Stores(v, q, va, byte)
    ensures byte == BlockByte(q, va) && Paging.START_MEM <= byte < Loader.MEMORY
  {
    assert OwnByte(SpaceOf(v, q), q, va);
  }

  lemma CopyKeepsBlock(boot: State, evs: seq<Event>, x: World, va: nat, data: seq<Byte>, y: World, q: int)
    requires Fresh(boot) && Path(Free, Booted(boot), evs, x.s) && IsPid(q)
    requires Acts(x, Copy(va, data), y) && x.s.p.cr3 != q
    ensures SameBlock(x.memory, y.memory, q)
  {
    if Paging.InProgramPage(va) {
      UsedOwnPage(boot, evs, x.s, x.s.p.cr3);
      CopyLands(SpaceOf(x.s.v, x.s.p.cr3), x.s.p.cr3, x.memory, va, data, q);
    }
  }

  lemma CopyLands(space: Paging.Space, p: nat, memory: seq<Byte>, va: nat, data: seq<Byte>, q: int)
    requires OwnPage(space, p) && IsPid(p) && IsPid(q) && p != q && |memory| == Loader.MEMORY
    requires Paging.InProgramPage(va)
    ensures SameBlock(memory, CopyOut(WalkOf(space), memory, va, data), q)
  {
    SpaceOwns(space, p);
    CopyExact(WalkOf(space), p, memory, va, data);
    FitsBlock(p, va, data);
    PlacedOutside(memory, BlockByte(p, va), data[..CopiedPart(va, data)], p, q);
  }

  lemma PlacedOutside(memory: seq<Byte>, at: nat, data: seq<Byte>, p: int, q: int)
    requires IsPid(p) && IsPid(q) && p != q && |memory| == Loader.MEMORY
    requires Paging.BlockAddress(p) <= at && at + |data| <= Paging.BlockAddress(p) + Paging.PID_SPACE
    ensures SameBlock(memory, Placed(memory, at, data), q)
  {
  }

  // ---------------------------------------------------------------------------------------
  // Whole runs
  // ---------------------------------------------------------------------------------------

  /** The kernel's events of a run. */
  function Events(acts: seq<Act>): seq<Event> {
    if acts == [] then []
    else Events(acts[..|acts| - 1]) + if acts[|acts| - 1].Do? then [acts[|acts| - 1].ev] else []
  }

  lemma EventsStep(acts: seq<Act>, i: nat)
    requires 0 < i <= |acts|
    ensures Events(acts[..i]) == Events(acts[..i - 1]) + if acts[i - 1].Do? then [acts[i - 1].ev] else []
  {
    assert acts[..i][..i - 1] == acts[..i - 1];
  }

  /** Without the stores, a run is a run of the kernel. */
  lemma {:induction false} TraceIsPath(worlds: seq<World>, acts: seq<Act>, i: nat)
    requires Connected(worlds, acts) && i <= |acts|
    ensures Path(Free, worlds[0].s, Events(acts[..i]), worlds[i].s) && |worlds[i].memory| == Loader.MEMORY
    decreases i
  {
    if i > 0 {
      TraceIsPath(worlds, acts, i - 1);
      EventsStep(acts, i);
      assert ActAt(worlds, acts, i - 1);
      ActExtends(worlds[0].s, Events(acts[..i - 1]), worlds[i - 1], acts[i - 1], worlds[i]);
    }
  }

  lemma QuietAct(x: World, act: Act, y: World)
    requires Acts(x, act, y) && !act.Do?
    ensures y.s == x.s && |y.memory| == Loader.MEMORY
  {
  }

  lemma ActExtends(start: State, evs: seq<Event>, x: World, act: Act, y: World)
    requires Path(Free, start, evs, x.s) && Acts(x, act, y)
    ensures Path(Free, start, evs + (if act.Do? then [act.ev] else []), y.s) && |y.memory| == Loader.MEMORY
  {
    if act.Do? {
      PathOne(Free, x.s, act.ev, y.s);
      PathAppend(Free, start, evs, x.s, [act.ev], y.s);
    } else {
      QuietAct(x, act, y);
      assert evs + [] == evs;
    }
  }

  /** In every run from boot, an act changes a pid's block only if it is the pid's own. */
  lemma OnlyOwnActs(boot: State, worlds: seq<World>, acts: seq<Act>, i: nat, q: int)
    requires Trace(boot, worlds, acts) && i < |acts| && IsPid(q)
    ensures SameBlock(worlds[i].memory, worlds[i + 1].memory, q) || Own(worlds[i], acts[i], q)
  {
    assert ActAt(worlds, acts, i);
    TraceIsPath(worlds, acts, i);
    if !Own(worlds[i], acts[i], q) {
      match acts[i]
      case Do(ev) => StepKeepsBlock(worlds[i].s, ev, worlds[i].memory, q);
      case Store(va, b) => StoreKeepsBlock(boot, Events(acts[..i]), worlds[i], va, b, worlds[i + 1], q);
      case Copy(va, data) => CopyKeepsBlock(boot, Events(acts[..i]), worlds[i], va, data, worlds[i + 1], q);
    }
  }

  ghost predicate OwnAt(worlds: seq<World>, acts: seq<Act>, k: int, q: int) {
    0 <= k < |acts| && k < |worlds| && IsPid(q) && Own(worlds[k], acts[k], q)
  }

  lemma SameBlockOnward(a: seq<Byte>, b: seq<Byte>, c: seq<Byte>, q: int)
    requires SameBlock(a, b, q) && SameBlock(b, c, q)
    ensures SameBlock(a, c, q)
  {
  }

  /** Memory isolation: whatever the other processes store, execute, halt, switch or launch, between two
      of a pid's own acts its block does not change. */
  lemma {:induction false} BlockIsPrivate(boot: State, worlds: seq<World>, acts: seq<Act>, i: nat, j: nat, q: int)
    requires Trace(boot, worlds, acts) && i <= j <= |acts| && IsPid(q)
    requires forall k :: i <= k < j ==> !OwnAt(worlds, acts, k, q)
    ensures SameBlock(worlds[i].memory, worlds[j].memory, q)
    decreases j
  {
    if i < j {
      BlockIsPrivate(boot, worlds, acts, i, j - 1, q);
      OnlyOwnActs(boot, worlds, acts, j - 1, q);
      assert !OwnAt(worlds, acts, j - 1, q);
      SameBlockOnward(worlds[i].memory, worlds[j - 1].memory, worlds[j].memory, q);
    }
  }
}
