/** The part of internal_execute that decides what a command runs and loads it (syscalls.c):
    splitting the command, finding the file, the executable magic number of the ELF header
    (chapter 4 of the System V gABI), and copying the file into the pid's own 4MB block. */
module Loader {
  import opened Bytes
  import opened FileSystem
  import Paging

  const MAX_COMMAND := 128
  const ARGUMENT_SEPARATOR := 32
  const MAGIC: seq<Byte> := [0x7f, 0x45, 0x4c, 0x46]
  const IMAGE_OFFSET := 0x48000
  const IMAGE_CAPACITY := 0x3B8000

  /** The command name "shell", as bytes. */
  const SHELL: seq<Byte> := [115, 104, 101, 108, 108]

  // ---------------------------------------------------------------------------------------
  // Which commands can run
  // ---------------------------------------------------------------------------------------

  /** The command up to its first space. */
  function CommandName(command: seq<Byte>): (r: seq<Byte>)
    ensures r <= command && ARGUMENT_SEPARATOR !in r
    ensures |r| < |command| ==> command[|r|] == ARGUMENT_SEPARATOR
  {
    if command == [] || command[0] == ARGUMENT_SEPARATOR then []
    else [command[0]] + CommandName(command[1..])
  }

  /** Four bytes of the file's first block as the code sees them: bytes the file does not have stay
      whatever the stack held. */
  ghost function HeaderSeen(img: Image, inode: nat, offset: nat, stack: seq<Byte>): (m: seq<Byte>)
    requires ImageOk(img) && |stack| == 4
    ensures |m| == 4
    ensures forall i :: 0 <= i < 4 ==>
              m[i] == if ReadOk(img, inode, offset, 4) && offset + i < img.inodes[inode].length
                      then FlatFile(img, inode)[offset + i] else stack[i]
  {
    var n := Available(img, inode, offset, 4);
    if ReadOk(img, inode, offset, 4) && n > 0 then FlatFile(img, inode)[offset..offset + n] + stack[n..]
    else stack
  }

  /** Whether a command (without its NUL) names something execute will run. */
  ghost predicate Loadable(img: Image, command: seq<Byte>, stack: seq<Byte>)
    requires ImageOk(img) && |stack| == 4
  {
    var entry := Lookup(img, CommandName(command) + [0]);
    && |command| < MAX_COMMAND
    && entry.Some? && entry.value.filetype == TYPE_REGULAR
    && HeaderSeen(img, entry.value.inode, 0, stack) == MAGIC
  }

  /** An image whose shell can always be started, whatever the stack holds. */
  ghost predicate ShellReady(img: Image) {
    ImageOk(img) && forall stack: seq<Byte> | |stack| == 4 :: Loadable(img, SHELL, stack)
  }

  /** What a command runs, whatever the stack holds: one of less than 128 bytes whose first word names, in
      the first entry of that name, a regular file that starts with the magic bytes, 0x7f and ELF, in a
      block in range. */
  lemma CommandReadyExact(img: Image, command: seq<Byte>)
    requires ImageOk(img)
    ensures (forall stack: seq<Byte> | |stack| == 4 :: Loadable(img, command, stack)) <==>
            var entry := Lookup(img, CommandName(command) + [0]);
            && |command| < 128 && entry.Some? && entry.value.filetype == 2
            && ReadOk(img, entry.value.inode, 0, 4) && img.inodes[entry.value.inode].length >= 4
            && FlatFile(img, entry.value.inode)[..4] == [0x7f, 'E' as int, 'L' as int, 'F' as int]
  {
    var entry := Lookup(img, CommandName(command) + [0]);
    if entry.Some? {
      MagicWhatever(img, entry.value.inode);
    }
    var zeros: seq<Byte> := [0, 0, 0, 0];
    assert (forall stack: seq<Byte> | |stack| == 4 :: Loadable(img, command, stack)) ==> Loadable(img, command, zeros);
  }

  /** Which images those are: the first entry named shell is a regular file that has the magic
      bytes, in a block in range. */
  lemma ShellReadyExact(img: Image)
    requires ImageOk(img)
    ensures ShellReady(img) <==>
            var entry := Lookup(img, SHELL + [0]);
            && entry.Some? && entry.value.filetype == TYPE_REGULAR
            && ReadOk(img, entry.value.inode, 0, 4) && img.inodes[entry.value.inode].length >= 4
            && FlatFile(img, entry.value.inode)[..4] == MAGIC
  {
    CommandNameIs(SHELL, 5);
    assert SHELL[..5] == SHELL;
    CommandReadyExact(img, SHELL);
  }

  /** The magic bytes are seen whatever the stack holds exactly when they all come from the file. */
  lemma MagicWhatever(img: Image, inode: nat)
    requires ImageOk(img)
    ensures (forall stack: seq<Byte> | |stack| == 4 :: HeaderSeen(img, inode, 0, stack) == MAGIC) <==>
            ReadOk(img, inode, 0, 4) && img.inodes[inode].length >= 4 && FlatFile(img, inode)[..4] == MAGIC
  {
    var zeros: seq<Byte> := [0, 0, 0, 0];
    if HeaderSeen(img, inode, 0, zeros) == MAGIC {
      assert MAGIC[3] != zeros[3];
      assert HeaderSeen(img, inode, 0, zeros)[3] == MAGIC[3];
    }
  }

  /** An image of one file, shell, of a given size and with given block numbers, and one block that
      starts with the magic bytes. */
  lemma ShellFile(length: nat, numbers: seq<nat>) returns (img: Image)
    requires 4 <= length <= MAX_BLOCKS * BLOCK && |numbers| == MAX_BLOCKS && numbers[0] == 0
    ensures img.inodes == [Inode(length, numbers)] && |img.blocks| == 1
    ensures ShellReady(img) && Lookup(img, SHELL + [0]).Some? && Lookup(img, SHELL + [0]).value.inode == 0
  {
    var name := SHELL + seq(NAME_SIZE - 5, i => 0);
    var block := MAGIC + seq(BLOCK - 4, i => 0);
    var d := Dentry(name, TYPE_REGULAR, 0);
    img := Image([d], [Inode(length, numbers)], [block]);
    assert SameName(SHELL + [0], d) by {
      assert name[..5] == SHELL == (SHELL + [0])[..5];
      UpToNulIs(SHELL + [0], 5);
      UpToNulIs(name, 5);
    }
    FirstIs(img.entries, SHELL + [0], 0);
    forall i | 0 <= i < 4
      ensures FlatFile(img, 0)[i] == MAGIC[i]
    {
      assert i / BLOCK == 0 && i % BLOCK == i;
    }
    assert FlatFile(img, 0)[..4] == MAGIC;
    assert ReadOk(img, 0, 0, 4);
    ShellReadyExact(img);
  }

  /** There is an image whose shell can always be started. */
  lemma ShellImage() returns (img: Image)
    ensures ShellReady(img)
  {
    img := ShellFile(4, seq(MAX_BLOCKS, i => 0));
  }

  lemma CommandNameIs(command: seq<Byte>, n: nat)
    requires n <= |command| && ARGUMENT_SEPARATOR !in command[..n]
    requires n < |command| ==> command[n] == ARGUMENT_SEPARATOR
    ensures CommandName(command) == command[..n]
  {
    if n > 0 {
      assert command[0] in command[..n];
      assert command[1..][..n - 1] == command[..n][1..];
      CommandNameIs(command[1..], n - 1);
    }
  }

  /** The checks of internal_execute, in order. The result is the file to load. */
  method CheckCommand(img: Image, command: seq<Byte>, stack: seq<Byte>) returns (file: Option<nat>)
    requires ImageOk(img) && 0 !in command && |stack| == 4
    ensures file.Some? <==> Loadable(img, command, stack)
    ensures file.Some? ==> file.value == Lookup(img, CommandName(command) + [0]).value.inode
  {
    if |command| >= MAX_COMMAND {
      return None;
    }
    var split := 0;
    while split < |command| && command[split] != ARGUMENT_SEPARATOR
      invariant split <= |command| && ARGUMENT_SEPARATOR !in command[..split]
    {
      split := split + 1;
    }
    CommandNameIs(command, split);
    var entry := ReadDentryByName(img, command[..split] + [0]);
    if entry.None? || entry.value.filetype != TYPE_REGULAR {
      return None;
    }
    var magic := ReadHeader(img, entry.value.inode, 0, stack);
    if magic != MAGIC {
      return None;
    }
    return Some(entry.value.inode);
  }

  const ENTRY_POINT := 24

  /** A read of four bytes of the first block into a local buffer. */
  method ReadHeader(img: Image, inode: nat, offset: nat, stack: seq<Byte>) returns (bytes: seq<Byte>)
    requires ImageOk(img) && |stack| == 4 && offset + 4 <= BLOCK
    ensures bytes == HeaderSeen(img, inode, offset, stack)
  {
    var buf := new Byte[4](i requires 0 <= i < 4 => stack[i]);
    assert buf[..] == stack;
    var r := ReadData(img, inode, offset, buf, 0, 4);
    bytes := buf[..];
    if r > 0 {
      assert bytes == bytes[..0] + bytes[0..r] + bytes[r..];
    } else if r == FAILURE {
      HeaderFails(img, inode, offset);
    }
  }

  /** A failed read within the first block copies nothing. */
  lemma HeaderFails(img: Image, inode: nat, offset: nat)
    requires ImageOk(img) && offset + 4 <= BLOCK && !ReadOk(img, inode, offset, 4)
    ensures CopiedBytes(img, inode, offset, 4) == 0
  {
    if inode < |img.inodes| {
      assert !BlockOk(img, img.inodes[inode].blockNumbers[0]);
      GoodBlocksIs(img, img.inodes[inode].blockNumbers, 0);
    }
  }

  // ---------------------------------------------------------------------------------------
  // Loading through one address space, reading through another
  // ---------------------------------------------------------------------------------------

  const MEMORY := 0x2000000

  /** A directory through which the kernel reaches every process block at its own address. */
  ghost predicate ReachesBlocks(s: Paging.Space) {
    Paging.SpaceOk(s) &&
    forall va :: Paging.START_MEM <= va < MEMORY ==> Paging.Translate(s, va) == Some(va)
  }

  lemma BlocksReached(s: Paging.Space)
    requires Paging.SpaceOk(s) && Paging.BlocksMapped(s.directory)
    ensures ReachesBlocks(s)
  {
    forall va | Paging.START_MEM <= va < MEMORY
      ensures Paging.Translate(s, va) == Some(va)
    {
      BigPageWalk(s, va);
    }
  }

  lemma BigPageWalk(s: Paging.Space, va: nat)
    requires Paging.SpaceOk(s) && va < 0x1_0000_0000
    requires s.directory[va / Paging.BIG_PAGE] == va / Paging.BIG_PAGE * Paging.BIG_PAGE + Paging.BIG_PRESENT
    ensures Paging.Translate(s, va) == Some(va)
  {
    var i := va / Paging.BIG_PAGE;
    Paging.FlagBits(i * Paging.BIG_PAGE, Paging.BIG_PRESENT);
    assert (i * Paging.BIG_PAGE + Paging.BIG_PRESENT) / Paging.BIG_PAGE == i;
  }

  /** Every task directory maps the blocks, whatever happened to it since it was set up. */
  lemma TaskMapsBlocks(s: Paging.Space, pid: nat, ops: seq<Paging.Op>)
    requires Paging.SpaceOk(s) && Paging.Setup in ops && pid < Paging.MAX_TASKS
    ensures Paging.BlocksMapped(Paging.ApplyAll(s, pid, ops).directory)
  {
    Paging.SlotHistory(s, pid, ops);
  }

  /** The byte user code reads at a virtual address of its program page. */
  ghost predicate UserReads(s: Paging.Space, memory: seq<Byte>, va: nat, b: Byte)
    requires Paging.SpaceOk(s) && va < 0x1_0000_0000
  {
    Paging.UserAccessible(s, va) && Paging.Translate(s, va).value < |memory| &&
    memory[Paging.Translate(s, va).value] == b
  }

  /** Where a program is loaded. */
  function ImageAddress(pid: nat): nat {
    Paging.BlockAddress(pid) + IMAGE_OFFSET
  }

  /** How much of a file the load copies: up to the capacity, and up to the first block out of range.
      The code does not look at the result of the load. */
  function LoadedBytes(img: Image, inode: nat): nat {
    CopiedBytes(img, inode, 0, IMAGE_CAPACITY)
  }

  /** Memory after the load. */
  ghost function LoadedMemory(img: Image, inode: nat, memory: seq<Byte>, pid: nat): (r: seq<Byte>)
    requires ImageOk(img) && pid < Paging.MAX_TASKS && |memory| == MEMORY
    ensures |r| == MEMORY
  {
    var n, at := LoadedBytes(img, inode), ImageAddress(pid);
    if n == 0 then memory else memory[..at] + FlatFile(img, inode)[..n] + memory[at + n..]
  }

  /** The byte at index j of a program page: the file's where it was loaded, and otherwise what the
      block held before. */
  ghost function ProgramByte(img: Image, inode: nat, before: seq<Byte>, pid: nat, j: nat): Byte
    requires ImageOk(img) && pid < Paging.MAX_TASKS && |before| == MEMORY && j < Paging.PID_SPACE
  {
    if IMAGE_OFFSET <= j < IMAGE_OFFSET + LoadedBytes(img, inode)
    then FlatFile(img, inode)[j - IMAGE_OFFSET]
    else before[Paging.BlockAddress(pid) + j]
  }

  /** Everything user code of a pid reads in its program page. */
  ghost predicate ChildReads(img: Image, inode: nat, before: seq<Byte>, after: seq<Byte>, space: Paging.Space, pid: nat)
    requires ImageOk(img) && pid < Paging.MAX_TASKS && |before| == MEMORY && Paging.SpaceOk(space)
  {
    forall j :: 0 <= j < Paging.PID_SPACE ==>
      UserReads(space, after, Paging.TASK_BASE + j, ProgramByte(img, inode, before, pid, j))
  }

  /** Loads a program for a pid through the active directory and sets up the pid's own one. */
  method LoadProgram(img: Image, inode: nat, memory: array<Byte>, active: Paging.Space,
                     slot: Paging.Space, pid: nat) returns (space: Paging.Space)
    requires ImageOk(img) && pid < Paging.MAX_TASKS
    requires memory.Length == MEMORY && ReachesBlocks(active) && Paging.SpaceOk(slot)
    modifies memory
    ensures space == Paging.Apply(slot, pid, Paging.Setup)
    ensures memory[..] == LoadedMemory(img, inode, old(memory[..]), pid)
    ensures ChildReads(img, inode, old(memory[..]), memory[..], space, pid)
  {
    var start := Paging.BlockAddress(pid);
    var target := Paging.Translate(active, start + IMAGE_OFFSET);
    ghost var was := memory[..];
    var _ := ReadData(img, inode, 0, memory, target.value, IMAGE_CAPACITY);
    LoadIs(img, inode, was, memory[..], pid);
    var directory, table := new nat[Paging.ENTRIES], new nat[Paging.ENTRIES];
    Paging.SetupTaskPaging(directory, table, slot.tableAddress, start);
    space := Paging.Space(directory[..], table[..], slot.tableAddress);
    LoadedReads(img, inode, was, slot, pid);
  }

  lemma LoadIs(img: Image, inode: nat, before: seq<Byte>, after: seq<Byte>, pid: nat)
    requires ImageOk(img) && pid < Paging.MAX_TASKS && |before| == MEMORY
    requires Filled(img, inode, 0, before, after, ImageAddress(pid), IMAGE_CAPACITY)
    ensures after == LoadedMemory(img, inode, before, pid)
  {
    var n, at := LoadedBytes(img, inode), ImageAddress(pid);
    if n > 0 {
      assert after == after[..at] + after[at..at + n] + after[at + n..];
    }
  }

  /** What the load leaves at an address. */
  lemma LoadedByte(img: Image, inode: nat, memory: seq<Byte>, pid: nat, a: nat)
    requires ImageOk(img) && pid < Paging.MAX_TASKS && |memory| == MEMORY && a < MEMORY
    ensures var at := ImageAddress(pid);
            LoadedMemory(img, inode, memory, pid)[a] ==
            if at <= a < at + LoadedBytes(img, inode) then FlatFile(img, inode)[a - at] else memory[a]
  {
  }

  /** Loading changes no byte outside the pid's block. */
  lemma LoadStaysInBlock(img: Image, inode: nat, memory: seq<Byte>, pid: nat, a: nat)
    requires ImageOk(img) && pid < Paging.MAX_TASKS && |memory| == MEMORY && a < MEMORY
    requires !(Paging.BlockAddress(pid) <= a < Paging.BlockAddress(pid) + Paging.PID_SPACE)
    ensures LoadedMemory(img, inode, memory, pid)[a] == memory[a]
  {
    LoadedByte(img, inode, memory, pid, a);
  }

  /** The program page of a space that was just set up. */
  lemma SetupReaches(slot: Paging.Space, pid: nat, j: nat)
    requires pid < Paging.MAX_TASKS && Paging.SpaceOk(slot) && j < Paging.PID_SPACE
    ensures var space := Paging.Apply(slot, pid, Paging.Setup);
            && Paging.UserAccessible(space, Paging.TASK_BASE + j)
            && Paging.Translate(space, Paging.TASK_BASE + j) == Some(Paging.BlockAddress(pid) + j)
  {
    Paging.SetupShape(slot, pid);
    Paging.HighWalk(Paging.Apply(slot, pid, Paging.Setup), pid, false, Paging.VIDEO, Paging.TASK_BASE + j);
  }

  lemma LoadedReadsAt(img: Image, inode: nat, before: seq<Byte>, space: Paging.Space, pid: nat, j: nat)
    requires ImageOk(img) && pid < Paging.MAX_TASKS && |before| == MEMORY && Paging.SpaceOk(space)
    requires j < Paging.PID_SPACE && Paging.UserAccessible(space, Paging.TASK_BASE + j)
    requires Paging.Translate(space, Paging.TASK_BASE + j) == Some(Paging.BlockAddress(pid) + j)
    ensures UserReads(space, LoadedMemory(img, inode, before, pid), Paging.TASK_BASE + j,
                      ProgramByte(img, inode, before, pid, j))
  {
    LoadedByte(img, inode, before, pid, Paging.BlockAddress(pid) + j);
  }

  lemma LoadedReads(img: Image, inode: nat, before: seq<Byte>, slot: Paging.Space, pid: nat)
    requires ImageOk(img) && pid < Paging.MAX_TASKS && |before| == MEMORY && Paging.SpaceOk(slot)
    ensures ChildReads(img, inode, before, LoadedMemory(img, inode, before, pid),
                       Paging.Apply(slot, pid, Paging.Setup), pid)
  {
    forall j | 0 <= j < Paging.PID_SPACE
      ensures UserReads(Paging.Apply(slot, pid, Paging.Setup), LoadedMemory(img, inode, before, pid),
                        Paging.TASK_BASE + j, ProgramByte(img, inode, before, pid, j))
    {
      SetupReaches(slot, pid, j);
      LoadedReadsAt(img, inode, before, Paging.Apply(slot, pid, Paging.Setup), pid, j);
    }
  }

  // ---------------------------------------------------------------------------------------
  // When the child has its whole file
  // ---------------------------------------------------------------------------------------

  /** How much of a file fits behind the load address. */
  function FittingBytes(img: Image, inode: nat): nat
    requires inode < |img.inodes|
  {
    Min(img.inodes[inode].length, IMAGE_CAPACITY)
  }

  /** The program page holds all of the file that fits. */
  ghost predicate WholeFile(img: Image, inode: nat, before: seq<Byte>, pid: nat)
    requires ImageOk(img) && inode < |img.inodes| && pid < Paging.MAX_TASKS && |before| == MEMORY
  {
    forall i :: 0 <= i < FittingBytes(img, inode) ==>
      ProgramByte(img, inode, before, pid, IMAGE_OFFSET + i) == FlatFile(img, inode)[i]
  }

  /** The child reads its whole file, whatever memory held, exactly when the file is empty or every
      block of the load is in range. Execute succeeds either way, as it checks the first block only. */
  lemma WholeFileExact(img: Image, inode: nat, pid: nat)
    requires ImageOk(img) && inode < |img.inodes| && pid < Paging.MAX_TASKS
    ensures (forall before: seq<Byte> | |before| == MEMORY :: WholeFile(img, inode, before, pid)) <==>
            img.inodes[inode].length == 0 || ReadOk(img, inode, 0, IMAGE_CAPACITY)
  {
    var n, want := LoadedBytes(img, inode), FittingBytes(img, inode);
    if want == 0 {
    } else if ReadOk(img, inode, 0, IMAGE_CAPACITY) {
      OkCopiesAll(img, inode, 0, IMAGE_CAPACITY);
    } else {
      FailureStopsEarly(img, inode, 0, IMAGE_CAPACITY);
      var other: Byte := if FlatFile(img, inode)[n] == 0 then 1 else 0;
      var before: seq<Byte> := seq(MEMORY, _ => other);
      assert ProgramByte(img, inode, before, pid, IMAGE_OFFSET + n) == other;
      assert !WholeFile(img, inode, before, pid);
    }
  }

  /** The failing case is real: an image whose shell can always be started and of whose 8192 bytes
      only the first 4096 are ever loaded. */
  lemma PartialShell() returns (img: Image, inode: nat)
    ensures ShellReady(img) && Lookup(img, SHELL + [0]).Some? && Lookup(img, SHELL + [0]).value.inode == inode
    ensures inode < |img.inodes| && FittingBytes(img, inode) == 2 * BLOCK && LoadedBytes(img, inode) == BLOCK
    ensures !ReadOk(img, inode, 0, IMAGE_CAPACITY)
  {
    var numbers := seq(MAX_BLOCKS, i => if i == 0 then 0 else 7);
    img := ShellFile(2 * BLOCK, numbers);
    inode := 0;
    GoodBlocksIs(img, numbers, 1);
    assert BlockWalked(Available(img, 0, 0, IMAGE_CAPACITY)) == 1;
  }
}
