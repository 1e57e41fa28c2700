/** Per-process page directories and base page tables (paging.c), with the 32-bit page walk of
    section 4.3 of the Intel 64 and IA-32 Software Developer's Manual, volume 3A.

    Entries are 32-bit words held as naturals. The masks the code uses are written with
    division by powers of two; BitForms shows that they are the bitwise operations. */
module Paging {
  import opened Bytes

  const ENTRIES := 1024
  const PAGE := 0x1000
  const BIG_PAGE := 0x400000
  const VIDEO := 0xB8000
  const VIDEO_PAGE := 0xB8
  const KERNEL_BASE := 0x400000
  const PROCESS_BLOCKS_START := 2
  const NOT_PRESENT_START := 8
  const TASK_BASE := 0x08000000
  const TASK_ENTRY := 32

  const MAX_TASKS := 6
  const START_MEM := 0x800000
  const PID_SPACE := 0x400000

  const PRESENT := 3
  const NOT_PRESENT := 2
  const BIG_PRESENT := 0x83
  const USER_ACCESSIBLE := 4

  /** PDE_ADDRESS_ASSIGN and PTE_ADDRESS_ASSIGN: and with 0xFFFFF000. */
  function AddressAssign(a: nat): (r: nat)
    ensures r % PAGE == 0 && r <= a < r + PAGE
  {
    a - a % PAGE
  }

  /** Or-ing GRANT_USER_ACCESS (bits 1 and 2) into an entry. */
  function Grant(e: nat): nat {
    e - e % 8 + e % 2 + 6
  }

  /** The bits change_table_mapping keeps: and with ISOLATE_BTM_12BITS, which is 0x3FF. */
  function KeptBits(e: nat): nat {
    e % 0x400
  }

  predicate Present(e: nat) { e % 2 == 1 }

  predicate WriteBit(e: nat) { e % 4 >= 2 }

  predicate UserBit(e: nat) { e % 8 >= 4 }

  predicate BigBit(e: nat) { e % 256 >= 128 }

  /** The arithmetic above is the code's bit arithmetic: the masks keep or drop exactly the
      bits below a power of two. */
  lemma BitForms(w: bv32)
    ensures w & 0xFFFFF000 == w - w % 0x1000
    ensures w & 0x3FF == w % 0x400
  {
  }

  /** Or-ing GRANT_USER_ACCESS into an entry keeps its low bit and everything above bit 2. */
  lemma GrantBits(w: bv32)
    ensures w | 0x6 == (w & 0xFFFFFFF8) + ((w & 0x1) + 6)
    ensures w & 0xFFFFFFF8 == w - w % 8 && w & 0x1 == w % 2
  {
    var high, low := w & 0xFFFFFFF8, w & 0x1;
    LowBits(w);
    OrAddsLow(high, low | 6);
    assert low | 6 == low + 6;
    assert w | 6 == high | (low | 6);
  }

  lemma LowBits(w: bv32)
    ensures w % 8 == w & 0x7 && w % 2 == w & 0x1 && w - (w & 0x7) == w & 0xFFFFFFF8
  {
  }

  lemma OrAddsLow(high: bv32, low: bv32)
    requires high & 0x7 == 0 && low < 8
    ensures high | low == high + low
  {
  }

  /** Or-ing flags below bit 10 into an aligned address adds them. */
  lemma OrAdds(address: bv32, flags: bv32)
    requires address % 0x1000 == 0 && flags < 0x400
    ensures address | flags == address + flags
  {
  }

  // ---------------------------------------------------------------------------------------
  // What set-up builds
  // ---------------------------------------------------------------------------------------

  type Table = seq<nat>

  predicate IsVideoPage(i: int) {
    VIDEO_PAGE <= i < VIDEO_PAGE + 4
  }

  function BaseTable(): (t: Table)
    ensures |t| == ENTRIES
  {
    seq(ENTRIES, i requires 0 <= i => i * PAGE + if IsVideoPage(i) then PRESENT else NOT_PRESENT)
  }

  function BlockAddress(pid: nat): nat {
    START_MEM + PID_SPACE * pid
  }

  function DirectoryEntry(i: nat, tableAddress: nat, block: nat): nat {
    if i == 0 then AddressAssign(tableAddress) + PRESENT
    else if i < NOT_PRESENT_START then i * BIG_PAGE + BIG_PRESENT
    else if i == TASK_ENTRY then AddressAssign(block) + BIG_PRESENT + USER_ACCESSIBLE
    else i * BIG_PAGE + NOT_PRESENT
  }

  function TaskDirectory(tableAddress: nat, block: nat): (d: Table)
    ensures |d| == ENTRIES
  {
    seq(ENTRIES, i requires 0 <= i => DirectoryEntry(i, tableAddress, block))
  }

  /** change_table_mapping on the entry for VIDEO. */
  function RemappedVideo(t: Table, target: nat): (r: Table)
    requires |t| == ENTRIES
    ensures |r| == ENTRIES
  {
    t[VIDEO_PAGE := AddressAssign(target) + KeptBits(t[VIDEO_PAGE])]
  }

  /** setup_user_access_pte on the entry for VIDEO. */
  function GrantedVideo(t: Table): (r: Table)
    requires |t| == ENTRIES
    ensures |r| == ENTRIES
  {
    t[VIDEO_PAGE := Grant(t[VIDEO_PAGE])]
  }

  /** setup_user_access_pde on the entry for VIDEO. */
  function GrantedDirectory(d: Table): (r: Table)
    requires |d| == ENTRIES
    ensures |r| == ENTRIES
  {
    d[VIDEO / BIG_PAGE := Grant(d[VIDEO / BIG_PAGE])]
  }

  method SetupBaseTable(table: array<nat>)
    requires table.Length == ENTRIES
    modifies table
    ensures table[..] == BaseTable()
  {
    for i := 0 to ENTRIES
      invariant forall k :: 0 <= k < i ==> table[k] == BaseTable()[k]
    {
      if i * PAGE == VIDEO || i * PAGE == VIDEO + 0x1000 || i * PAGE == VIDEO + 0x2000
         || i * PAGE == VIDEO + 0x3000 {
        table[i] := AddressAssign(i * PAGE);
        table[i] := table[i] + PRESENT;
      } else {
        table[i] := AddressAssign(i * PAGE);
        table[i] := table[i] + NOT_PRESENT;
      }
    }
  }

  /** What entry i of a task's directory lets happen: the base table, the kernel's page and the process
      blocks for the kernel alone, the program page for user code too, all of them to read and to write,
      and nothing else. */
  ghost predicate EntryAllows(e: nat, i: nat, tableAddress: nat, block: nat) {
    && (Present(e) <==> i < NOT_PRESENT_START || i == TASK_ENTRY)
    && (UserBit(e) <==> i == TASK_ENTRY)
    && (Present(e) ==> WriteBit(e))
    && (BigBit(e) <==> Present(e) && i > 0)
    && AddressAssign(e) == if i == 0 then AddressAssign(tableAddress)
                           else if i == TASK_ENTRY then AddressAssign(block) else i * BIG_PAGE
  }

  lemma DirectoryAllows(i: nat, tableAddress: nat, block: nat)
    ensures EntryAllows(DirectoryEntry(i, tableAddress, block), i, tableAddress, block)
  {
    if i == 0 {
      FlagBits(AddressAssign(tableAddress), PRESENT);
    } else if i == TASK_ENTRY {
      FlagBits(AddressAssign(block), BIG_PRESENT + USER_ACCESSIBLE);
    } else {
      FlagBits(i * BIG_PAGE, if i < NOT_PRESENT_START then BIG_PRESENT else NOT_PRESENT);
    }
  }

  method SetupTaskPaging(directory: array<nat>, table: array<nat>, tableAddress: nat, block: nat)
    requires directory.Length == ENTRIES && table.Length == ENTRIES && directory != table
    modifies directory, table
    ensures directory[..] == TaskDirectory(tableAddress, block)
    ensures table[..] == BaseTable()
    ensures forall i :: 0 <= i < ENTRIES ==> EntryAllows(directory[i], i, tableAddress, block)
  {
    SetupBaseTable(table);
    directory[0] := AddressAssign(tableAddress) + PRESENT;
    directory[1] := AddressAssign(KERNEL_BASE) + BIG_PRESENT;
    ghost var d := TaskDirectory(tableAddress, block);
    for i := PROCESS_BLOCKS_START to NOT_PRESENT_START
      invariant forall k :: 0 <= k < i ==> directory[k] == d[k]
      invariant table[..] == BaseTable()
    {
      directory[i] := AddressAssign(i * BIG_PAGE) + BIG_PRESENT;
    }
    for i := NOT_PRESENT_START to ENTRIES
      invariant forall k :: 0 <= k < i ==> directory[k] == d[k]
      invariant table[..] == BaseTable()
    {
      if i * BIG_PAGE == TASK_BASE {
        directory[i] := AddressAssign(block) + BIG_PRESENT + USER_ACCESSIBLE;
      } else {
        directory[i] := AddressAssign(i * BIG_PAGE) + NOT_PRESENT;
      }
    }
    forall i | 0 <= i < ENTRIES
      ensures EntryAllows(directory[i], i, tableAddress, block)
    {
      assert directory[i] == d[i];
      DirectoryAllows(i, tableAddress, block);
    }
  }

  method ChangeTableMapping(table: array<nat>, address: nat, target: nat)
    requires table.Length == ENTRIES
    modifies table
    ensures forall i :: 0 <= i < ENTRIES && i != address / PAGE % ENTRIES ==> table[i] == old(table[i])
    ensures var i := address / PAGE % ENTRIES;
            && AddressAssign(table[i]) == AddressAssign(target)
            && KeptBits(table[i]) == KeptBits(old(table[i])) && table[i] % PAGE < 0x400
    ensures address / PAGE == VIDEO_PAGE ==> table[..] == RemappedVideo(old(table[..]), target)
  {
    var index := address / PAGE % ENTRIES;
    var entry := table[index];
    RemappedEntry(AddressAssign(target), KeptBits(entry));
    table[index] := AddressAssign(target);
    table[index] := table[index] + KeptBits(entry);
  }

  /** A directory whose entries for the six process blocks map each to itself. */
  ghost predicate BlocksMapped(d: Table) {
    |d| == ENTRIES && forall i :: PROCESS_BLOCKS_START <= i < NOT_PRESENT_START ==> d[i] == i * BIG_PAGE + BIG_PRESENT
  }

  lemma RemappedEntry(base: nat, kept: nat)
    requires base % PAGE == 0 && kept < 0x400
    ensures AddressAssign(base + kept) == base && KeptBits(base + kept) == kept && (base + kept) % PAGE == kept
  {
    var k := base / PAGE;
    assert (base + kept) % 0x400 == kept by { Below1024(4 * k, kept); }
    assert (base + kept) % PAGE == kept by { Below4096(k, kept); }
  }

  // ---------------------------------------------------------------------------------------
  // The video pages of a table
  // ---------------------------------------------------------------------------------------

  /** VIDEO reaches the target page and the three backing pages behind it reach themselves. */
  ghost predicate VideoMaps(t: Table, target: nat) {
    && |t| == ENTRIES
    && target % PAGE == 0
    && Present(t[VIDEO_PAGE]) && AddressAssign(t[VIDEO_PAGE]) == target
    && forall v :: 1 <= v < 4 ==> t[VIDEO_PAGE + v] == VIDEO + v * PAGE + PRESENT
  }

  lemma BaseVideo()
    ensures VideoMaps(BaseTable(), VIDEO)
  {
    assert BaseTable()[VIDEO_PAGE] == VIDEO + 3;
  }

  /** Remapping moves VIDEO alone and keeps it present. */
  lemma RemapVideo(t: Table, was: nat, target: nat)
    requires VideoMaps(t, was) && target % PAGE == 0
    ensures VideoMaps(RemappedVideo(t, target), target)
  {
    var kept := KeptBits(t[VIDEO_PAGE]);
    var k := target / PAGE;
    assert kept % 2 == 1 by { Below2(t[VIDEO_PAGE] / 0x400 * 512, kept); }
    assert (target + kept) % 2 == 1 by { Below2(2048 * k, kept); }
    assert (target + kept) % PAGE == kept by { Below4096(k, kept); }
  }

  lemma GrantVideo(t: Table, target: nat)
    requires VideoMaps(t, target)
    ensures VideoMaps(GrantedVideo(t), target)
  {
    var e := t[VIDEO_PAGE];
    var k := e / 8;
    assert Grant(e) % 2 == 1 by { Below2(4 * k, e % 2 + 6); }
    assert Grant(e) / 8 == k;
    assert Grant(e) / PAGE == k / 512 && e / PAGE == k / 512;
  }

  // ---------------------------------------------------------------------------------------
  // The page walk
  // ---------------------------------------------------------------------------------------

  /** A directory, the base table it points at, and the physical address of that table. */
  datatype Space = Space(directory: Table, table: Table, tableAddress: nat)

  predicate SpaceOk(s: Space) {
    |s.directory| == ENTRIES && |s.table| == ENTRIES && s.tableAddress % PAGE == 0
  }

  /** The physical address a virtual address reaches; None is a page fault. */
  function Translate(s: Space, va: nat): Option<nat>
    requires SpaceOk(s) && va < 0x1_0000_0000
  {
    var pde := s.directory[va / BIG_PAGE];
    if !Present(pde) then None
    else if BigBit(pde) then Some(pde / BIG_PAGE * BIG_PAGE + va % BIG_PAGE)
    else if AddressAssign(pde) != s.tableAddress then None
    else
      var pte := s.table[va / PAGE % ENTRIES];
      if Present(pte) then Some(AddressAssign(pte) + va % PAGE) else None
  }

  /** Whether user code may touch a virtual address: the user bit at every level. */
  predicate UserAccessible(s: Space, va: nat)
    requires SpaceOk(s) && va < 0x1_0000_0000
  {
    var pde := s.directory[va / BIG_PAGE];
    Translate(s, va).Some? && UserBit(pde) &&
    (BigBit(pde) || UserBit(s.table[va / PAGE % ENTRIES]))
  }

  /** Whether user code may store there: the read/write bit, too, at every level. */
  predicate UserWritable(s: Space, va: nat)
    requires SpaceOk(s) && va < 0x1_0000_0000
  {
    var pde := s.directory[va / BIG_PAGE];
    UserAccessible(s, va) && WriteBit(pde) &&
    (BigBit(pde) || WriteBit(s.table[va / PAGE % ENTRIES]))
  }

  predicate InProgramPage(va: nat) { TASK_BASE <= va < TASK_BASE + BIG_PAGE }

  predicate InVideoPage(va: nat) { VIDEO <= va < VIDEO + PAGE }

  // ---------------------------------------------------------------------------------------
  // Every history of one process slot
  // ---------------------------------------------------------------------------------------

  /** What happens to a slot: a task is set up in it (again), it calls vidmap, or a terminal
      switch remaps its video page. */
  datatype Op = Setup | Vidmap | Remap(target: nat)

  function Apply(s: Space, pid: nat, op: Op): (r: Space)
    requires SpaceOk(s)
    ensures SpaceOk(r) && r.tableAddress == s.tableAddress
  {
    match op
    case Setup => Space(TaskDirectory(s.tableAddress, BlockAddress(pid)), BaseTable(), s.tableAddress)
    case Vidmap => s.(directory := GrantedDirectory(s.directory), table := GrantedVideo(s.table))
    case Remap(target) => s.(table := RemappedVideo(s.table, target))
  }

  function ApplyAll(s: Space, pid: nat, ops: seq<Op>): (r: Space)
    requires SpaceOk(s)
    ensures SpaceOk(r) && r.tableAddress == s.tableAddress
  {
    if ops == [] then s
    else Apply(ApplyAll(s, pid, ops[..|ops| - 1]), pid, ops[|ops| - 1])
  }

  /** Whether vidmap was called after the last set-up. */
  predicate VidmapSinceSetup(ops: seq<Op>) {
    exists i :: 0 <= i < |ops| && ops[i] == Vidmap && Setup !in ops[i..]
  }

  /** Where VIDEO points: the last remapping since the last set-up, else itself. */
  function VideoTarget(ops: seq<Op>): nat {
    if ops == [] then VIDEO
    else match ops[|ops| - 1]
      case Setup => VIDEO
      case Vidmap => VideoTarget(ops[..|ops| - 1])
      case Remap(target) => AddressAssign(target)
  }

  /** The exact shape of a slot after any history: everything but the two entries vidmap and
      remapping touch is as set-up left it. */
  ghost predicate SlotShape(s: Space, pid: nat, vidmapped: bool, target: nat) {
    && SpaceOk(s)
    && target % PAGE == 0
    && s.directory == TaskDirectory(s.tableAddress, BlockAddress(pid))
         [0 := s.tableAddress + if vidmapped then 7 else 3]
    && s.table == BaseTable()[VIDEO_PAGE := target + if vidmapped then 7 else 3]
  }

  lemma VidmapHistory(ops: seq<Op>, op: Op)
    ensures VidmapSinceSetup(ops + [op]) <==> op == Vidmap || (op != Setup && VidmapSinceSetup(ops))
  {
    var all := ops + [op];
    forall i | 0 <= i < |ops|
      ensures all[i..] == ops[i..] + [op]
    {
    }
    assert all[|ops|..] == [op];
    if op == Vidmap {
      assert all[|ops|] == Vidmap;
    } else if op != Setup && VidmapSinceSetup(ops) {
      var i :| 0 <= i < |ops| && ops[i] == Vidmap && Setup !in ops[i..];
      assert all[i] == Vidmap;
    }
  }

  // Adding a multiple of a power of two leaves the bits below it alone.
  lemma Below2(k: nat, f: nat) ensures (2 * k + f) % 2 == f % 2 {}
  lemma Below4(k: nat, f: nat) ensures (4 * k + f) % 4 == f % 4 {}
  lemma Below8(k: nat, f: nat) ensures (8 * k + f) % 8 == f % 8 {}
  lemma Below256(k: nat, f: nat) ensures (256 * k + f) % 256 == f % 256 {}
  lemma Below1024(k: nat, f: nat) ensures (0x400 * k + f) % 0x400 == f % 0x400 {}
  lemma Below4096(k: nat, f: nat) ensures (0x1000 * k + f) % 0x1000 == f % 0x1000 {}

  /** A word built from an aligned address and small flags shows those flags. */
  lemma FlagBits(base: nat, flags: nat)
    requires base % PAGE == 0 && flags < 256
    ensures Present(base + flags) == Present(flags)
    ensures WriteBit(base + flags) == WriteBit(flags)
    ensures UserBit(base + flags) == UserBit(flags)
    ensures BigBit(base + flags) == BigBit(flags)
    ensures AddressAssign(base + flags) == base
    ensures KeptBits(base + flags) == flags
    ensures Grant(base + flags) == base + Grant(flags)
  {
    var k := base / PAGE;
    assert (base + flags) % 2 == flags % 2 by { Below2(2048 * k, flags); }
    assert (base + flags) % 4 == flags % 4 by { Below4(1024 * k, flags); }
    assert (base + flags) % 8 == flags % 8 by { Below8(512 * k, flags); }
    assert (base + flags) % 256 == flags % 256 by { Below256(16 * k, flags); }
    assert (base + flags) % 0x400 == flags % 0x400 by { Below1024(4 * k, flags); }
    assert (base + flags) % PAGE == flags % PAGE by { Below4096(k, flags); }
  }

  lemma SetupShape(s: Space, pid: nat)
    requires SpaceOk(s)
    ensures SlotShape(Apply(s, pid, Setup), pid, false, VIDEO)
  {
    var r := Apply(s, pid, Setup);
    assert r.directory[0] == s.tableAddress + 3;
    assert r.table[VIDEO_PAGE] == VIDEO + 3;
  }

  lemma VidmapShape(s: Space, pid: nat, vidmapped: bool, target: nat)
    requires SlotShape(s, pid, vidmapped, target)
    ensures SlotShape(Apply(s, pid, Vidmap), pid, true, target)
  {
    FlagBits(s.tableAddress, if vidmapped then 7 else 3);
    FlagBits(target, if vidmapped then 7 else 3);
  }

  lemma RemapShape(s: Space, pid: nat, vidmapped: bool, target: nat, next: nat)
    requires SlotShape(s, pid, vidmapped, target)
    ensures SlotShape(Apply(s, pid, Remap(next)), pid, vidmapped, AddressAssign(next))
  {
    FlagBits(target, if vidmapped then 7 else 3);
  }

  /** Every history leaves a slot in the shape its vidmaps and remappings since the last
      set-up dictate. */
  lemma {:induction false} SlotHistory(s: Space, pid: nat, ops: seq<Op>)
    requires SpaceOk(s)
    requires Setup in ops
    ensures SlotShape(ApplyAll(s, pid, ops), pid, VidmapSinceSetup(ops), VideoTarget(ops))
  {
    var before, op := ops[..|ops| - 1], ops[|ops| - 1];
    assert ops == before + [op];
    VidmapHistory(before, op);
    var b := ApplyAll(s, pid, before);
    match op
    case Setup =>
      SetupShape(b, pid);
    case Vidmap =>
      SlotHistory(s, pid, before);
      VidmapShape(b, pid, VidmapSinceSetup(before), VideoTarget(before));
    case Remap(next) =>
      SlotHistory(s, pid, before);
      RemapShape(b, pid, VidmapSinceSetup(before), VideoTarget(before), next);
  }

  /** The entries a walk meets in a slot of known shape. */
  lemma ShapeEntries(s: Space, pid: nat, vidmapped: bool, target: nat, va: nat)
    requires SlotShape(s, pid, vidmapped, target) && va < 0x1_0000_0000
    ensures va / BIG_PAGE > 0 ==>
              s.directory[va / BIG_PAGE] == DirectoryEntry(va / BIG_PAGE, s.tableAddress, BlockAddress(pid))
    ensures s.directory[0] == s.tableAddress + if vidmapped then 7 else 3
    ensures va < BIG_PAGE ==>
              s.table[va / PAGE % ENTRIES] ==
              if va / PAGE == VIDEO_PAGE then target + (if vidmapped then 7 else 3)
              else va - va % PAGE + if IsVideoPage(va / PAGE) then PRESENT else NOT_PRESENT
  {
    var j := va / PAGE;
    if va < BIG_PAGE {
      assert j % ENTRIES == j;
      assert j * PAGE == va - va % PAGE;
    }
  }

  lemma LowWalk(s: Space, pid: nat, vidmapped: bool, target: nat, va: nat)
    requires SlotShape(s, pid, vidmapped, target) && va < BIG_PAGE
    ensures UserAccessible(s, va) <==> vidmapped && InVideoPage(va)
    ensures UserWritable(s, va) <==> vidmapped && InVideoPage(va)
    ensures InVideoPage(va) ==> Translate(s, va) == Some(target + (va - VIDEO))
    ensures VIDEO + PAGE <= va < VIDEO + 4 * PAGE ==> Translate(s, va) == Some(va)
    ensures !(VIDEO <= va < VIDEO + 4 * PAGE) ==> Translate(s, va) == None
  {
    ShapeEntries(s, pid, vidmapped, target, va);
    FlagBits(s.tableAddress, if vidmapped then 7 else 3);
    FlagBits(target, if vidmapped then 7 else 3);
    FlagBits(va - va % PAGE, if IsVideoPage(va / PAGE) then PRESENT else NOT_PRESENT);
  }

  lemma HighWalk(s: Space, pid: nat, vidmapped: bool, target: nat, va: nat)
    requires SlotShape(s, pid, vidmapped, target) && BIG_PAGE <= va < 0x1_0000_0000
    requires pid < MAX_TASKS
    ensures UserAccessible(s, va) <==> InProgramPage(va)
    ensures UserWritable(s, va) <==> InProgramPage(va)
    ensures InProgramPage(va) ==> Translate(s, va) == Some(BlockAddress(pid) + (va - TASK_BASE))
    ensures va < NOT_PRESENT_START * BIG_PAGE ==> Translate(s, va) == Some(va)
    ensures va >= NOT_PRESENT_START * BIG_PAGE && !InProgramPage(va) ==> Translate(s, va) == None
  {
    ShapeEntries(s, pid, vidmapped, target, va);
    var i := va / BIG_PAGE;
    FlagBits(i * BIG_PAGE, BIG_PRESENT);
    FlagBits(i * BIG_PAGE, NOT_PRESENT);
    FlagBits(BlockAddress(pid), BIG_PRESENT + USER_ACCESSIBLE);
  }

  /** Isolation over every history of set-ups, vidmaps and remappings, pid reuse included:
      user code reaches exactly its program page, and the video page once it called vidmap, and may
      store wherever it may read. */
  lemma UserAccessExact(s: Space, pid: nat, ops: seq<Op>, va: nat)
    requires SpaceOk(s) && Setup in ops && pid < MAX_TASKS && va < 0x1_0000_0000
    ensures UserAccessible(ApplyAll(s, pid, ops), va) <==>
            InProgramPage(va) || (VidmapSinceSetup(ops) && InVideoPage(va))
    ensures UserWritable(ApplyAll(s, pid, ops), va) <==>
            InProgramPage(va) || (VidmapSinceSetup(ops) && InVideoPage(va))
  {
    SlotHistory(s, pid, ops);
    if va < BIG_PAGE {
      LowWalk(ApplyAll(s, pid, ops), pid, VidmapSinceSetup(ops), VideoTarget(ops), va);
    } else {
      HighWalk(ApplyAll(s, pid, ops), pid, VidmapSinceSetup(ops), VideoTarget(ops), va);
    }
  }

  /** Where an address of a slot goes: the program page to the pid's own 4MB block, VIDEO to its
      target, the three backing pages and the blocks below 32MB to themselves, and everything else
      to a page fault. */
  ghost predicate Leads(s: Space, pid: nat, target: nat, va: nat) {
    && SpaceOk(s) && va < 0x1_0000_0000
    && (InProgramPage(va) ==> Translate(s, va) == Some(BlockAddress(pid) + (va - TASK_BASE)))
    && (InVideoPage(va) ==> Translate(s, va) == Some(target + (va - VIDEO)))
    && (VIDEO + PAGE <= va < VIDEO + 4 * PAGE ==> Translate(s, va) == Some(va))
    && (va < VIDEO || VIDEO + 4 * PAGE <= va < BIG_PAGE ==> Translate(s, va) == None)
    && (BIG_PAGE <= va < NOT_PRESENT_START * BIG_PAGE ==> Translate(s, va) == Some(va))
    && (va >= NOT_PRESENT_START * BIG_PAGE && !InProgramPage(va) ==> Translate(s, va) == None)
  }

  lemma ShapeLeads(s: Space, pid: nat, vidmapped: bool, target: nat, va: nat)
    requires SlotShape(s, pid, vidmapped, target) && pid < MAX_TASKS && va < 0x1_0000_0000
    ensures Leads(s, pid, target, va)
  {
    if va < BIG_PAGE {
      LowWalk(s, pid, vidmapped, target, va);
    } else {
      HighWalk(s, pid, vidmapped, target, va);
    }
  }

  /** Where the addresses of a slot go after any history. */
  lemma TranslationExact(s: Space, pid: nat, ops: seq<Op>, va: nat)
    requires SpaceOk(s) && Setup in ops && pid < MAX_TASKS && va < 0x1_0000_0000
    ensures Leads(ApplyAll(s, pid, ops), pid, VideoTarget(ops), va)
  {
    SlotHistory(s, pid, ops);
    ShapeLeads(ApplyAll(s, pid, ops), pid, VidmapSinceSetup(ops), VideoTarget(ops), va);
  }

  /** Two processes never share program memory. */
  lemma ProgramPagesDisjoint(s: Space, t: Space, p: nat, q: nat, ops: seq<Op>, ops': seq<Op>,
                             va: nat, vb: nat)
    requires SpaceOk(s) && SpaceOk(t) && Setup in ops && Setup in ops'
    requires p < MAX_TASKS && q < MAX_TASKS && p != q
    requires InProgramPage(va) && InProgramPage(vb)
    ensures Translate(ApplyAll(s, p, ops), va) != Translate(ApplyAll(t, q, ops'), vb)
  {
    TranslationExact(s, p, ops, va);
    TranslationExact(t, q, ops', vb);
  }
}
