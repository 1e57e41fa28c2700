/** The kernel as a step system: process lifecycle (syscalls.c), scheduler (scheduling.c),
    terminal switching and terminal output (devices/keyboard.c), and the interrupt gate
    (interrupt_handler.c). Steps run with interrupts off in the code and are atomic here. */
module Kernel {
  import opened Bytes
  import opened TextScreen
  import FileSystem
  import Loader
  import Paging

  const MAX_PROCS := 6
  const NUM_TERMINALS := 3
  const FAILURE := -1
  const KERNEL_PID := -1
  const KERNEL_DIRECTORY := -1
  const STACK_START := 0x800000
  const STACK_SIZE := 0x2000
  const USER_EXECUTE := 0
  const FIRST_TERM_SHELL := 1
  const IN_INTERRUPT := 2
  const EXCEPTION_STATUS := 256

  // ---------------------------------------------------------------------------------------
  // Processes
  // ---------------------------------------------------------------------------------------

  /** Code labels that a saved instruction pointer can hold. */
  datatype Label = NoLabel | SwitchContext | SwitchTerminalContext

  /** The kernel stack frame that a saved esp and ebp designate. id stands for the saved
      addresses; an execute frame also holds the local variable pid. */
  datatype Frame = NoFrame | ExecuteFrame(child: int, id: int) | SchedulerFrame(id: int) | KeyboardFrame(id: int)

  /** A process control block. parent is a PCB slot. irq holds the flags saved by the keyboard
      handler activations still on this kernel stack, oldest first. */
  datatype Pcb = Pcb(pid: int, parent: int, esp0: int, retVal: int, flags: int, owner: int,
                     eip: Label, frame: Frame, irq: seq<int>)

  /** Where the last step sent the processor. */
  datatype Control = Unchanged | Entered(pid: int) | ReturnFromExecute(frame: Frame, value: int)
                   | Resumed(eip: Label, frame: Frame)

  /** Process-side globals: the pid bitmap, the PCBs, terminals[t].pid, the launched set, the
      visible and the serviced terminal, tss.esp0 and the active page directory. */
  datatype Proc = Proc(used: set<int>, pcbs: seq<Pcb>, top: seq<int>, launched: set<int>,
                       visible: int, serviced: int, esp0: int, cr3: int, control: Control)

  predicate IsPid(p: int) { 0 <= p < MAX_PROCS }

  predicate IsTerminal(t: int) { 0 <= t < NUM_TERMINALS }

  predicate ProcOk(p: Proc) {
    && |p.pcbs| == MAX_PROCS && |p.top| == NUM_TERMINALS
    && (forall q :: q in p.used ==> IsPid(q))
    && (forall t :: t in p.launched ==> IsTerminal(t))
    && IsTerminal(p.visible) && IsTerminal(p.serviced)
  }

  /** Top of the kernel stack of a pid. */
  function StackTop(pid: int): int {
    STACK_START - pid * STACK_SIZE
  }

  /** The PCB slot found by masking esp0 - 1 down to 8KB. */
  function SlotOf(esp0: int): int {
    (STACK_START - ((esp0 - 1) - (esp0 - 1) % STACK_SIZE)) / STACK_SIZE - 1
  }

  /** The mask recovers the PCB of the process whose stack top is in the TSS. */
  lemma MaskFindsPcb(pid: int)
    requires IsPid(pid)
    ensures SlotOf(StackTop(pid)) == pid
  {
    assert (StackTop(pid) - 1) % STACK_SIZE == STACK_SIZE - 1;
  }

  function Current(p: Proc): int { SlotOf(p.esp0) }

  predicate HasCurrent(p: Proc) { ProcOk(p) && IsPid(Current(p)) }

  function FreeFrom(used: set<int>, i: int): (r: int)
    requires 0 <= i <= MAX_PROCS
    ensures r == FAILURE || (i <= r < MAX_PROCS && r !in used)
    ensures forall k :: i <= k < (if r == FAILURE then MAX_PROCS else r) ==> k in used
    decreases MAX_PROCS - i
  {
    if i == MAX_PROCS then FAILURE else if i !in used then i else FreeFrom(used, i + 1)
  }

  /** get_available_pid: the least free pid, or FAILURE. */
  function LeastFree(used: set<int>): (r: int)
    ensures r == FAILURE || (IsPid(r) && r !in used)
    ensures r == FAILURE <==> forall k :: IsPid(k) ==> k in used
    ensures forall k :: 0 <= k < r ==> k in used
  {
    FreeFrom(used, 0)
  }

  predicate InInterrupt(flags: int) { flags / 2 % 2 == 1 }

  function WithInterrupt(flags: int): int {
    if InInterrupt(flags) then flags else flags + IN_INTERRUPT
  }

  /** Whether internal_execute gets as far as starting a process. */
  predicate Starts(p: Proc, loadable: bool) {
    loadable && LeastFree(p.used) != FAILURE
  }

  /** The boot case of internal_execute: with no process yet, the current PCB is the kernel's. */
  function BootPcb(p: Proc): Proc
    requires HasCurrent(p)
  {
    if p.used != {} then p
    else p.(pcbs := p.pcbs[Current(p) :=
              p.pcbs[Current(p)].(pid := KERNEL_PID, parent := -1, retVal := 0, esp0 := 0)])
  }

  /** The child n of the running process: its PCB, its terminal, its stack, its pid bit and its page
      directory. It belongs to the visible terminal, whoever asked. */
  function Started(p: Proc, n: int, flags: int, id: int): (r: Proc)
    requires HasCurrent(p) && IsPid(n)
    ensures |r.pcbs| == MAX_PROCS
  {
    var c := Current(p);
    var child := p.pcbs[n].(esp0 := p.esp0, parent := c, pid := n, flags := flags, owner := p.visible, irq := []);
    var pcbs := p.pcbs[n := child];
    p.(used := p.used + {n},
       pcbs := if flags % 2 == 0 then pcbs[c := pcbs[c].(frame := ExecuteFrame(n, id))] else pcbs,
       top := p.top[p.visible := n],
       esp0 := StackTop(n), cr3 := n, control := Entered(n))
  }

  /** internal_execute. */
  function InternalExecute(p: Proc, loadable: bool, flags: int, id: int): (r: Proc)
    requires HasCurrent(p)
    ensures |r.pcbs| == MAX_PROCS
  {
    if Starts(p, loadable) then Started(BootPcb(p), LeastFree(p.used), flags, id) else BootPcb(p)
  }

  /** The pointers that returning to a parent follows lead to PCBs and to an execute frame. */
  predicate CanReturn(p: Proc) {
    && HasCurrent(p)
    && var c := p.pcbs[Current(p)];
    && IsPid(c.parent)
    && var q := p.pcbs[c.parent];
    && IsTerminal(q.owner) && q.frame.ExecuteFrame? && IsPid(q.frame.child)
  }

  /** The common tail of halt and halt_excep, and the resumed tail of internal_execute: the
      pid freed and the value returned come from the frame the parent saved. */
  function ReturnToParent(p: Proc, value: int): Proc
    requires CanReturn(p)
  {
    var c := p.pcbs[Current(p)];
    var q := p.pcbs[c.parent];
    var pcbs := p.pcbs[Current(p) := c.(retVal := value)];
    p.(esp0 := c.esp0,
       cr3 := if q.pid == KERNEL_PID then KERNEL_DIRECTORY else q.pid,
       pcbs := pcbs,
       top := p.top[q.owner := q.pid % 256],
       used := p.used - {q.frame.child},
       control := ReturnFromExecute(q.frame, pcbs[q.frame.child].retVal))
  }

  predicate CanRestart(p: Proc) {
    HasCurrent(p) && IsPid(SlotOf(p.pcbs[Current(p)].esp0))
  }

  /** halt of a terminal's first shell: its pid is freed and a new first shell started. */
  function RestartShell(p: Proc): Proc
    requires CanRestart(p)
  {
    var c := p.pcbs[Current(p)];
    InternalExecute(p.(esp0 := c.esp0, used := p.used - {c.pid}), true, FIRST_TERM_SHELL, 0)
  }

  predicate CanHalt(p: Proc) {
    HasCurrent(p) &&
    if p.pcbs[Current(p)].flags == FIRST_TERM_SHELL then CanRestart(p) else CanReturn(p)
  }

  function HaltProc(p: Proc, status: int): Proc
    requires CanHalt(p)
  {
    if p.pcbs[Current(p)].flags == FIRST_TERM_SHELL then RestartShell(p) else ReturnToParent(p, status)
  }

  /** save_process_context, into the PCB that esp0 designates. */
  function SaveContext(p: Proc, eip: Label, frame: Frame): Proc
    requires HasCurrent(p)
  {
    p.(pcbs := p.pcbs[Current(p) := p.pcbs[Current(p)].(eip := eip, frame := frame)])
  }

  /** save_and_switch_process_context. */
  function SwitchProcess(p: Proc, pid: int, id: int): Proc
    requires HasCurrent(p) && IsPid(pid)
  {
    var q := SaveContext(p.(cr3 := pid), SwitchContext, SchedulerFrame(id));
    q.(esp0 := StackTop(pid), control := Resumed(q.pcbs[pid].eip, q.pcbs[pid].frame))
  }

  /** The next launched terminal after t, cyclically; t itself if there is no other. */
  function NextLaunched(launched: set<int>, t: int): int {
    if (t + 1) % NUM_TERMINALS in launched then (t + 1) % NUM_TERMINALS
    else if (t + 2) % NUM_TERMINALS in launched then (t + 2) % NUM_TERMINALS
    else t
  }

  /** Whether a timer interrupt gets past the gates to a context switch. */
  predicate Schedules(p: Proc)
    requires HasCurrent(p)
  {
    !InInterrupt(p.pcbs[Current(p)].flags) && p.launched != {0} && p.launched != {}
  }

  /** A process that lost the processor can be resumed: its instruction pointer and its stack
      frame were saved together. */
  predicate Parked(c: Pcb) {
    || (c.eip == SwitchContext && c.frame.SchedulerFrame? && c.irq == [])
    || (c.eip == SwitchTerminalContext && c.frame.KeyboardFrame? && c.irq != [])
  }

  /** A context switch goes to a PCB that can be resumed, or back to the one just saved. */
  predicate CanTick(p: Proc) {
    && HasCurrent(p)
    && (Schedules(p) ==>
          var q := p.top[NextLaunched(p.launched, p.serviced)];
          IsPid(q) && (q == Current(p) || Parked(p.pcbs[q])))
  }

  /** A timer interrupt: nothing inside a hardware interrupt, else the round robin. */
  function TickProc(p: Proc, id: int): Proc
    requires CanTick(p)
  {
    if !Schedules(p) then p
    else
      var t := NextLaunched(p.launched, p.serviced);
      SwitchProcess(p.(serviced := t), p.top[t], id)
  }

  /** The rest of a keyboard interrupt whose handler was left when it launched a terminal. */
  function FinishIrqProc(p: Proc): Proc
    requires HasCurrent(p) && p.pcbs[Current(p)].irq != []
  {
    var c := p.pcbs[Current(p)];
    var last := |c.irq| - 1;
    p.(cr3 := p.top[p.serviced],
       pcbs := p.pcbs[Current(p) := c.(flags := c.irq[last], irq := c.irq[..last])])
  }

  /** The interrupted process parked at the handler's own label, its interrupt flag still set, and
      terminal t visible, serviced and launched. */
  function ParkedFor(p: Proc, t: int, id: int): Proc
    requires HasCurrent(p) && IsTerminal(t)
  {
    var c := p.pcbs[Current(p)];
    var q := p.(pcbs := p.pcbs[Current(p) := c.(irq := c.irq + [c.flags], flags := WithInterrupt(c.flags))],
                visible := t, serviced := t);
    SaveContext(q, SwitchTerminalContext, KeyboardFrame(id)).(launched := p.launched + {t})
  }

  /** Launching terminal t from a keyboard interrupt. */
  function LaunchProc(p: Proc, t: int, id: int): Proc
    requires HasCurrent(p) && IsTerminal(t)
  {
    InternalExecute(ParkedFor(p, t, id), true, FIRST_TERM_SHELL, id)
  }

  // ---------------------------------------------------------------------------------------
  // Video memory
  // ---------------------------------------------------------------------------------------

  datatype Cursor = Cursor(x: int, y: int)

  /** Page directories and base page tables, the address of the first of the tables, the physical
      video page and the three backing pages behind it, each terminal's stored cursor, and the
      cursor in use. */
  datatype Video = Video(directories: seq<Paging.Table>, tables: seq<Paging.Table>, tablesAt: nat,
                         pages: seq<seq<Cell>>, cursors: seq<Cursor>, x: int, y: int, attr: Byte)

  predicate VideoOk(v: Video) {
    && |v.tables| == MAX_PROCS && |v.pages| == NUM_TERMINALS + 1 && |v.cursors| == NUM_TERMINALS
    && (forall q :: 0 <= q < MAX_PROCS ==> |v.tables[q]| == Paging.ENTRIES)
    && |v.directories| == MAX_PROCS && v.tablesAt % Paging.PAGE == 0
    && (forall q :: 0 <= q < MAX_PROCS ==> |v.directories[q]| == Paging.ENTRIES)
    && (forall i :: 0 <= i <= NUM_TERMINALS ==> |v.pages[i]| == PAGE_CELLS)
    && 0 <= v.x < COLS && 0 <= v.y < ROWS
    && forall t :: 0 <= t < NUM_TERMINALS ==> 0 <= v.cursors[t].x < COLS && 0 <= v.cursors[t].y < ROWS
  }

  /** Index in pages of the k-th virtual video page through the directory cr3. */
  function PageIndex(v: Video, cr3: int, k: int): int
    requires VideoOk(v) && 0 <= k <= NUM_TERMINALS && (cr3 == KERNEL_DIRECTORY || IsPid(cr3))
  {
    if cr3 == KERNEL_DIRECTORY then k
    else v.tables[cr3][Paging.VIDEO_PAGE + k] / Paging.PAGE - Paging.VIDEO_PAGE
  }

  predicate MappedPage(v: Video, cr3: int, k: int)
    requires VideoOk(v) && 0 <= k <= NUM_TERMINALS && (cr3 == KERNEL_DIRECTORY || IsPid(cr3))
  {
    && (cr3 != KERNEL_DIRECTORY ==> Paging.Present(v.tables[cr3][Paging.VIDEO_PAGE + k]))
    && 0 <= PageIndex(v, cr3, k) <= NUM_TERMINALS
  }

  /** No video access through cr3 faults or leaves the four video pages. */
  predicate Mapped(v: Video, cr3: int) {
    && VideoOk(v) && (cr3 == KERNEL_DIRECTORY || IsPid(cr3))
    && forall k :: 0 <= k <= NUM_TERMINALS ==> MappedPage(v, cr3, k)
  }

  /** Address of the page where terminal t's output goes while it is not visible. */
  function BackingAddress(t: int): int {
    Paging.VIDEO + (t + 1) * Paging.PAGE
  }

  function Remapped(table: Paging.Table, owner: int, from: int, to: int): (r: Paging.Table)
    requires |table| == Paging.ENTRIES && IsTerminal(from)
    ensures |r| == Paging.ENTRIES
  {
    var t := if owner == from then Paging.RemappedVideo(table, BackingAddress(from)) else table;
    if owner == to then Paging.RemappedVideo(t, Paging.VIDEO) else t
  }

  /** change_terminal_state: two page copies through the active tables, the cursor exchange,
      and a remapping of VIDEO in the table of every used pid of the two terminals. */
  function ChangeTerminal(p: Proc, v: Video, from: int, to: int): (r: Video)
    requires ProcOk(p) && Mapped(v, p.cr3) && IsTerminal(from) && IsTerminal(to)
    ensures VideoOk(r)
  {
    assert MappedPage(v, p.cr3, 0) && MappedPage(v, p.cr3, from + 1) && MappedPage(v, p.cr3, to + 1);
    var screen := PageIndex(v, p.cr3, 0);
    var copied := v.pages[PageIndex(v, p.cr3, from + 1) := v.pages[screen]];
    var cursors := v.cursors[from := Cursor(v.x, v.y)];
    v.(pages := copied[screen := copied[PageIndex(v, p.cr3, to + 1)]],
       cursors := cursors, x := cursors[to].x, y := cursors[to].y,
       tables := seq(MAX_PROCS, q requires 0 <= q < MAX_PROCS =>
                   if q in p.used then Remapped(v.tables[q], p.pcbs[q].owner, from, to) else v.tables[q]))
  }

  /** write_terminal: the visible cursor is put aside, the text goes to VIDEO through the
      active tables at the serviced terminal's cursor, and the visible cursor comes back. */
  function WriteTerminal(p: Proc, v: Video, text: seq<Byte>): (r: Video)
    requires ProcOk(p) && Mapped(v, p.cr3)
    ensures VideoOk(r)
  {
    var aside := v.cursors[p.visible := Cursor(v.x, v.y)];
    var at := aside[p.serviced];
    assert MappedPage(v, p.cr3, 0);
    var page := PageIndex(v, p.cr3, 0);
    var s := PutAll(Screen(v.pages[page], at.x, at.y), UpToNul(text), v.attr);
    var cursors := aside[p.serviced := Cursor(s.x, s.y)];
    v.(pages := v.pages[page := s.page], cursors := cursors,
       x := cursors[p.visible].x, y := cursors[p.visible].y)
  }

  /** putc_kbd through the active tables. */
  function TypeChar(p: Proc, v: Video, c: Byte): (r: Video)
    requires Mapped(v, p.cr3)
    ensures Mapped(r, p.cr3)
  {
    assert MappedPage(v, p.cr3, 0);
    var page := PageIndex(v, p.cr3, 0);
    var s := PutChar(Screen(v.pages[page], v.x, v.y), c, v.attr);
    var r := v.(pages := v.pages[page := s.page], x := s.x, y := s.y);
    assert forall k :: 0 <= k <= NUM_TERMINALS && MappedPage(v, p.cr3, k) ==> MappedPage(r, p.cr3, k);
    r
  }

  function BlankScreen(page: seq<Cell>, attr: Byte): Screen
    requires |page| == PAGE_CELLS
  {
    Screen(seq(CELLS, _ => Blank(attr)) + page[CELLS..], 0, 0)
  }

  /** clear_and_reset through the active tables, and the stored cursor with it. */
  function ClearVideo(p: Proc, v: Video): (r: Video)
    requires ProcOk(p) && Mapped(v, p.cr3)
    ensures Mapped(r, p.cr3)
  {
    assert MappedPage(v, p.cr3, 0);
    var page := PageIndex(v, p.cr3, 0);
    var r := v.(pages := v.pages[page := BlankScreen(v.pages[page], v.attr).page], x := 0, y := 0,
                cursors := v.cursors[p.visible := Cursor(0, 0)]);
    assert forall k :: 0 <= k <= NUM_TERMINALS && MappedPage(v, p.cr3, k) ==> MappedPage(r, p.cr3, k);
    r
  }

  /** A page after a byte was stored in it: even bytes hold characters, odd ones attributes. */
  function Poked(page: seq<Cell>, offset: nat, b: Byte): (r: seq<Cell>)
    requires |page| == PAGE_CELLS && offset < 2 * PAGE_CELLS
    ensures |r| == PAGE_CELLS
  {
    var cell := page[offset / 2];
    page[offset / 2 := if offset % 2 == 0 then cell.(ch := b) else cell.(attr := b)]
  }

  /** The byte of a page at an offset. */
  function PageByte(page: seq<Cell>, offset: nat): Byte
    requires |page| == PAGE_CELLS && offset < 2 * PAGE_CELLS
  {
    if offset % 2 == 0 then page[offset / 2].ch else page[offset / 2].attr
  }

  /** A store changes its own byte and no other. */
  lemma PokeIsStore(page: seq<Cell>, offset: nat, b: Byte, k: nat)
    requires |page| == PAGE_CELLS && offset < 2 * PAGE_CELLS && k < 2 * PAGE_CELLS
    ensures PageByte(Poked(page, offset, b), k) == if k == offset then b else PageByte(page, k)
  {
  }

  /** Printing a character is storing it and the attribute in the two bytes of its cell. */
  lemma PrintIsTwoPokes(s: Screen, c: Byte, attr: Byte)
    requires OnScreen(s) && !IsNewLine(c) && c != BACKSPACE && CursorIndex(s) < CELLS - 1
    ensures PutChar(s, c, attr).page == Poked(Poked(s.page, 2 * CursorIndex(s), c), 2 * CursorIndex(s) + 1, attr)
  {
    var i := CursorIndex(s);
    assert 2 * i / 2 == i && (2 * i + 1) / 2 == i && 2 * i % 2 == 0 && (2 * i + 1) % 2 == 1;
  }

  /** A store of user code at VIDEO plus an offset, through the active tables. */
  function PokeVideo(p: Proc, v: Video, offset: nat, b: Byte): (r: Video)
    requires Mapped(v, p.cr3) && offset < Paging.PAGE
    ensures VideoOk(r)
  {
    assert MappedPage(v, p.cr3, 0);
    var page := PageIndex(v, p.cr3, 0);
    v.(pages := v.pages[page := Poked(v.pages[page], offset, b)])
  }

  /** User code may store in VIDEO: it has called vidmap. */
  predicate MayPoke(p: Proc, v: Video, offset: nat) {
    && offset < Paging.PAGE && Mapped(v, p.cr3) && IsPid(p.cr3)
    && var e := v.tables[p.cr3][Paging.VIDEO_PAGE]; Paging.UserBit(e) && Paging.WriteBit(e)
  }

  // ---------------------------------------------------------------------------------------
  // Steps
  // ---------------------------------------------------------------------------------------

  datatype State = State(p: Proc, v: Video, img: FileSystem.Image)

  /** The shell prompt that the keyboard driver prints, "391OS> ". */
  const PROMPT: seq<Byte> := [51, 57, 49, 79, 83, 62, 32]

  /** The line that reports a refused launch, "Could not start new terminal: max processes running" between
      newlines. */
  const NO_PROCESS: seq<Byte> :=
    [10, 67, 111, 117, 108, 100, 32, 110, 111, 116, 32] +
    [115, 116, 97, 114, 116, 32, 110, 101, 119, 32] +
    [116, 101, 114, 109, 105, 110, 97, 108, 58, 32] +
    [109, 97, 120, 32, 112, 114, 111, 99, 101, 115, 115, 101, 115, 32] +
    [114, 117, 110, 110, 105, 110, 103, 10]

  const REFUSED: seq<Byte> := NO_PROCESS + PROMPT

  /** What can happen: a system call or exception of the running process, a store of it into the VIDEO
      page it mapped, a timer interrupt, a keyboard interrupt, or the return of an interrupted keyboard
      handler. */
  datatype Event =
    | Execute(command: seq<Byte>, stack: seq<Byte>, id: int)
    | Halt(status: Byte)
    | Exception
    | Write(text: seq<Byte>)
    | Vidmap
    | Poke(offset: nat, c: Byte)
    | Tick(id: int)
    | FinishIrq
    | AltKey(t: int, id: int)
    | TypeKey(c: Byte)
    | ClearKey(line: seq<Byte>)

  ghost predicate StateOk(s: State) {
    HasCurrent(s.p) && VideoOk(s.v) && FileSystem.ImageOk(s.img)
  }

  /** Whether an execute with this command succeeds in this state. */
  ghost predicate ExecuteStarts(s: State, command: seq<Byte>, stack: seq<Byte>)
    requires FileSystem.ImageOk(s.img) && |stack| == 4
  {
    Starts(s.p, Loader.Loadable(s.img, command, stack))
  }

  /** The active directory while the keyboard handler works. */
  function KeyboardView(p: Proc): Proc
    requires ProcOk(p)
  {
    p.(cr3 := p.top[p.visible])
  }

  function Restored(p: Proc): Proc
    requires ProcOk(p)
  {
    p.(cr3 := p.top[p.serviced])
  }

  /** A step is defined when it follows no wild pointer and faults on no video access. Restarts and
      launches start a shell without asking for one: the image of every machine that boots has it. */
  ghost predicate Defined(s: State, ev: Event) {
    && StateOk(s)
    && match ev
       case Execute(_, stack, _) => |stack| == 4
       case Halt(_) => CanHalt(s.p)
       case Exception => CanReturn(s.p)
       case Write(_) => Mapped(s.v, s.p.cr3)
       case Vidmap => IsPid(s.p.pcbs[Current(s.p)].pid)
       case Poke(offset, _) => MayPoke(s.p, s.v, offset)
       case Tick(_) => CanTick(s.p)
       case FinishIrq => s.p.pcbs[Current(s.p)].irq != []
       case AltKey(t, _) => IsTerminal(t) && Mapped(s.v, s.p.top[s.p.visible])
       case TypeKey(_) => Mapped(s.v, s.p.top[s.p.visible])
       case ClearKey(_) => Mapped(s.v, s.p.top[s.p.visible])
  }

  /** Physical address of a pid's base table. */
  function TableAddress(v: Video, pid: nat): nat {
    v.tablesAt + pid * Paging.PAGE
  }

  /** The directory and base table of a pid. */
  function SpaceOf(v: Video, q: int): (s: Paging.Space)
    requires VideoOk(v) && IsPid(q)
    ensures Paging.SpaceOk(s)
  {
    Paging.Space(v.directories[q], v.tables[q], TableAddress(v, q))
  }

  /** Setting up the directory and the base table of a pid that was just started. */
  function SetupTable(v: Video, started: bool, pid: int): Video
    requires |v.tables| == MAX_PROCS && |v.directories| == MAX_PROCS
  {
    if started && IsPid(pid) then
      v.(tables := v.tables[pid := Paging.BaseTable()],
         directories := v.directories[pid :=
           Paging.TaskDirectory(TableAddress(v, pid), Paging.BlockAddress(pid))])
    else v
  }

  /** One Alt-Fn key: nothing for the visible terminal; a switch to a launched one; a launch of
      a new one if a pid is free; else a message. */
  function AltKeyStep(s: State, t: int, id: int): State
    requires HasCurrent(s.p) && IsTerminal(t) && Mapped(s.v, s.p.top[s.p.visible])
  {
    var k := KeyboardView(s.p);
    if t == s.p.visible then
      s.(p := Restored(s.p))
    else if t in s.p.launched || t == 0 then
      s.(p := Restored(s.p.(visible := t)), v := ChangeTerminal(k, s.v, s.p.visible, t))
    else if LeastFree(s.p.used) != FAILURE then
      s.(p := LaunchProc(s.p, t, id),
         v := SetupTable(ChangeTerminal(k, s.v, s.p.visible, t), true, LeastFree(s.p.used)))
    else
      s.(p := Restored(s.p), v := WriteTerminal(k, s.v, REFUSED))
  }

  ghost function Step(s: State, ev: Event): State
    requires Defined(s, ev)
  {
    match ev
    case Execute(command, stack, id) =>
      s.(p := InternalExecute(s.p, Loader.Loadable(s.img, command, stack), USER_EXECUTE, id),
         v := SetupTable(s.v, ExecuteStarts(s, command, stack), LeastFree(s.p.used)))
    case Halt(status) =>
      s.(p := HaltProc(s.p, status),
         v := SetupTable(s.v, s.p.pcbs[Current(s.p)].flags == FIRST_TERM_SHELL,
                         LeastFree(s.p.used - {s.p.pcbs[Current(s.p)].pid})))
    case Exception =>
      s.(p := ReturnToParent(s.p, EXCEPTION_STATUS))
    case Write(text) =>
      s.(v := WriteTerminal(s.p, s.v, text))
    case Vidmap =>
      var q := s.p.pcbs[Current(s.p)].pid;
      s.(v := s.v.(tables := s.v.tables[q := Paging.GrantedVideo(s.v.tables[q])],
                   directories := s.v.directories[q := Paging.GrantedDirectory(s.v.directories[q])]))
    case Poke(offset, c) =>
      s.(v := PokeVideo(s.p, s.v, offset, c))
    case Tick(id) =>
      s.(p := TickProc(s.p, id))
    case FinishIrq =>
      s.(p := FinishIrqProc(s.p))
    case AltKey(t, id) =>
      AltKeyStep(s, t, id)
    case TypeKey(c) =>
      s.(p := Restored(s.p), v := TypeChar(KeyboardView(s.p), s.v, c))
    case ClearKey(line) =>
      var k := KeyboardView(s.p).(serviced := s.p.visible);
      s.(p := Restored(s.p), v := WriteTerminal(k, ClearVideo(k, s.v), PROMPT + UpToNul(line)))
  }

  // ---------------------------------------------------------------------------------------
  // Process memory
  // ---------------------------------------------------------------------------------------

  /** Memory after the file that a command names is loaded for a pid, if a process starts. */
  ghost function CommandLoaded(img: FileSystem.Image, command: seq<Byte>, started: bool, memory: seq<Byte>, pid: int)
    : (r: seq<Byte>)
    requires FileSystem.ImageOk(img) && |memory| == Loader.MEMORY
    ensures |r| == Loader.MEMORY
  {
    var d := FileSystem.Lookup(img, Loader.CommandName(command) + [0]);
    if started && d.Some? && IsPid(pid) then Loader.LoadedMemory(img, d.value.inode, memory, pid) else memory
  }

  /** Physical memory after a step: a process that starts is loaded into its own block. */
  ghost function StepMemory(s: State, ev: Event, memory: seq<Byte>): (r: seq<Byte>)
    requires Defined(s, ev) && |memory| == Loader.MEMORY
    ensures |r| == Loader.MEMORY
  {
    match ev
    case Execute(command, stack, _) =>
      CommandLoaded(s.img, command, ExecuteStarts(s, command, stack), memory, LeastFree(s.p.used))
    case Halt(_) => HaltMemory(s.p, s.img, memory)
    case AltKey(t, _) => AltKeyMemory(s.p, s.img, t, memory)
    case _ => memory
  }

  ghost function HaltMemory(p: Proc, img: FileSystem.Image, memory: seq<Byte>): (r: seq<Byte>)
    requires HasCurrent(p) && FileSystem.ImageOk(img) && |memory| == Loader.MEMORY
    ensures |r| == Loader.MEMORY
  {
    var c := p.pcbs[Current(p)];
    CommandLoaded(img, Loader.SHELL, c.flags == FIRST_TERM_SHELL, memory, LeastFree(p.used - {c.pid}))
  }

  ghost function AltKeyMemory(p: Proc, img: FileSystem.Image, t: int, memory: seq<Byte>): (r: seq<Byte>)
    requires FileSystem.ImageOk(img) && |memory| == Loader.MEMORY
    ensures |r| == Loader.MEMORY
  {
    CommandLoaded(img, Loader.SHELL, Launches(p, t), memory, LeastFree(p.used))
  }

  /** Alt-Fn launches a terminal. */
  predicate Launches(p: Proc, t: int) {
    t != p.visible && t != 0 && t !in p.launched && LeastFree(p.used) != FAILURE
  }
}
