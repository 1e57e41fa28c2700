/** File descriptors (syscalls.c, filesystem.c): a process's array of eight descriptors, the inode
    pointers it stores, and what any sequence of open, close and read calls does. */
module Descriptors {
  import opened Bytes
  import opened FileSystem

  const MIN_FD := 2
  const MAX_FD := 8
  const WORD := 0x1_0000_0000

  // ---------------------------------------------------------------------------------------
  // Inode pointers
  // ---------------------------------------------------------------------------------------

  /** Where the inode array may lie: page aligned, above the kernel's 4MB and in the lower half
      of a 32-bit address space that holds all of it. */
  ghost predicate ImageAt(img: Image, base: nat) {
    ImageOk(img) && base % BLOCK == 0 && 0x40_0000 <= base < 0x8000_0000 && base + BLOCK * |img.inodes| <= WORD
  }

  /** get_inode_ptr: the index is scaled by 4096 twice, once by the expression and once by the
      pointer addition. */
  function InodePtr(base: nat, count: nat, index: nat): nat {
    if index < count then (base + index * BLOCK % WORD * BLOCK) % WORD else 0
  }

  /** get_inode_num: a signed pointer difference, read as unsigned and divided once more. */
  function InodeNumber(base: nat, ptr: nat): nat {
    var bytes := (ptr - base) % WORD;
    var signed := if bytes < WORD / 2 then bytes else bytes - WORD;
    signed / BLOCK % WORD / BLOCK
  }

  lemma ModShift(x: int, c: int)
    ensures (x + WORD * c) % WORD == x % WORD
  {
  }

  /** The byte difference keeps only the low eight bits of the index. */
  lemma PointerDistance(base: nat, index: nat)
    ensures ((base + index * BLOCK % WORD * BLOCK) % WORD - base) % WORD == index % 256 * 0x100_0000
  {
    var q, k := index / 256, index % 256;
    var c := index * BLOCK / WORD;
    assert index * BLOCK % WORD == index * BLOCK - WORD * c;
    var x := base + index * BLOCK % WORD * BLOCK;
    assert x == base + k * 0x100_0000 + WORD * (q - BLOCK * c);
    ModShift(x - base, -(x / WORD));
    assert x % WORD - base == x - base + WORD * -(x / WORD);
    ModShift(k * 0x100_0000, q - BLOCK * c);
  }

  lemma NumberOfDistance(k: nat)
    requires k < 256
    ensures InodeNumber(0, k * 0x100_0000) == if k < 128 then k else 0xF_FF00 + k
  {
    assert k * 0x100_0000 % WORD == k * 0x100_0000;
    if k >= 128 {
      assert (k * 0x100_0000 - WORD) / BLOCK == (k - 256) * BLOCK;
      ModShift((k - 256) * BLOCK, 1);
    }
  }

  /** The number that comes back from a stored pointer, for every index. */
  lemma StoredNumber(base: nat, count: nat, index: nat)
    requires index < count
    ensures InodeNumber(base, InodePtr(base, count, index)) ==
            if index % 256 < 128 then index % 256 else 0xF_FF00 + index % 256
  {
    PointerDistance(base, index);
    NumberOfDistance(index % 256);
  }

  /** The inode pointer round trip holds exactly for indices below 128. */
  lemma PointerRoundTrip(base: nat, count: nat, index: nat)
    requires index < count < 0xF_FF80
    ensures InodeNumber(base, InodePtr(base, count, index)) == index <==> index < 128
  {
    StoredNumber(base, count, index);
  }

  /** An entry whose inode is out of range gets the null pointer, whose number is out of range. */
  lemma MissingInode(img: Image, base: nat)
    requires ImageAt(img, base)
    ensures InodeNumber(base, 0) >= |img.inodes|
  {
    var pages: int := base / BLOCK;
    assert base == BLOCK * pages;
    ModShift(0 - base, 1);
    assert (0 - base) / BLOCK == 0 - pages;
    ModShift(0 - pages, 1);
  }

  // ---------------------------------------------------------------------------------------
  // The simple view: a table of open files
  // ---------------------------------------------------------------------------------------

  /** An open file. A regular file has a position in a flat sequence of bytes. */
  datatype File = Terminal | Rtc | Directory(next: nat) | Regular(inode: nat, position: nat)

  type Files = seq<Option<File>>

  /** What the first 32 bytes of a user's buffer hold before a read. */
  type Window = w: seq<Byte> | |w| == NAME_SIZE witness seq(NAME_SIZE, _ => 0)

  datatype Call = Open(name: seq<Byte>) | Close(fd: int) | Read(fd: int, nbytes: int, buf: Window)

  datatype Reply = Reply(code: int, data: seq<Byte>)

  const FRESH: Files := [Some(Terminal), Some(Terminal), None, None, None, None, None, None]

  function LeastFree(files: Files, from: nat): (i: nat)
    requires from <= |files|
    ensures from <= i <= |files| && (i < |files| ==> files[i].None?)
    ensures forall k :: from <= k < i ==> files[k].Some?
    decreases |files| - from
  {
    if from == |files| || files[from].None? then from else LeastFree(files, from + 1)
  }

  /** The file an entry opens as. A regular file is known by the number of its stored pointer. */
  function FileFor(img: Image, base: nat, d: Dentry): File {
    if d.filetype == TYPE_DEVICE then Rtc
    else if d.filetype == TYPE_DIRECTORY then Directory(0)
    else Regular(InodeNumber(base, InodePtr(base, |img.inodes|, d.inode)), 0)
  }

  function OpenReply(img: Image, files: Files, name: seq<Byte>): Reply
    requires |files| == MAX_FD
  {
    if Lookup(img, name).None? || LeastFree(files, MIN_FD) == MAX_FD then Reply(FAILURE, [])
    else Reply(LeastFree(files, MIN_FD), [])
  }

  predicate InUse(files: Files, fd: int) {
    0 <= fd < |files| && files[fd].Some?
  }

  /** What a read of a regular file returns; a negative size is a large unsigned one. */
  ghost function FileReply(img: Image, inode: nat, position: nat, nbytes: int): Reply
    requires ImageOk(img)
  {
    var n := Available(img, inode, position, nbytes % WORD);
    if !ReadOk(img, inode, position, nbytes % WORD) then Reply(FAILURE, [])
    else if n == 0 then Reply(0, [])
    else Reply(n, FlatFile(img, inode)[position..position + n])
  }

  /** The window after strncpy wrote the first n bytes of a name and its padding over it. */
  function Overlaid(name: seq<Byte>, n: nat, buf: Window): Window {
    seq(NAME_SIZE, k requires 0 <= k < NAME_SIZE =>
          if k >= n then buf[k] else if k < |name| then name[k] else 0)
  }

  /** How many bytes read_directory then reports: 32 if the last byte is not NUL, and otherwise the
      string length. */
  function ReportedLength(w: Window): (n: nat)
    ensures n <= NAME_SIZE
  {
    if w[NAME_SIZE - 1] != 0 then NAME_SIZE else |UpToNul(w)|
  }

  /** What a read of a directory returns. It depends on what the buffer held, since the length is
      measured in the buffer. */
  function DirectoryReply(img: Image, next: nat, nbytes: int, buf: Window): Reply {
    if next >= |img.entries| then Reply(0, [])
    else
      var w := Overlaid(EntryName(img.entries[next]), nbytes % WORD, buf);
      Reply(ReportedLength(w), w[..ReportedLength(w)])
  }

  /** The reply to a call. Reads of the terminal and the clock are answered by their drivers. */
  ghost function Answer(img: Image, files: Files, c: Call): Reply
    requires ImageOk(img) && |files| == MAX_FD
  {
    match c
    case Open(name) => OpenReply(img, files, name)
    case Close(fd) => Reply(if fd >= MIN_FD && InUse(files, fd) then 0 else FAILURE, [])
    case Read(fd, nbytes, buf) =>
      if !InUse(files, fd) then Reply(FAILURE, [])
      else match files[fd].value
        case Regular(inode, position) => FileReply(img, inode, position, nbytes)
        case Directory(next) => DirectoryReply(img, next, nbytes, buf)
        case _ => Reply(0, [])
  }

  ghost function Next(img: Image, base: nat, files: Files, c: Call): (r: Files)
    requires ImageOk(img) && |files| == MAX_FD
    ensures |r| == MAX_FD
  {
    var reply := Answer(img, files, c);
    match c
    case Open(name) =>
      if reply.code == FAILURE then files
      else files[reply.code := Some(FileFor(img, base, Lookup(img, name).value))]
    case Close(fd) =>
      if reply.code == FAILURE then files else files[fd := None]
    case Read(fd, _, _) =>
      if !InUse(files, fd) then files
      else match files[fd].value
        case Regular(inode, position) => files[fd := Some(Regular(inode, position + |reply.data|))]
        case Directory(next) =>
          if next >= |img.entries| then files else files[fd := Some(Directory(next + 1))]
        case _ => files
  }

  ghost function After(img: Image, base: nat, h: seq<Call>): (files: Files)
    requires ImageOk(img)
    ensures |files| == MAX_FD
    decreases |h|
  {
    if h == [] then FRESH else Next(img, base, After(img, base, h[..|h| - 1]), h[|h| - 1])
  }

  // ---------------------------------------------------------------------------------------
  // Every sequence of calls
  // ---------------------------------------------------------------------------------------

  /** A call in a history together with its reply. */
  ghost function LastReply(img: Image, base: nat, h: seq<Call>): Reply
    requires ImageOk(img) && h != []
  {
    Answer(img, After(img, base, h[..|h| - 1]), h[|h| - 1])
  }

  ghost predicate Opens(img: Image, base: nat, h: seq<Call>, fd: nat)
    requires ImageOk(img) && h != []
  {
    h[|h| - 1].Open? && LastReply(img, base, h).code == fd
  }

  predicate Reads(c: Call, fd: nat) {
    c.Read? && c.fd == fd
  }

  /** What a descriptor delivered, read by read, since it was last opened. */
  ghost function Received(img: Image, base: nat, h: seq<Call>, fd: nat): seq<seq<Byte>>
    requires ImageOk(img)
    decreases |h|
  {
    if h == [] || Opens(img, base, h, fd) then []
    else
      var before := Received(img, base, h[..|h| - 1], fd);
      if Reads(h[|h| - 1], fd) && LastReply(img, base, h).code > 0
      then before + [LastReply(img, base, h).data] else before
  }

  /** The entry a descriptor was last opened for. */
  ghost function OpenedFor(img: Image, base: nat, h: seq<Call>, fd: nat): Option<Dentry>
    requires ImageOk(img)
    decreases |h|
  {
    if h == [] then None
    else if Opens(img, base, h, fd) then Lookup(img, h[|h| - 1].name)
    else OpenedFor(img, base, h[..|h| - 1], fd)
  }

  /** Every read of a descriptor since it was last opened asked for at least 32 bytes. */
  ghost predicate WholeNames(img: Image, base: nat, h: seq<Call>, fd: nat)
    requires ImageOk(img)
    decreases |h|
  {
    h == [] || Opens(img, base, h, fd) ||
    (WholeNames(img, base, h[..|h| - 1], fd) &&
     (Reads(h[|h| - 1], fd) ==> h[|h| - 1].nbytes % WORD >= NAME_SIZE))
  }

  function Concat(pieces: seq<seq<Byte>>): seq<Byte> {
    if pieces == [] then [] else Concat(pieces[..|pieces| - 1]) + pieces[|pieces| - 1]
  }

  function Names(entries: seq<Dentry>): (r: seq<seq<Byte>>)
    ensures |r| == |entries|
  {
    seq(|entries|, i requires 0 <= i < |entries| => EntryName(entries[i]))
  }

  /** The names of a directory are not empty. */
  ghost predicate Named(img: Image) {
    forall i :: 0 <= i < |img.entries| ==> EntryName(img.entries[i]) != []
  }

  /** What holds of an open descriptor, given what it delivered and what it was opened for: it is
      of its entry's type, and what it delivered is a prefix of the file, or the first names if
      every read asked for whole names. */
  ghost predicate Consistent(img: Image, base: nat, file: Option<File>, received: seq<seq<Byte>>,
                             entry: Option<Dentry>, whole: bool)
    requires ImageOk(img)
  {
    match file
    case None => true
    case Some(Terminal) => false
    case Some(Rtc) => entry.Some? && entry.value.filetype == TYPE_DEVICE
    case Some(Directory(next)) =>
      && entry.Some? && entry.value.filetype == TYPE_DIRECTORY
      && next <= |img.entries| && (whole ==> received == Names(img.entries[..next]))
    case Some(Regular(inode, position)) =>
      && entry.Some? && entry.value.filetype == TYPE_REGULAR
      && FileFor(img, base, entry.value) == Regular(inode, 0)
      && (if inode < |img.inodes|
          then position <= img.inodes[inode].length && Concat(received) == FlatFile(img, inode)[..position]
          else position == 0 && received == [])
  }

  lemma ReadMoves(img: Image, inode: nat, position: nat, nbytes: int, received: seq<seq<Byte>>)
    requires ImageOk(img)
    requires if inode < |img.inodes|
             then position <= img.inodes[inode].length && Concat(received) == FlatFile(img, inode)[..position]
             else position == 0 && received == []
    ensures var reply := FileReply(img, inode, position, nbytes);
            var p := position + |reply.data|;
            && (reply.code > 0 <==> reply.data != []) && (reply.code > 0 ==> reply.code == |reply.data|)
            && (inode >= |img.inodes| ==> reply.code == FAILURE)
            && (inode < |img.inodes| ==> p <= img.inodes[inode].length)
            && (reply.code > 0 ==> Concat(received + [reply.data]) == FlatFile(img, inode)[..p])
  {
    var reply := FileReply(img, inode, position, nbytes);
    if reply.code > 0 {
      var f := FlatFile(img, inode);
      assert (received + [reply.data])[..|received|] == received;
      assert f[..position] + f[position..position + reply.code] == f[..position + reply.code];
    }
  }

  // ---------------------------------------------------------------------------------------
  // When a directory read delivers the name
  // ---------------------------------------------------------------------------------------

  ghost predicate DeliversName(img: Image, next: nat, nbytes: int, buf: Window) {
    next < |img.entries| &&
    DirectoryReply(img, next, nbytes, buf) == Reply(|EntryName(img.entries[next])|, EntryName(img.entries[next]))
  }

  /** A read delivers the name exactly when it asks for 32 bytes or more, or what the buffer held
      happens to complete what was copied. */
  lemma DeliversNameExact(img: Image, next: nat, nbytes: int, buf: Window)
    requires ImageOk(img) && next < |img.entries|
    ensures DeliversName(img, next, nbytes, buf) <==>
            var name, n := EntryName(img.entries[next]), nbytes % WORD;
            || n >= NAME_SIZE
            || (|name| < n && buf[NAME_SIZE - 1] == 0)
            || (|name| >= n && buf[n..|name|] == name[n..] &&
                (|name| < NAME_SIZE ==> buf[|name|] == 0 && buf[NAME_SIZE - 1] == 0))
  {
    var name, n := EntryName(img.entries[next]), nbytes % WORD;
    OverlaidDelivers(name, Overlaid(name, n, buf));
    if n >= NAME_SIZE || |name| < n {
      OverlaidWhole(name, n, buf);
    } else {
      OverlaidPart(name, n, buf);
    }
  }

  lemma OverlaidWhole(name: seq<Byte>, n: nat, buf: Window)
    requires |name| <= NAME_SIZE && (n >= NAME_SIZE || |name| < n)
    ensures Overlaid(name, n, buf)[..|name|] == name
  {
  }

  lemma OverlaidPart(name: seq<Byte>, n: nat, buf: Window)
    requires n <= |name| <= NAME_SIZE
    ensures Overlaid(name, n, buf)[..|name|] == name <==> buf[n..|name|] == name[n..]
  {
    var w := Overlaid(name, n, buf);
    forall k | n <= k < |name|
      ensures w[k] == buf[k]
    {
    }
    assert w[n..|name|] == buf[n..|name|];
    assert w[..|name|] == w[..n] + w[n..|name|];
    assert w[..n] == name[..n];
    assert name == name[..n] + name[n..];
  }

  /** A window reports exactly a name when it starts with it and, if there is room, with NULs
      behind it and at the end. */
  lemma OverlaidDelivers(name: seq<Byte>, w: Window)
    requires |name| <= NAME_SIZE && 0 !in name
    ensures Reply(ReportedLength(w), w[..ReportedLength(w)]) == Reply(|name|, name) <==>
            w[..|name|] == name && (|name| < NAME_SIZE ==> w[|name|] == 0 && w[NAME_SIZE - 1] == 0)
  {
    if w[..|name|] == name && (|name| < NAME_SIZE ==> w[|name|] == 0 && w[NAME_SIZE - 1] == 0) {
      UpToNulIs(w, |name|);
      assert |name| == NAME_SIZE ==> name[NAME_SIZE - 1] in name;
    }
  }

  /** A read size delivers the name whatever the buffer held exactly when it is 32 or more. */
  lemma WholeNamesExact(img: Image, next: nat, nbytes: int)
    requires ImageOk(img) && next < |img.entries|
    ensures (forall buf: Window :: DeliversName(img, next, nbytes, buf)) <==> nbytes % WORD >= NAME_SIZE
  {
    var name, n := EntryName(img.entries[next]), nbytes % WORD;
    if n >= NAME_SIZE {
      forall buf: Window
        ensures DeliversName(img, next, nbytes, buf)
      {
        DeliversNameExact(img, next, nbytes, buf);
      }
    } else {
      var last: Byte := if |name| == NAME_SIZE && name[NAME_SIZE - 1] == 1 then 2 else 1;
      var buf: Window := seq(NAME_SIZE, _ => last);
      DeliversNameExact(img, next, nbytes, buf);
      if |name| == NAME_SIZE {
        assert buf[n..|name|][|name| - 1 - n] == last && name[n..][|name| - 1 - n] == name[|name| - 1];
      }
      assert !DeliversName(img, next, nbytes, buf);
    }
  }

  lemma DirectoryMoves(img: Image, next: nat, nbytes: int, buf: Window)
    requires ImageOk(img) && Named(img) && next < |img.entries| && nbytes % WORD >= NAME_SIZE
    ensures DirectoryReply(img, next, nbytes, buf).code > 0
    ensures Names(img.entries[..next]) + [DirectoryReply(img, next, nbytes, buf).data] == Names(img.entries[..next + 1])
  {
    DeliversNameExact(img, next, nbytes, buf);
  }

  /** In every history: descriptors 0 and 1 are the terminal, and every other open one is
      consistent. */
  lemma {:induction false} EveryDescriptorConsistent(img: Image, base: nat, h: seq<Call>, fd: nat)
    requires ImageOk(img) && Named(img) && fd < MAX_FD
    ensures fd < MIN_FD ==> After(img, base, h)[fd] == Some(Terminal)
    ensures fd >= MIN_FD ==>
              Consistent(img, base, After(img, base, h)[fd], Received(img, base, h, fd), OpenedFor(img, base, h, fd),
                         WholeNames(img, base, h, fd))
    decreases |h|
  {
    if h != [] {
      EveryDescriptorConsistent(img, base, h[..|h| - 1], fd);
      var files, c := After(img, base, h[..|h| - 1]), h[|h| - 1];
      if c.Read? && c.fd == fd >= MIN_FD && InUse(files, fd) {
        ReadKeepsConsistent(img, base, files, c, Received(img, base, h[..|h| - 1], fd),
                            OpenedFor(img, base, h[..|h| - 1], fd), WholeNames(img, base, h[..|h| - 1], fd));
      } else {
        OtherCalls(img, base, files, c, fd);
      }
    }
  }

  /** A call that does not read an open descriptor opens it at the start of a file, closes it, or
      leaves it alone. */
  lemma OtherCalls(img: Image, base: nat, files: Files, c: Call, fd: nat)
    requires ImageOk(img) && |files| == MAX_FD && fd < MAX_FD
    requires c.Read? && c.fd == fd && InUse(files, fd) ==> files[fd].value == Terminal
    ensures if c.Open? && Answer(img, files, c).code == fd
            then fd >= MIN_FD && Lookup(img, c.name).Some? && Lookup(img, c.name).value.filetype <= TYPE_REGULAR
                 && Next(img, base, files, c)[fd] == Some(FileFor(img, base, Lookup(img, c.name).value))
            else Next(img, base, files, c)[fd] == files[fd] || (fd >= MIN_FD && Next(img, base, files, c)[fd] == None)
    ensures c.Read? && c.fd == fd ==> Answer(img, files, c).code <= 0
  {
  }

  lemma ReadKeepsConsistent(img: Image, base: nat, files: Files, c: Call, received: seq<seq<Byte>>,
                            entry: Option<Dentry>, whole: bool)
    requires ImageOk(img) && Named(img) && |files| == MAX_FD && c.Read? && InUse(files, c.fd)
    requires Consistent(img, base, files[c.fd], received, entry, whole)
    ensures var reply := Answer(img, files, c);
            Consistent(img, base, Next(img, base, files, c)[c.fd],
                       if reply.code > 0 then received + [reply.data] else received, entry,
                       whole && c.nbytes % WORD >= NAME_SIZE)
  {
    if files[c.fd].value.Regular? {
      RegularKeepsConsistent(img, base, files, c, received, entry, whole);
    } else if files[c.fd].value.Directory? {
      DirectoryKeepsConsistent(img, base, files, c, received, entry, whole);
    }
  }

  lemma RegularKeepsConsistent(img: Image, base: nat, files: Files, c: Call, received: seq<seq<Byte>>,
                               entry: Option<Dentry>, whole: bool)
    requires ImageOk(img) && |files| == MAX_FD && c.Read? && InUse(files, c.fd) && files[c.fd].value.Regular?
    requires Consistent(img, base, files[c.fd], received, entry, whole)
    ensures var reply := Answer(img, files, c);
            Consistent(img, base, Next(img, base, files, c)[c.fd],
                       if reply.code > 0 then received + [reply.data] else received, entry,
                       whole && c.nbytes % WORD >= NAME_SIZE)
  {
    ReadMoves(img, files[c.fd].value.inode, files[c.fd].value.position, c.nbytes, received);
  }

  lemma DirectoryKeepsConsistent(img: Image, base: nat, files: Files, c: Call, received: seq<seq<Byte>>,
                                 entry: Option<Dentry>, whole: bool)
    requires ImageOk(img) && Named(img) && |files| == MAX_FD && c.Read? && InUse(files, c.fd)
    requires files[c.fd].value.Directory? && Consistent(img, base, files[c.fd], received, entry, whole)
    ensures var reply := Answer(img, files, c);
            Consistent(img, base, Next(img, base, files, c)[c.fd],
                       if reply.code > 0 then received + [reply.data] else received, entry,
                       whole && c.nbytes % WORD >= NAME_SIZE)
  {
    var next := files[c.fd].value.next;
    if next < |img.entries| && c.nbytes % WORD >= NAME_SIZE {
      DirectoryMoves(img, next, c.nbytes, c.buf);
    }
  }

  /** A descriptor of a regular file delivers the entry's own file exactly when the entry's inode
      index is below 128. */
  lemma OwnFile(img: Image, base: nat, d: Dentry)
    requires ImageAt(img, base) && d.filetype == TYPE_REGULAR && d.inode < |img.inodes|
    ensures FileFor(img, base, d) == Regular(d.inode, 0) <==> d.inode < 128
  {
    PointerRoundTrip(base, |img.inodes|, d.inode);
  }

  /** From index 128 on, a descriptor delivers the file of the index modulo 256 if that is below
      128 (another entry's), and every read fails otherwise. */
  lemma OtherFile(img: Image, base: nat, d: Dentry, position: nat, nbytes: int)
    requires ImageAt(img, base) && d.filetype == TYPE_REGULAR && d.inode >= 128
    ensures if d.inode < |img.inodes| && d.inode % 256 < 128
            then FileFor(img, base, d) == Regular(d.inode % 256, 0)
            else FileReply(img, FileFor(img, base, d).inode, position, nbytes) == Reply(FAILURE, [])
  {
    if d.inode < |img.inodes| {
      StoredNumber(base, |img.inodes|, d.inode);
    } else {
      MissingInode(img, base);
    }
  }

  /** A read that asked for bytes and got none ends the file: all of it has been delivered. */
  lemma ReadToTheEnd(img: Image, base: nat, h: seq<Call>, fd: nat)
    requires ImageOk(img) && Named(img) && MIN_FD <= fd < MAX_FD && h != [] && Reads(h[|h| - 1], fd)
    requires LastReply(img, base, h).code == 0 && h[|h| - 1].nbytes % WORD > 0
    requires After(img, base, h)[fd].Some? && After(img, base, h)[fd].value.Regular?
    ensures var inode := After(img, base, h)[fd].value.inode;
            inode < |img.inodes| && Concat(Received(img, base, h, fd)) == FlatFile(img, inode)
  {
    EveryDescriptorConsistent(img, base, h, fd);
    EveryDescriptorConsistent(img, base, h[..|h| - 1], fd);
    var inode := After(img, base, h)[fd].value.inode;
    assert FlatFile(img, inode)[..img.inodes[inode].length] == FlatFile(img, inode);
  }

  /** If every read asked for whole names, a directory read that returns 0 comes after every name was
      delivered once, in order; and every later read, of any size, returns 0 too. */
  lemma ListToTheEnd(img: Image, base: nat, h: seq<Call>, fd: nat, nbytes: int, buf: Window)
    requires ImageOk(img) && Named(img) && MIN_FD <= fd < MAX_FD && h != [] && Reads(h[|h| - 1], fd)
    requires LastReply(img, base, h).code == 0
    requires After(img, base, h)[fd].Some? && After(img, base, h)[fd].value.Directory?
    requires WholeNames(img, base, h, fd)
    ensures Received(img, base, h, fd) == Names(img.entries)
    ensures Answer(img, After(img, base, h), Read(fd, nbytes, buf)) == Reply(0, [])
    ensures Next(img, base, After(img, base, h), Read(fd, nbytes, buf)) == After(img, base, h)
  {
    EveryDescriptorConsistent(img, base, h, fd);
    EveryDescriptorConsistent(img, base, h[..|h| - 1], fd);
    var was, c := After(img, base, h[..|h| - 1])[fd].value, h[|h| - 1];
    if was.next < |img.entries| {
      DirectoryMoves(img, was.next, c.nbytes, c.buf);
    }
    assert img.entries[..|img.entries|] == img.entries;
  }

  // ---------------------------------------------------------------------------------------
  // Which descriptors are open
  // ---------------------------------------------------------------------------------------

  /** Call i of a history is an open that returned fd. */
  ghost predicate OpenedAt(img: Image, base: nat, h: seq<Call>, i: int, fd: int)
    requires ImageOk(img)
  {
    0 <= i < |h| && h[i].Open? && LastReply(img, base, h[..i + 1]).code == fd
  }

  /** Call i of a history is a close of fd that answered 0. */
  ghost predicate ClosedAt(img: Image, base: nat, h: seq<Call>, i: int, fd: int)
    requires ImageOk(img)
  {
    0 <= i < |h| && h[i] == Close(fd) && LastReply(img, base, h[..i + 1]).code == 0
  }

  /** An open returned fd, and no later close of it answered 0. */
  ghost predicate StillOpen(img: Image, base: nat, h: seq<Call>, fd: int)
    requires ImageOk(img)
  {
    exists i :: OpenedAt(img, base, h, i, fd) && NoCloseAfter(img, base, h, i, fd)
  }

  ghost predicate NoCloseAfter(img: Image, base: nat, h: seq<Call>, i: int, fd: int)
    requires ImageOk(img)
  {
    forall j :: i < j < |h| ==> !ClosedAt(img, base, h, j, fd)
  }

  /** What happened before the last call happened in the history without it. */
  lemma EarlierCalls(img: Image, base: nat, h: seq<Call>, i: int, fd: int)
    requires ImageOk(img) && h != [] && i < |h| - 1
    ensures OpenedAt(img, base, h[..|h| - 1], i, fd) <==> OpenedAt(img, base, h, i, fd)
    ensures ClosedAt(img, base, h[..|h| - 1], i, fd) <==> ClosedAt(img, base, h, i, fd)
  {
    if i >= 0 {
      assert h[..|h| - 1][..i + 1] == h[..i + 1];
    }
  }

  lemma SecondLastCloses(img: Image, base: nat, h: seq<Call>, i: int, fd: int)
    requires ImageOk(img) && h != [] && i < |h| - 1
    ensures NoCloseAfter(img, base, h, i, fd) <==>
            NoCloseAfter(img, base, h[..|h| - 1], i, fd) && !ClosedAt(img, base, h, |h| - 1, fd)
  {
    var before := h[..|h| - 1];
    if NoCloseAfter(img, base, h, i, fd) && !NoCloseAfter(img, base, before, i, fd) {
      var j :| i < j < |before| && ClosedAt(img, base, before, j, fd);
      EarlierCalls(img, base, h, j, fd);
    }
    if NoCloseAfter(img, base, before, i, fd) && !NoCloseAfter(img, base, h, i, fd) {
      var j :| i < j < |h| && ClosedAt(img, base, h, j, fd);
      if j < |h| - 1 {
        EarlierCalls(img, base, h, j, fd);
      }
    }
  }

  /** How the last call decides whether a descriptor is open. */
  lemma LastCallDecides(img: Image, base: nat, h: seq<Call>, fd: int)
    requires ImageOk(img) && h != []
    ensures StillOpen(img, base, h, fd) <==>
            || OpenedAt(img, base, h, |h| - 1, fd)
            || (StillOpen(img, base, h[..|h| - 1], fd) && !ClosedAt(img, base, h, |h| - 1, fd))
  {
    if OpenedAt(img, base, h, |h| - 1, fd) {
      assert NoCloseAfter(img, base, h, |h| - 1, fd);
    } else if StillOpen(img, base, h, fd) {
      var i :| OpenedAt(img, base, h, i, fd) && NoCloseAfter(img, base, h, i, fd);
      EarlierCalls(img, base, h, i, fd);
      SecondLastCloses(img, base, h, i, fd);
    } else if StillOpen(img, base, h[..|h| - 1], fd) {
      var i :| OpenedAt(img, base, h[..|h| - 1], i, fd) && NoCloseAfter(img, base, h[..|h| - 1], i, fd);
      EarlierCalls(img, base, h, i, fd);
      SecondLastCloses(img, base, h, i, fd);
    }
  }

  /** After any calls, a descriptor is open if and only if an open returned it and no later close of it
      answered 0. */
  lemma {:induction false} OpenExact(img: Image, base: nat, h: seq<Call>, fd: nat)
    requires ImageOk(img) && MIN_FD <= fd < MAX_FD
    ensures After(img, base, h)[fd].Some? <==> StillOpen(img, base, h, fd)
    decreases |h|
  {
    if h != [] {
      OpenExact(img, base, h[..|h| - 1], fd);
      LastCallDecides(img, base, h, fd);
      assert h[..|h|] == h;
      CallOpens(img, base, After(img, base, h[..|h| - 1]), h[|h| - 1], fd);
    }
  }

  lemma CallOpens(img: Image, base: nat, files: Files, c: Call, fd: nat)
    requires ImageOk(img) && |files| == MAX_FD && MIN_FD <= fd < MAX_FD
    ensures Next(img, base, files, c)[fd].Some? <==>
            || (c.Open? && Answer(img, files, c).code == fd)
            || (files[fd].Some? && !(c == Close(fd) && Answer(img, files, c).code == 0))
  {
  }

  /** A close succeeds exactly for a descriptor that is still open. */
  lemma CloseExact(img: Image, base: nat, h: seq<Call>, fd: int)
    requires ImageOk(img)
    ensures Answer(img, After(img, base, h), Close(fd)) ==
            Reply(if MIN_FD <= fd < MAX_FD && StillOpen(img, base, h, fd) then 0 else FAILURE, [])
  {
    if MIN_FD <= fd < MAX_FD {
      OpenExact(img, base, h, fd);
    }
  }

  /** An open of a known name returns the least descriptor from 2 on that is not open, and fails exactly
      when 2 to 7 all are. */
  lemma OpenAnswers(img: Image, base: nat, h: seq<Call>, name: seq<Byte>)
    requires ImageOk(img)
    ensures var r := Answer(img, After(img, base, h), Open(name));
            && r.data == []
            && (r.code == FAILURE <==>
                  Lookup(img, name).None? || forall fd :: MIN_FD <= fd < MAX_FD ==> StillOpen(img, base, h, fd))
            && (r.code != FAILURE ==>
                  && MIN_FD <= r.code < MAX_FD && !StillOpen(img, base, h, r.code)
                  && forall fd :: MIN_FD <= fd < r.code ==> StillOpen(img, base, h, fd))
  {
    forall fd | MIN_FD <= fd < MAX_FD
      ensures After(img, base, h)[fd].Some? <==> StillOpen(img, base, h, fd)
    {
      OpenExact(img, base, h, fd);
    }
  }

  /** A descriptor that was closed is free: reading or closing it fails until an open returns it, and the
      next open of a known name returns at most it. */
  lemma ClosedIsFree(img: Image, base: nat, h: seq<Call>, fd: nat, nbytes: int, buf: Window, name: seq<Byte>)
    requires ImageOk(img) && h != [] && ClosedAt(img, base, h, |h| - 1, fd) && Lookup(img, name).Some?
    ensures Answer(img, After(img, base, h), Read(fd, nbytes, buf)) == Reply(FAILURE, [])
    ensures Answer(img, After(img, base, h), Close(fd)) == Reply(FAILURE, [])
    ensures MIN_FD <= Answer(img, After(img, base, h), Open(name)).code <= fd
  {
    assert h[..|h|] == h;
    LastCallDecides(img, base, h, fd);
    OpenExact(img, base, h, fd);
    CloseExact(img, base, h, fd);
    OpenAnswers(img, base, h, name);
  }

  /** A read fails exactly when its descriptor is not open, or its file's inode or a block on the way is out
      of range; a read of a regular file delivers what is left of it, at most the bytes asked for. */
  lemma ReadAnswers(img: Image, base: nat, h: seq<Call>, fd: int, nbytes: int, buf: Window)
    requires ImageOk(img)
    ensures var r := Answer(img, After(img, base, h), Read(fd, nbytes, buf));
            if !(0 <= fd < MAX_FD) || (fd >= MIN_FD && !StillOpen(img, base, h, fd)) then r == Reply(FAILURE, [])
            else if After(img, base, h)[fd].Some? && After(img, base, h)[fd].value.Regular? then
              Delivers(img, After(img, base, h)[fd].value, nbytes % WORD, r)
            else r.code >= 0
  {
    if 0 <= fd < MAX_FD {
      if fd >= MIN_FD {
        OpenExact(img, base, h, fd);
      } else {
        StandardStreams(img, base, h, fd);
      }
    }
  }

  lemma {:induction false} StandardStreams(img: Image, base: nat, h: seq<Call>, fd: nat)
    requires ImageOk(img) && fd < MIN_FD
    ensures After(img, base, h)[fd] == Some(Terminal)
    decreases |h|
  {
    if h != [] {
      StandardStreams(img, base, h[..|h| - 1], fd);
    }
  }

  /** The reply to a read of n bytes of a regular file. */
  ghost predicate Delivers(img: Image, file: File, n: nat, r: Reply)
    requires ImageOk(img) && file.Regular?
  {
    var inode, position := file.inode, file.position;
    if !ReadOk(img, inode, position, n) then r == Reply(FAILURE, [])
    else
      && inode < |img.inodes| && r.code == |r.data|
      && var left := img.inodes[inode].length - position;
      && |r.data| == (if left <= 0 then 0 else if left < n then left else n)
      && (left > 0 ==> r.data == FlatFile(img, inode)[position..position + |r.data|])
  }

  // ---------------------------------------------------------------------------------------
  // The descriptor array
  // ---------------------------------------------------------------------------------------

  /** The jump table a descriptor points to. */
  datatype Ops = NoOps | TerminalOps | RtcOps | DirectoryOps | RegularOps

  datatype FileInfo = FileInfo(ops: Ops, inode: nat, position: nat, flags: nat)

  function FileOf(base: nat, info: FileInfo): Option<File> {
    if info.flags == 0 then None
    else match info.ops
      case RtcOps => Some(Rtc)
      case DirectoryOps => Some(Directory(info.position))
      case RegularOps => Some(Regular(InodeNumber(base, info.inode), info.position))
      case _ => Some(Terminal)
  }

  /** The first n bytes of a C string, padded with NULs. */
  function Copied(src: seq<Byte>, n: nat): (r: seq<Byte>)
    ensures |r| == n
  {
    seq(n, k requires 0 <= k => if k < |UpToNul(src)| then UpToNul(src)[k] else 0)
  }

  /** strncpy, from memory that holds a NUL somewhere. */
  method StrNCpy(buf: array<Byte>, at: nat, src: seq<Byte>, n: nat)
    requires 0 in src && at + n <= buf.Length
    modifies buf
    ensures buf[at..at + n] == Copied(src, n)
    ensures buf[..at] == old(buf[..at]) && buf[at + n..] == old(buf[at + n..])
  {
    var i := 0;
    while src[i] != 0 && i < n
      invariant 0 <= i <= n && i < |src| && 0 !in src[..i]
      invariant buf[at..at + i] == src[..i]
      invariant buf[..at] == old(buf[..at]) && buf[at + n..] == old(buf[at + n..])
      decreases n - i
    {
      buf[at + i] := src[i];
      assert buf[at..at + i + 1] == buf[at..at + i] + [src[i]];
      i := i + 1;
      ZeroAhead(src, i);
    }
    CopiedPrefix(src, n, i);
    while i < n
      invariant 0 <= i <= n && (i < n ==> |UpToNul(src)| <= i)
      invariant buf[at..at + i] == Copied(src, n)[..i]
      invariant buf[..at] == old(buf[..at]) && buf[at + n..] == old(buf[at + n..])
    {
      buf[at + i] := 0;
      assert buf[at..at + i + 1] == buf[at..at + i] + [0];
      assert Copied(src, n)[..i + 1] == Copied(src, n)[..i] + [0];
      i := i + 1;
    }
    assert Copied(src, n)[..n] == Copied(src, n);
  }

  lemma ZeroAhead(src: seq<Byte>, i: nat)
    requires 0 in src && 0 < i <= |src| && 0 !in src[..i - 1] && src[i - 1] != 0
    ensures i < |src| && 0 !in src[..i]
  {
    assert src == src[..i - 1] + [src[i - 1]] + src[i..];
    assert src[..i] == src[..i - 1] + [src[i - 1]];
  }

  /** What the first loop leaves: it stopped at the NUL or at the count. */
  lemma CopiedPrefix(src: seq<Byte>, n: nat, i: nat)
    requires i <= n && i < |src| && 0 !in src[..i] && (src[i] == 0 || i == n)
    ensures src[..i] == Copied(src, n)[..i] && (i < n ==> |UpToNul(src)| <= i)
  {
    if src[i] == 0 {
      UpToNulIs(src, i);
    } else {
      UpToNulReaches(src, i);
      assert src[..i] == UpToNul(src)[..i];
    }
  }

  /** The memory strncpy reads for a name: its 32 bytes, and the file type behind them. */
  function NameInMemory(d: Dentry): (r: seq<Byte>)
    requires |d.filename| == NAME_SIZE && d.filetype <= TYPE_REGULAR
    ensures 0 in r
  {
    var r := d.filename + [d.filetype, 0, 0, 0];
    assert r[NAME_SIZE + 1] == 0;
    r
  }

  /** Within 32 bytes only the name is copied. */
  lemma CopiedName(d: Dentry, n: nat, k: nat)
    requires |d.filename| == NAME_SIZE && d.filetype <= TYPE_REGULAR && k < n && k < NAME_SIZE
    ensures Copied(NameInMemory(d), n)[k] == if k < |EntryName(d)| then EntryName(d)[k] else 0
  {
    var name, src := EntryName(d), NameInMemory(d);
    if |name| < NAME_SIZE {
      assert src[..|name|] == name && src[|name|] == 0;
      UpToNulIs(src, |name|);
    } else {
      assert src[..NAME_SIZE] == name;
      UpToNulReaches(src, NAME_SIZE);
      assert UpToNul(src)[k] == src[k] == name[k];
    }
  }

  /** The test of the last byte, and strlen. */
  method MeasureWindow(buf: array<Byte>, at: nat, ghost w: Window) returns (n: nat)
    requires at + NAME_SIZE <= buf.Length && buf[at..at + NAME_SIZE] == w
    ensures n == ReportedLength(w) && at + n <= buf.Length && buf[at..at + n] == w[..n]
  {
    assert forall k :: 0 <= k < |w| ==> w[k] == buf[at + k];
    if buf[at + NAME_SIZE - 1] != 0 {
      assert w[NAME_SIZE - 1] == buf[at + NAME_SIZE - 1];
      n := NAME_SIZE;
    } else {
      assert w[NAME_SIZE - 1] == 0;
      n := 0;
      while buf[at + n] != 0
        invariant n < NAME_SIZE && 0 !in w[..n]
        decreases NAME_SIZE - n
      {
        assert w[n] == buf[at + n];
        assert w[..n + 1] == w[..n] + [w[n]];
        n := n + 1;
      }
      assert w[n] == buf[at + n];
      UpToNulIs(w, n);
    }
    assert buf[at..at + n] == buf[at..at + NAME_SIZE][..n];
  }

  /** The window at an address, if there is one. */
  function WindowAt(memory: seq<Byte>, at: nat): Window {
    if at + NAME_SIZE <= |memory| then memory[at..at + NAME_SIZE] else seq(NAME_SIZE, _ => 0)
  }

  class Process {
    const base: nat
    const fds: array<FileInfo>

    ghost predicate Valid()
      reads fds
    {
      && fds.Length == MAX_FD
      && forall i :: 0 <= i < MAX_FD ==> fds[i].flags <= 1 && (fds[i].flags == 1 ==> fds[i].ops != NoOps)
    }

    ghost function View(): (files: Files)
      requires Valid()
      reads fds
      ensures |files| == MAX_FD && forall i :: 0 <= i < MAX_FD ==> files[i] == FileOf(base, fds[i])
    {
      seq(MAX_FD, i requires 0 <= i < MAX_FD reads fds => FileOf(base, fds[i]))
    }

    constructor (inodes: nat)
      ensures Valid() && fresh(fds) && base == inodes && View() == FRESH
    {
      base := inodes;
      fds := new FileInfo[MAX_FD](_ => FileInfo(NoOps, 0, 0, 0));
      new;
      Reset();
    }

    /** The descriptors of a process that execute starts, by clear_fd_array and the two standard
        streams, whatever the array held before. */
    method Reset()
      requires fds.Length == MAX_FD
      modifies fds
      ensures Valid() && View() == FRESH
    {
      fds[0] := FileInfo(TerminalOps, 0, 0, 1);
      fds[1] := FileInfo(TerminalOps, 0, 0, 1);
      for i := MIN_FD to MAX_FD
        invariant fds[0] == fds[1] == FileInfo(TerminalOps, 0, 0, 1)
        invariant forall k :: MIN_FD <= k < i ==> fds[k] == FileInfo(NoOps, 0, 0, 0)
      {
        fds[i] := FileInfo(NoOps, 0, 0, 0);
      }
    }

    method OpenFile(img: Image, name: seq<Byte>) returns (fd: int)
      requires Valid() && ImageOk(img) && 0 in name
      modifies fds
      ensures Valid() && fd == Answer(img, old(View()), Open(name)).code
      ensures View() == Next(img, base, old(View()), Open(name))
    {
      var entry := ReadDentryByName(img, name);
      if entry.None? {
        return FAILURE;
      }
      var i := MIN_FD;
      while i < MAX_FD && fds[i].flags == 1
        invariant MIN_FD <= i <= MAX_FD
        invariant forall k :: MIN_FD <= k < i ==> fds[k].flags == 1
      {
        i := i + 1;
      }
      assert i == LeastFree(View(), MIN_FD);
      if i == MAX_FD {
        return FAILURE;
      }
      var d := entry.value;
      var inode := if d.filetype != TYPE_REGULAR then 0 else InodePtr(base, |img.inodes|, d.inode);
      var ops := if d.filetype == TYPE_DEVICE then RtcOps
                 else if d.filetype == TYPE_DIRECTORY then DirectoryOps
                 else RegularOps;
      fds[i] := FileInfo(ops, inode, 0, 1);
      return i;
    }

    method CloseFile(img: Image, fd: int) returns (code: int)
      requires Valid() && ImageOk(img)
      modifies fds
      ensures Valid() && code == Answer(img, old(View()), Close(fd)).code
      ensures View() == Next(img, base, old(View()), Close(fd))
      ensures code == if MIN_FD <= fd < MAX_FD && old(View())[fd].Some? then 0 else FAILURE
      ensures View() == if code == 0 then old(View())[fd := None] else old(View())
    {
      if fd < MIN_FD || fd >= MAX_FD || fds[fd].flags == 0 {
        return FAILURE;
      }
      fds[fd] := fds[fd].(flags := 0);
      return 0;
    }

    /** The reply to a read whose buffer holds this window. */
    ghost function ReadReply(img: Image, files: Files, fd: int, nbytes: int, buf: Window): Reply
      requires ImageOk(img) && |files| == MAX_FD
    {
      Answer(img, files, Read(fd, nbytes, buf))
    }

    /** read_file, into user memory at an address with room for what is left of the file. */
    method ReadFile(img: Image, fd: nat, buf: array<Byte>, at: nat, nbytes: int, ghost w: Window) returns (code: int)
      requires Valid() && ImageOk(img) && InUse(View(), fd) && View()[fd].value.Regular?
      requires at + Available(img, View()[fd].value.inode, View()[fd].value.position, nbytes % WORD) <= buf.Length
      modifies fds, buf
      ensures Valid() && code == ReadReply(img, old(View()), fd, nbytes, w).code
      ensures View() == Next(img, base, old(View()), Read(fd, nbytes, w))
      ensures code > 0 ==> at + code <= buf.Length
      ensures code > 0 ==> buf[at..at + code] == ReadReply(img, old(View()), fd, nbytes, w).data
    {
      var position := fds[fd].position;
      var number := InodeNumber(base, fds[fd].inode);
      code := ReadData(img, number, position, buf, at, nbytes % WORD);
      if code > 0 {
        fds[fd] := fds[fd].(position := position + code);
      }
    }

    /** read_directory, into user memory with room for the bytes asked for and for the 32 that are
        measured. */
    method ReadDirectory(img: Image, fd: nat, buf: array<Byte>, at: nat, nbytes: int) returns (code: int)
      requires Valid() && ImageOk(img) && InUse(View(), fd) && View()[fd].value.Directory?
      requires at + NAME_SIZE <= buf.Length && at + nbytes % WORD <= buf.Length
      modifies fds, buf
      ensures Valid() && code == ReadReply(img, old(View()), fd, nbytes, old(buf[at..at + NAME_SIZE])).code
      ensures View() == Next(img, base, old(View()), Read(fd, nbytes, old(buf[at..at + NAME_SIZE])))
      ensures code > 0 ==> at + code <= buf.Length
      ensures code > 0 ==>
                buf[at..at + code] == ReadReply(img, old(View()), fd, nbytes, old(buf[at..at + NAME_SIZE])).data
    {
      var next := fds[fd].position;
      if next >= |img.entries| {
        return 0;
      }
      var d := img.entries[next];
      CopyOver(buf, at, d, nbytes % WORD);
      fds[fd] := fds[fd].(position := next + 1);
      code := MeasureWindow(buf, at, Overlaid(EntryName(d), nbytes % WORD, old(buf[at..at + NAME_SIZE])));
    }

    /** The read system call. The reads of the terminal and the clock are their drivers' own; driver
        is what such a read returns. */
    method ReadCall(img: Image, fd: int, buf: array<Byte>, at: nat, nbytes: int, driver: int) returns (code: int)
      requires Valid() && ImageOk(img)
      requires InUse(View(), fd) ==> match View()[fd].value
               case Regular(inode, position) => at + Available(img, inode, position, nbytes % WORD) <= buf.Length
               case Directory(_) => at + NAME_SIZE <= buf.Length && at + nbytes % WORD <= buf.Length
               case _ => true
      modifies fds, buf
      ensures Valid()
      ensures View() == Next(img, base, old(View()), Read(fd, nbytes, WindowAt(old(buf[..]), at)))
      ensures if InUse(old(View()), fd) && (old(View())[fd].value == Terminal || old(View())[fd].value == Rtc)
              then code == driver && buf[..] == old(buf[..])
              else var reply := ReadReply(img, old(View()), fd, nbytes, WindowAt(old(buf[..]), at));
                   code == reply.code &&
                   (code > 0 ==> (at + code <= buf.Length && buf[at..at + code] == reply.data))
    {
      assert at + NAME_SIZE <= buf.Length ==> WindowAt(buf[..], at) == buf[at..at + NAME_SIZE];
      if fd >= MAX_FD || fd < 0 || fds[fd].flags == 0 {
        return FAILURE;
      }
      match fds[fd].ops
      case RegularOps => code := ReadFile(img, fd, buf, at, nbytes, WindowAt(buf[..], at));
      case DirectoryOps => code := ReadDirectory(img, fd, buf, at, nbytes);
      case _ => code := driver;
    }
  }

  /** The copy of a name into a user's buffer, seen through the 32 bytes that are measured. */
  method CopyOver(buf: array<Byte>, at: nat, d: Dentry, n: nat)
    requires |d.filename| == NAME_SIZE && d.filetype <= TYPE_REGULAR
    requires at + NAME_SIZE <= buf.Length && at + n <= buf.Length
    modifies buf
    ensures buf[at..at + NAME_SIZE] == Overlaid(EntryName(d), n, old(buf[at..at + NAME_SIZE]))
  {
    ghost var was := buf[..];
    StrNCpy(buf, at, NameInMemory(d), n);
    ghost var now, goal := buf[at..at + NAME_SIZE], Overlaid(EntryName(d), n, was[at..at + NAME_SIZE]);
    forall k | 0 <= k < NAME_SIZE
      ensures now[k] == goal[k]
    {
      if k < n {
        CopiedName(d, n, k);
        assert buf[at..at + n][k] == buf[at + k];
      } else {
        assert buf[at + n..][k - n] == was[at + n..][k - n];
      }
    }
    assert was[at..at + NAME_SIZE] == old(buf[at..at + NAME_SIZE]);
  }
}
