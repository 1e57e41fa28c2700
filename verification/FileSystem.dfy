/** The read-only file system (filesystem.c): an image of directory entries, inodes and 4KB
    data blocks, whose byte-by-byte block walk is proved to read a flat file. */
module FileSystem {
  import opened Bytes

  const BLOCK := 4096
  const NAME_SIZE := 32
  const MAX_BLOCKS := 1023
  const MAX_ENTRIES := 63

  const TYPE_DEVICE := 0
  const TYPE_DIRECTORY := 1
  const TYPE_REGULAR := 2

  const FAILURE := -1

  datatype Dentry = Dentry(filename: seq<Byte>, filetype: nat, inode: nat)

  datatype Inode = Inode(length: nat, blockNumbers: seq<nat>)

  datatype Image = Image(entries: seq<Dentry>, inodes: seq<Inode>, blocks: seq<seq<Byte>>)

  ghost predicate ImageOk(img: Image) {
    && |img.entries| <= MAX_ENTRIES
    && |img.inodes| < 0x8000_0000
    && (forall i :: 0 <= i < |img.entries| ==>
          |img.entries[i].filename| == NAME_SIZE && img.entries[i].filetype <= TYPE_REGULAR)
    && (forall i :: 0 <= i < |img.inodes| ==>
          |img.inodes[i].blockNumbers| == MAX_BLOCKS && img.inodes[i].length <= MAX_BLOCKS * BLOCK)
    && (forall i :: 0 <= i < |img.blocks| ==> |img.blocks[i]| == BLOCK)
  }

  function Min(a: int, b: int): int {
    if a < b then a else b
  }

  // ---------------------------------------------------------------------------------------
  // The flat file
  // ---------------------------------------------------------------------------------------

  /** The range check on a block number read into a signed int. */
  predicate BlockOk(img: Image, number: nat) {
    number < 0x8000_0000 && number < |img.blocks|
  }

  function ByteAt(img: Image, node: Inode, i: nat): Byte
    requires |node.blockNumbers| == MAX_BLOCKS
  {
    if i / BLOCK < MAX_BLOCKS && BlockOk(img, node.blockNumbers[i / BLOCK])
       && i % BLOCK < |img.blocks[node.blockNumbers[i / BLOCK]]|
    then img.blocks[node.blockNumbers[i / BLOCK]][i % BLOCK]
    else 0
  }

  /** The bytes of a file, in order, with no blocks in sight. */
  function FlatFile(img: Image, inode: nat): (f: seq<Byte>)
    requires inode < |img.inodes| && |img.inodes[inode].blockNumbers| == MAX_BLOCKS
    ensures |f| == img.inodes[inode].length
  {
    seq(img.inodes[inode].length, i requires 0 <= i => ByteAt(img, img.inodes[inode], i))
  }

  /** How many bytes a read can deliver. */
  function Available(img: Image, inode: nat, offset: nat, length: nat): (n: nat)
    ensures n <= length
  {
    if inode < |img.inodes| && offset < img.inodes[inode].length
    then Min(length, img.inodes[inode].length - offset)
    else 0
  }

  /** The last block the walk to position p has stepped to: the step is deferred, so standing
      exactly on a block boundary still counts as the block before it. */
  function BlockWalked(p: nat): nat {
    if p == 0 then 0 else (p - 1) / BLOCK
  }

  /** Every block of a file up to the given one is in range. */
  ghost predicate BlocksOk(img: Image, inode: nat, last: nat)
    requires ImageOk(img) && inode < |img.inodes|
  {
    last < MAX_BLOCKS && forall k :: 0 <= k <= last ==> BlockOk(img, img.inodes[inode].blockNumbers[k])
  }

  /** When a read succeeds: the inode is in range, the first block is (even for an empty
      file), and so is every block walked on the way to the last byte delivered. */
  ghost predicate ReadOk(img: Image, inode: nat, offset: nat, length: nat)
    requires ImageOk(img)
  {
    && inode < |img.inodes|
    && BlockOk(img, img.inodes[inode].blockNumbers[0])
    && (offset < img.inodes[inode].length ==>
          BlocksOk(img, inode, BlockWalked(offset + Available(img, inode, offset, length))))
  }

  /** What the destination holds after n bytes of the file from offset were copied to it. */
  ghost predicate Delivered(img: Image, inode: nat, offset: nat, before: seq<Byte>, after: seq<Byte>,
                            at: nat, n: nat)
    requires ImageOk(img) && inode < |img.inodes|
  {
    && offset + n <= img.inodes[inode].length
    && |after| == |before| && at + n <= |after|
    && after[..at] == before[..at]
    && after[at..at + n] == FlatFile(img, inode)[offset..offset + n]
    && after[at + n..] == before[at + n..]
  }

  /** How many blocks come before the first one out of range. */
  function GoodBlocks(img: Image, numbers: seq<nat>): (k: nat)
    ensures k <= |numbers| && (k < |numbers| ==> !BlockOk(img, numbers[k]))
    ensures forall j :: 0 <= j < k ==> BlockOk(img, numbers[j])
  {
    if numbers == [] || !BlockOk(img, numbers[0]) then 0 else 1 + GoodBlocks(img, numbers[1..])
  }

  /** How many bytes a read copies, whether or not it then fails: what is available, up to the first
      block out of range. */
  function CopiedBytes(img: Image, inode: nat, offset: nat, length: nat): (n: nat)
    ensures n <= Available(img, inode, offset, length)
  {
    if inode >= |img.inodes| then 0
    else
      var good := GoodBlocks(img, img.inodes[inode].blockNumbers) * BLOCK;
      if good <= offset then 0 else Min(Available(img, inode, offset, length), good - offset)
  }

  /** The destination after a read. */
  ghost predicate Filled(img: Image, inode: nat, offset: nat, before: seq<Byte>, after: seq<Byte>, at: nat, length: nat)
    requires ImageOk(img)
  {
    var n := CopiedBytes(img, inode, offset, length);
    if n == 0 then after == before else Delivered(img, inode, offset, before, after, at, n)
  }

  lemma GoodBlocksIs(img: Image, numbers: seq<nat>, k: nat)
    requires k < |numbers| && !BlockOk(img, numbers[k]) && forall j :: 0 <= j < k ==> BlockOk(img, numbers[j])
    ensures GoodBlocks(img, numbers) == k
  {
  }

  /** A read that succeeds copies all that is available. */
  lemma OkCopiesAll(img: Image, inode: nat, offset: nat, length: nat)
    requires ImageOk(img) && ReadOk(img, inode, offset, length)
    ensures CopiedBytes(img, inode, offset, length) == Available(img, inode, offset, length)
  {
    if offset < img.inodes[inode].length {
      var last := BlockWalked(offset + Available(img, inode, offset, length));
      var good := GoodBlocks(img, img.inodes[inode].blockNumbers);
      assert good > last;
      assert good * BLOCK >= (last + 1) * BLOCK;
    }
  }

  /** A read that fails stops at the first block out of range, unless nothing was asked of a bad first
      block. */
  lemma FailureStopsEarly(img: Image, inode: nat, offset: nat, length: nat)
    requires ImageOk(img) && inode < |img.inodes| && !ReadOk(img, inode, offset, length)
    requires Available(img, inode, offset, length) > 0
    ensures CopiedBytes(img, inode, offset, length) < Available(img, inode, offset, length)
  {
    var last := BlockWalked(offset + Available(img, inode, offset, length));
    var good := GoodBlocks(img, img.inodes[inode].blockNumbers);
    assert last < MAX_BLOCKS;
    assert good <= last;
    assert good * BLOCK <= last * BLOCK;
  }

  /** Data blocks one behind the other. */
  ghost function Joined(img: Image, numbers: seq<nat>): (r: seq<Byte>)
    requires ImageOk(img) && forall j :: 0 <= j < |numbers| ==> BlockOk(img, numbers[j])
    ensures |r| == |numbers| * BLOCK
  {
    if numbers == [] then []
    else
      var last := numbers[|numbers| - 1];
      assert BlockOk(img, last);
      Joined(img, numbers[..|numbers| - 1]) + img.blocks[last]
  }

  lemma {:induction false} JoinedAt(img: Image, numbers: seq<nat>, i: nat)
    requires ImageOk(img) && (forall j :: 0 <= j < |numbers| ==> BlockOk(img, numbers[j])) && i < |numbers| * BLOCK
    ensures i / BLOCK < |numbers| && BlockOk(img, numbers[i / BLOCK])
    ensures Joined(img, numbers)[i] == img.blocks[numbers[i / BLOCK]][i % BLOCK]
    decreases |numbers|
  {
    var n := |numbers| - 1;
    if i < n * BLOCK {
      JoinedAt(img, numbers[..n], i);
    } else {
      assert i / BLOCK == n && i % BLOCK == i - n * BLOCK;
    }
  }

  /** A file is its data blocks one behind the other, cut to its length. */
  lemma FlatIsJoined(img: Image, inode: nat, k: nat)
    requires ImageOk(img) && inode < |img.inodes| && k <= MAX_BLOCKS
    requires forall j :: 0 <= j < k ==> BlockOk(img, img.inodes[inode].blockNumbers[j])
    requires img.inodes[inode].length <= k * BLOCK
    ensures FlatFile(img, inode) == Joined(img, img.inodes[inode].blockNumbers[..k])[..img.inodes[inode].length]
  {
    var f, all := FlatFile(img, inode), Joined(img, img.inodes[inode].blockNumbers[..k]);
    forall i | 0 <= i < |f|
      ensures f[i] == all[i]
    {
      JoinedAt(img, img.inodes[inode].blockNumbers[..k], i);
    }
  }

  /** A read succeeds exactly when the inode and the first block are in range, and with them, if it starts
      inside the file, the block of every byte before the end of the read. */
  lemma ReadOkExact(img: Image, inode: nat, offset: nat, length: nat)
    requires ImageOk(img)
    ensures ReadOk(img, inode, offset, length) <==>
            && inode < |img.inodes| && BlockOk(img, img.inodes[inode].blockNumbers[0])
            && (offset < img.inodes[inode].length ==>
                  var end := if offset + length < img.inodes[inode].length then offset + length
                             else img.inodes[inode].length;
                  forall k :: 0 <= k < MAX_BLOCKS && k * 4096 < end ==>
                    BlockOk(img, img.inodes[inode].blockNumbers[k]))
  {
    if inode < |img.inodes| && offset < img.inodes[inode].length {
      var end := if offset + length < img.inodes[inode].length then offset + length else img.inodes[inode].length;
      assert end == offset + Available(img, inode, offset, length);
      forall k | 0 <= k < MAX_BLOCKS
        ensures k <= BlockWalked(end) <==> k == 0 || k * 4096 < end
      {
        WalkedIs(end, k);
      }
      assert BlockWalked(end) < MAX_BLOCKS;
    }
  }

  lemma WalkedIs(end: nat, k: nat)
    ensures k <= BlockWalked(end) <==> k == 0 || k * 4096 < end
  {
  }

  /** The walk so far: standing at position p in the given block of the file, at index k
      within it, with every block up to there in range. */
  ghost predicate Standing(img: Image, inode: nat, p: nat, index: nat, k: nat)
    requires ImageOk(img) && inode < |img.inodes|
  {
    && index == BlockWalked(p) && index < MAX_BLOCKS && p == index * BLOCK + k
    && BlocksOk(img, inode, index)
  }

  /** First loop of read_data: reach the offset one byte at a time, stepping to the next
      block only on leaving one. */
  method Seek(img: Image, inode: nat, offset: nat) returns (ok: bool, index: nat, j: nat)
    requires ImageOk(img) && inode < |img.inodes| && offset < img.inodes[inode].length
    requires BlockOk(img, img.inodes[inode].blockNumbers[0])
    ensures ok ==> Standing(img, inode, offset, index, j)
    ensures !ok ==> 0 <= index <= BlockWalked(offset) && !BlockOk(img, img.inodes[inode].blockNumbers[index])
  {
    var numbers := img.inodes[inode].blockNumbers;
    var i := 0;
    index, j := 0, 0;
    while i != offset
      invariant 0 <= i <= offset
      invariant Standing(img, inode, i, index, j)
      decreases offset - i
    {
      if i != 0 && i % BLOCK == 0 {
        index := index + 1;
        if numbers[index] >= 0x8000_0000 || numbers[index] >= |img.blocks| {
          return false, index, 0;
        }
        j := 0;
      }
      i := i + 1;
      j := j + 1;
    }
    return true, index, j;
  }

  /** Second loop of read_data: copy bytes, stepping blocks as they run out. */
  method Copy(img: Image, inode: nat, offset: nat, start: nat, j: nat, buf: array<Byte>, at: nat, length: nat)
    returns (ok: bool, i: nat, index: nat)
    requires ImageOk(img) && inode < |img.inodes| && offset < img.inodes[inode].length
    requires Standing(img, inode, offset, start, j)
    requires at + Available(img, inode, offset, length) <= buf.Length
    modifies buf
    ensures i <= Available(img, inode, offset, length)
    ensures Delivered(img, inode, offset, old(buf[..]), buf[..], at, i)
    ensures ok ==> i == Available(img, inode, offset, length) && BlocksOk(img, inode, BlockWalked(offset + i))
    ensures !ok ==> 0 < index <= BlockWalked(offset + Available(img, inode, offset, length)) &&
                    index < MAX_BLOCKS && !BlockOk(img, img.inodes[inode].blockNumbers[index])
    ensures !ok ==> BlocksOk(img, inode, index - 1) && offset + i == index * BLOCK
  {
    var node := img.inodes[inode];
    ghost var was := buf[..];
    index := start;
    i := 0;
    var k: nat := j;
    var position := offset;
    while i < length && position < node.length
      invariant i <= Available(img, inode, offset, length) && position == offset + i
      invariant Standing(img, inode, offset + i, index, k)
      invariant Delivered(img, inode, offset, was, buf[..], at, i)
    {
      if k != 0 && k % BLOCK == 0 {
        StepsWithin(img, inode, offset, length, i, index, k);
        index := index + 1;
        if node.blockNumbers[index] >= 0x8000_0000 || node.blockNumbers[index] >= |img.blocks| {
          return false, i, index;
        }
        k := 0;
      }
      CopyStep(img, inode, offset, was, buf[..], at, i, index, k);
      buf[at + i] := img.blocks[node.blockNumbers[index]][k];
      i := i + 1;
      k := k + 1;
      position := position + 1;
    }
    return true, i, index;
  }

  /** read_data, writing at an index of the destination memory: it fails exactly when a block
      it walks is out of range, and otherwise delivers a slice of the flat file. */
  method ReadData(img: Image, inode: nat, offset: nat, buf: array<Byte>, at: nat, length: nat)
    returns (r: int)
    requires ImageOk(img)
    requires at + Available(img, inode, offset, length) <= buf.Length
    modifies buf
    ensures r == FAILURE || r == Available(img, inode, offset, length)
    ensures r != FAILURE <==> ReadOk(img, inode, offset, length)
    ensures r != FAILURE ==> r == CopiedBytes(img, inode, offset, length)
    ensures Filled(img, inode, offset, old(buf[..]), buf[..], at, length)
  {
    if ReadOk(img, inode, offset, length) {
      OkCopiesAll(img, inode, offset, length);
    }
    if inode >= |img.inodes| {
      return FAILURE;
    }
    var node := img.inodes[inode];
    var blockNumber := node.blockNumbers[0];
    if blockNumber >= 0x8000_0000 || blockNumber >= |img.blocks| {
      return FAILURE;
    }
    if offset >= node.length {
      return 0;
    }
    var ok, index, j := Seek(img, inode, offset);
    if !ok {
      SeekStops(img, inode, offset, length, index);
      return FAILURE;
    }
    var n;
    ok, n, index := Copy(img, inode, offset, index, j, buf, at, length);
    if n == 0 {
      NothingDelivered(img, inode, offset, old(buf[..]), buf[..], at);
    }
    if !ok {
      CopyStops(img, inode, offset, length, index, n);
      return FAILURE;
    }
    return n;
  }

  /** A bad block on the way to the offset: nothing is copied. */
  lemma SeekStops(img: Image, inode: nat, offset: nat, length: nat, index: nat)
    requires ImageOk(img) && inode < |img.inodes|
    requires index <= BlockWalked(offset) && index < MAX_BLOCKS
    requires !BlockOk(img, img.inodes[inode].blockNumbers[index])
    ensures CopiedBytes(img, inode, offset, length) == 0
  {
    var good := GoodBlocks(img, img.inodes[inode].blockNumbers);
    assert good <= index;
    assert good * BLOCK <= index * BLOCK <= offset;
  }

  lemma CopyStops(img: Image, inode: nat, offset: nat, length: nat, index: nat, n: nat)
    requires ImageOk(img) && inode < |img.inodes| && 0 < index < MAX_BLOCKS && BlocksOk(img, inode, index - 1)
    requires !BlockOk(img, img.inodes[inode].blockNumbers[index])
    requires offset + n == index * BLOCK && n <= Available(img, inode, offset, length)
    ensures CopiedBytes(img, inode, offset, length) == n
  {
    GoodBlocksIs(img, img.inodes[inode].blockNumbers, index);
  }

  lemma NothingDelivered(img: Image, inode: nat, offset: nat, before: seq<Byte>, after: seq<Byte>, at: nat)
    requires ImageOk(img) && inode < |img.inodes|
    requires Delivered(img, inode, offset, before, after, at, 0)
    ensures after == before
  {
    assert after == after[..at] + after[at..];
    assert before == before[..at] + before[at..];
  }

  /** Stepping to the next block while bytes remain stays within the blocks of the read. */
  lemma StepsWithin(img: Image, inode: nat, offset: nat, length: nat, i: nat, index: nat, k: nat)
    requires ImageOk(img) && inode < |img.inodes| && offset + i < img.inodes[inode].length && i < length
    requires Standing(img, inode, offset + i, index, k) && k != 0 && k % BLOCK == 0
    ensures k == BLOCK && index + 1 < MAX_BLOCKS
    ensures index + 1 <= BlockWalked(offset + Available(img, inode, offset, length))
    ensures BlockWalked(offset + i + 1) == index + 1
  {
  }

  /** One more byte copied from its block extends the delivered piece of the flat file. */
  lemma CopyStep(img: Image, inode: nat, offset: nat, before: seq<Byte>, now: seq<Byte>, at: nat, i: nat,
                 index: nat, k: nat)
    requires ImageOk(img) && inode < |img.inodes|
    requires Delivered(img, inode, offset, before, now, at, i)
    requires offset + i < img.inodes[inode].length && at + i < |now|
    requires k < BLOCK && offset + i == index * BLOCK + k && index < MAX_BLOCKS
    requires BlockOk(img, img.inodes[inode].blockNumbers[index])
    ensures Delivered(img, inode, offset, before,
                      now[at + i := img.blocks[img.inodes[inode].blockNumbers[index]][k]], at, i + 1)
  {
    var b := img.blocks[img.inodes[inode].blockNumbers[index]][k];
    var next := now[at + i := b];
    var f := FlatFile(img, inode);
    assert (offset + i) / BLOCK == index && (offset + i) % BLOCK == k;
    assert f[offset + i] == b;
    assert next[at..at + i + 1] == now[at..at + i] + [b];
    assert f[offset..offset + i + 1] == f[offset..offset + i] + [f[offset + i]];
    assert next[at + i + 1..] == now[at + i..][1..];
    assert before[at + i + 1..] == before[at + i..][1..];
  }

  // ---------------------------------------------------------------------------------------
  // Names
  // ---------------------------------------------------------------------------------------

  /** The name of an entry: its 32 bytes up to a NUL. */
  function EntryName(d: Dentry): seq<Byte> {
    UpToNul(d.filename)
  }

  /** The part of a string that a 32-byte comparison looks at. */
  function Truncated(s: seq<Byte>): seq<Byte> {
    if |s| > NAME_SIZE then s[..NAME_SIZE] else s
  }

  /** Whether strncmp over 32 bytes calls two strings equal, stated without the loop. */
  predicate SameName(name: seq<Byte>, d: Dentry) {
    Truncated(UpToNul(name)) == EntryName(d)
  }

  lemma Terminated(name: seq<Byte>)
    requires 0 in name
    ensures |UpToNul(name)| < |name| && name[|UpToNul(name)|] == 0
    ensures UpToNul(name) == name[..|UpToNul(name)|]
  {
  }

  /** strncmp(name, filename, 32) == 0, for a NUL-terminated name. */
  method CompareName(name: seq<Byte>, d: Dentry) returns (equal: bool)
    requires 0 in name && |d.filename| == NAME_SIZE
    ensures equal == SameName(name, d)
  {
    ghost var n := |UpToNul(name)|;
    Terminated(name);
    for i := 0 to NAME_SIZE
      invariant i <= n
      invariant name[..i] == d.filename[..i]
    {
      assert name[..i] <= UpToNul(name);
      if name[i] != d.filename[i] {
        Differ(name, d, i);
        return false;
      }
      if name[i] == 0 {
        AgreeToTheEnd(name, d, i);
        return true;
      }
      assert name[..i + 1] == name[..i] + [name[i]];
      assert d.filename[..i + 1] == d.filename[..i] + [d.filename[i]];
    }
    AgreeOnAll(name, d);
    return true;
  }

  lemma AgreeToTheEnd(name: seq<Byte>, d: Dentry, i: nat)
    requires i < |name| && i < |d.filename| == NAME_SIZE
    requires name[..i] == d.filename[..i] && 0 !in name[..i] && name[i] == 0 && d.filename[i] == 0
    ensures SameName(name, d)
  {
    UpToNulIs(name, i);
    UpToNulIs(d.filename, i);
  }

  lemma AgreeOnAll(name: seq<Byte>, d: Dentry)
    requires NAME_SIZE <= |UpToNul(name)| && |d.filename| == NAME_SIZE
    requires name[..NAME_SIZE] == d.filename[..NAME_SIZE]
    ensures SameName(name, d)
  {
    assert d.filename[..NAME_SIZE] == d.filename;
    assert UpToNul(name)[..NAME_SIZE] == name[..NAME_SIZE];
    UpToNulIs(d.filename, NAME_SIZE);
  }

  /** A first difference within 32 bytes means different names. */
  lemma Differ(name: seq<Byte>, d: Dentry, i: nat)
    requires 0 in name && |d.filename| == NAME_SIZE && i < NAME_SIZE && i < |name|
    requires name[..i] == d.filename[..i] && 0 !in name[..i] && name[i] != d.filename[i]
    ensures !SameName(name, d)
  {
    var r, e := UpToNul(name), EntryName(d);
    if name[i] == 0 {
      UpToNulIs(name, i);
      assert |e| >= i && |e| != i;
    } else {
      assert |r| >= i && |r| != i;
      assert Truncated(r)[i] == name[i];
    }
  }

  /** A string and an entry's 32 bytes agree up to n, where both end, or which is the last of the 32. */
  ghost predicate AgreesTo(name: seq<Byte>, d: Dentry, n: nat) {
    && n <= 32 && n <= |name| && |d.filename| == 32
    && (forall k :: 0 <= k < n ==> name[k] == d.filename[k] != 0)
    && (n < 32 ==> n < |name| && name[n] == d.filename[n] == 0)
  }

  lemma SameAgrees(name: seq<Byte>, d: Dentry)
    requires 0 in name && |d.filename| == NAME_SIZE && SameName(name, d)
    ensures AgreesTo(name, d, |EntryName(d)|)
  {
    Terminated(name);
    assert EntryName(d) <= UpToNul(name);
  }

  lemma AgreesSame(name: seq<Byte>, d: Dentry, n: nat)
    requires 0 in name && AgreesTo(name, d, n)
    ensures SameName(name, d)
  {
    assert name[..n] == d.filename[..n];
    if n < NAME_SIZE {
      AgreeToTheEnd(name, d, n);
    } else {
      UpToNulReaches(name, n);
      AgreeOnAll(name, d);
    }
  }

  /** Names are equal exactly when the strings agree byte by byte to a common end or to the 32nd byte. */
  lemma SameNameExact(name: seq<Byte>, d: Dentry)
    requires 0 in name && |d.filename| == NAME_SIZE
    ensures SameName(name, d) <==> exists n: nat :: AgreesTo(name, d, n)
  {
    if SameName(name, d) {
      SameAgrees(name, d);
    } else if exists n: nat :: AgreesTo(name, d, n) {
      var n: nat :| AgreesTo(name, d, n);
      AgreesSame(name, d, n);
    }
  }

  /** Index of the first entry with the given name, or the number of entries. */
  function FirstNamed(entries: seq<Dentry>, name: seq<Byte>): (i: nat)
    ensures i <= |entries|
    ensures i < |entries| ==> SameName(name, entries[i])
    ensures forall k :: 0 <= k < i ==> !SameName(name, entries[k])
  {
    if entries == [] || SameName(name, entries[0]) then 0
    else 1 + FirstNamed(entries[1..], name)
  }

  lemma FirstIs(entries: seq<Dentry>, name: seq<Byte>, i: nat)
    requires i <= |entries| && (i < |entries| ==> SameName(name, entries[i]))
    requires forall k :: 0 <= k < i ==> !SameName(name, entries[k])
    ensures FirstNamed(entries, name) == i
  {
  }

  function Lookup(img: Image, name: seq<Byte>): Option<Dentry> {
    var i := FirstNamed(img.entries, name);
    if i < |img.entries| then Some(img.entries[i]) else None
  }

  /** None of the first n entries has the name. */
  ghost predicate NoneNamed(entries: seq<Dentry>, name: seq<Byte>, n: nat) {
    n <= |entries| && forall k :: 0 <= k < n ==> !SameName(name, entries[k])
  }

  lemma NamedNext(img: Image, name: seq<Byte>, i: nat, equal: bool)
    requires i < |img.entries| && NoneNamed(img.entries, name, i) && equal == SameName(name, img.entries[i])
    ensures if equal then Lookup(img, name) == Some(img.entries[i]) else NoneNamed(img.entries, name, i + 1)
  {
    if equal {
      FirstIs(img.entries, name, i);
    }
  }

  lemma NoneFound(img: Image, name: seq<Byte>)
    requires NoneNamed(img.entries, name, |img.entries|)
    ensures Lookup(img, name) == None
  {
    FirstIs(img.entries, name, |img.entries|);
  }

  /** read_dentry_by_name: a linear search for the first matching entry. */
  method ReadDentryByName(img: Image, name: seq<Byte>) returns (entry: Option<Dentry>)
    requires ImageOk(img) && 0 in name
    ensures entry == Lookup(img, name)
  {
    for i := 0 to |img.entries|
      invariant NoneNamed(img.entries, name, i)
    {
      var equal := CompareName(name, img.entries[i]);
      NamedNext(img, name, i, equal);
      if equal {
        return Some(img.entries[i]);
      }
    }
    NoneFound(img, name);
    return None;
  }
}
