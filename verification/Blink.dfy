/** The blinking characters of the fish program: an intrusive linked list (blink.S) whose nodes
    live in a static pool of slots (fish.c). A slot is free when its location field is zero. */
module Blink {
  import opened Bytes

  const SLOTS := 80 * 25

  type Word = x: int | 0 <= x < 0x1_0000
  type Long = x: int | 0 <= x < 0x1_0000_0000

  /** The fields of struct mp1_blink_struct other than the link. */
  datatype Entry = Entry(location: Word, onChar: Byte, offChar: Byte, onLength: Word, offLength: Word,
                         countdown: Word, status: Word)

  /** A pointer to a slot of the pool. */
  datatype Link = Null | At(slot: nat)

  datatype Slot = Slot(entry: Entry, next: Link)

  const ZERO_SLOT := Slot(Entry(0, 0, 0, 0, 0, 0, 0), Null)

  // ---------------------------------------------------------------------------------------
  // The simple view: a list of entries, newest first
  // ---------------------------------------------------------------------------------------

  /** Index of the newest entry at a location, or the length of the list. */
  function NewestAt(list: seq<Entry>, location: Word): (i: nat)
    ensures i <= |list| && (i < |list| ==> list[i].location == location)
    ensures forall j :: 0 <= j < i ==> list[j].location != location
  {
    if list == [] || list[0].location == location then 0 else 1 + NewestAt(list[1..], location)
  }

  /** The entry that add stores for the caller's structure: switched on, full countdown. */
  function Started(e: Entry): (r: Entry)
    ensures r.location == e.location && r.onChar == e.onChar && r.offChar == e.offChar
    ensures r.onLength == e.onLength && r.offLength == e.offLength && r.countdown == e.onLength && r.status == 1
  {
    e.(status := 1, countdown := e.onLength)
  }

  function RemoveNewest(list: seq<Entry>, location: Word): seq<Entry> {
    var i := NewestAt(list, location);
    if i < |list| then list[..i] + list[i + 1..] else list
  }

  /** The timing of one entry given to another, which keeps its place and its characters. */
  function Synced(to: Entry, from: Entry): (r: Entry)
    ensures r.location == to.location && r.onChar == to.onChar && r.offChar == to.offChar
    ensures r.onLength == from.onLength && r.offLength == from.offLength
    ensures r.countdown == from.countdown && r.status == from.status
  {
    to.(onLength := from.onLength, offLength := from.offLength,
        countdown := from.countdown, status := from.status)
  }

  function SyncLists(list: seq<Entry>, from: Word, to: Word): seq<Entry> {
    var i, j := NewestAt(list, from), NewestAt(list, to);
    if i < |list| && j < |list| then list[j := Synced(list[j], list[i])] else list
  }

  /** decw and the signed test that follows it: whether the decremented word is above zero. */
  function Decremented(w: Word): Word {
    if w == 0 then 0xFFFF else w - 1
  }

  predicate Positive(w: Word) {
    0 < w < 0x8000
  }

  function TickEntry(e: Entry): Entry {
    var c := Decremented(e.countdown);
    if Positive(c) then e.(countdown := c)
    else if e.status % 2 == 1 then e.(countdown := e.offLength, status := e.status - 1)
    else e.(countdown := e.onLength, status := e.status + 1)
  }

  function TickAll(list: seq<Entry>): (r: seq<Entry>)
    ensures |r| == |list| && forall i :: 0 <= i < |r| ==> r[i] == TickEntry(list[i])
  {
    seq(|list|, i requires 0 <= i < |list| => TickEntry(list[i]))
  }

  /** The commands of mp1_ioctl, and the clock. */
  datatype Command = Add(e: Entry) | Remove(arg: Long) | Find(location: Word) | Sync(arg: Long) | Tick

  /** Whether an add is refused, by its location or because the pool is full. */
  predicate Refused(list: seq<Entry>, e: Entry) {
    e.location >= SLOTS || |list| >= SLOTS
  }

  function Apply(list: seq<Entry>, c: Command): seq<Entry> {
    match c
    case Add(e) => if Refused(list, e) then list else [Started(e)] + list
    case Remove(arg) => RemoveNewest(list, arg % 0x1_0000)
    case Find(_) => list
    case Sync(arg) => SyncLists(list, arg / 0x1_0000, arg % 0x1_0000)
    case Tick => TickAll(list)
  }

  function ApplyAll(list: seq<Entry>, cs: seq<Command>): seq<Entry>
    decreases |cs|
  {
    if cs == [] then list else ApplyAll(Apply(list, cs[0]), cs[1..])
  }

  /** Remove, whose location is the low word of its argument, undoes the last add at that location, and no
      later add elsewhere matters. */
  lemma RemoveUndoesAdd(list: seq<Entry>, e: Entry, newer: seq<Entry>, high: Word)
    requires e.location < 2000 && |list| < 2000
    requires forall i :: 0 <= i < |newer| ==> newer[i].location != e.location
    ensures Apply(newer + Apply(list, Add(e)), Remove(high * 0x1_0000 + e.location)) == newer + list
  {
    LowWord(high, e.location);
    assert newer + Apply(list, Add(e)) == newer + [Started(e)] + list;
    RemovesBehind(list, Started(e), newer);
  }

  /** An add is refused exactly when its location is off the screen or the pool is full; otherwise the entry is
      the newest, switched on with a full countdown. */
  lemma AddExact(list: seq<Entry>, e: Entry)
    ensures var r := Apply(list, Add(e));
            if e.location < 2000 && |list| < 2000
            then |r| == |list| + 1 && r[1..] == list && r[0] == e.(status := 1, countdown := e.onLength)
            else r == list
  {
  }

  lemma LowWord(high: Word, low: Word)
    ensures (high * 0x1_0000 + low) % 0x1_0000 == low && 0 <= high * 0x1_0000 + low < 0x1_0000_0000
  {
  }

  lemma RemovesBehind(list: seq<Entry>, e: Entry, newer: seq<Entry>)
    requires forall i :: 0 <= i < |newer| ==> newer[i].location != e.location
    ensures RemoveNewest(newer + [e] + list, e.location) == newer + list
  {
    var whole := newer + [e] + list;
    assert whole[|newer|] == e;
    assert NewestAt(whole, e.location) == |newer|;
  }

  /** How many entries are at a location. */
  function CountAt(list: seq<Entry>, location: Word): nat {
    if list == [] then 0 else (if list[0].location == location then 1 else 0) + CountAt(list[1..], location)
  }

  lemma {:induction false} CountAppend(a: seq<Entry>, b: seq<Entry>, location: Word)
    ensures CountAt(a + b, location) == CountAt(a, location) + CountAt(b, location)
    decreases |a|
  {
    if a == [] {
      assert a + b == b;
    } else {
      assert (a + b)[1..] == a[1..] + b;
      CountAppend(a[1..], b, location);
    }
  }

  lemma {:induction false} NoneAt(list: seq<Entry>, location: Word)
    requires forall i :: 0 <= i < |list| ==> list[i].location != location
    ensures CountAt(list, location) == 0
    decreases |list|
  {
    if list != [] {
      NoneAt(list[1..], location);
    }
  }

  /** Remove takes one entry away at its location, if there is one, and none elsewhere. */
  lemma RemoveCounts(list: seq<Entry>, location: Word, other: Word)
    ensures CountAt(RemoveNewest(list, location), other) ==
            if other == location && CountAt(list, location) > 0 then CountAt(list, other) - 1
            else CountAt(list, other)
  {
    var i := NewestAt(list, location);
    if i < |list| {
      assert list == list[..i] + ([list[i]] + list[i + 1..]);
      CountAppend(list[..i], [list[i]] + list[i + 1..], other);
      CountAppend([list[i]], list[i + 1..], other);
      CountAppend(list[..i], list[i + 1..], other);
      assert CountAt([list[i]], other) == if other == location then 1 else 0;
    } else {
      NoneAt(list, location);
    }
  }

  // ---------------------------------------------------------------------------------------
  // Timing
  // ---------------------------------------------------------------------------------------

  function TickTimes(e: Entry, n: nat): Entry
    decreases n
  {
    if n == 0 then e else TickTimes(TickEntry(e), n - 1)
  }

  /** How many ticks a phase loaded with this length lasts: a zero length and one with the sign
      bit set (other than 0x8000 itself, which the decrement makes positive) last one tick. */
  function Phase(length: Word): nat {
    if 1 <= length <= 0x8000 then length else 1
  }

  function Toggled(e: Entry): Entry {
    if e.status % 2 == 1 then e.(countdown := e.offLength, status := e.status - 1)
    else e.(countdown := e.onLength, status := e.status + 1)
  }

  /** Until its phase is over an entry keeps its status; then it toggles. */
  lemma {:induction false} PhaseLasts(e: Entry, n: nat)
    requires n <= Phase(e.countdown)
    ensures TickTimes(e, n) == if n < Phase(e.countdown) then e.(countdown := e.countdown - n) else Toggled(e)
    decreases n
  {
    if n > 0 && Phase(e.countdown) > 1 {
      assert TickEntry(e) == e.(countdown := e.countdown - 1);
      PhaseLasts(TickEntry(e), n - 1);
    } else if n == 1 {
      assert TickTimes(e, 1) == TickTimes(TickEntry(e), 0) == Toggled(e);
    }
  }

  lemma {:induction false} TickTimesAdd(e: Entry, m: nat, n: nat)
    ensures TickTimes(e, m + n) == TickTimes(TickTimes(e, m), n)
    decreases m
  {
    if m > 0 {
      TickTimesAdd(TickEntry(e), m - 1, n);
    }
  }

  /** A started entry is on for its on phase, off for its off phase, and then as it started. */
  lemma {:induction false} BlinksForever(e: Entry, rounds: nat, n: nat)
    requires n < Phase(e.onLength) + Phase(e.offLength)
    ensures TickTimes(Started(e), rounds * (Phase(e.onLength) + Phase(e.offLength))) == Started(e)
    ensures TickTimes(Started(e), rounds * (Phase(e.onLength) + Phase(e.offLength)) + n).status
            == if n < Phase(e.onLength) then 1 else 0
    decreases rounds
  {
    var on, off := Phase(e.onLength), Phase(e.offLength);
    var s := Started(e);
    if rounds == 0 {
      if n < on {
        PhaseLasts(s, n);
      } else {
        PhaseLasts(s, on);
        PhaseLasts(Toggled(s), n - on);
        TickTimesAdd(s, on, n - on);
      }
    } else {
      BlinksForever(e, rounds - 1, n);
      PhaseLasts(s, on);
      PhaseLasts(Toggled(s), off);
      TickTimesAdd(s, on, off);
      OneRoundMore(rounds, on + off, n);
      TickTimesAdd(s, on + off, (rounds - 1) * (on + off));
      TickTimesAdd(s, on + off, (rounds - 1) * (on + off) + n);
    }
  }

  lemma OneRoundMore(rounds: nat, period: nat, n: nat)
    requires rounds > 0
    ensures (rounds - 1) * period >= 0
    ensures rounds * period == period + (rounds - 1) * period
    ensures rounds * period + n == period + ((rounds - 1) * period + n)
  {
  }

  /** Entries with the same timing stay in step. */
  lemma {:induction false} SameTiming(a: Entry, b: Entry, n: nat)
    requires a.onLength == b.onLength && a.offLength == b.offLength
    requires a.countdown == b.countdown && a.status == b.status
    ensures TickTimes(a, n).countdown == TickTimes(b, n).countdown && TickTimes(a, n).status == TickTimes(b, n).status
    decreases n
  {
    if n > 0 {
      SameTiming(TickEntry(a), TickEntry(b), n - 1);
    }
  }

  /** A sync of the newest entries at two locations, the source in the high word and the target in the low
      word: the target takes the source's timing and blinks in step with it from then on; nothing else
      changes. */
  lemma SyncBlinksInStep(list: seq<Entry>, from: Word, to: Word, n: nat)
    requires NewestAt(list, from) < |list| && NewestAt(list, to) < |list|
    ensures var i, j := NewestAt(list, from), NewestAt(list, to);
            var r := Apply(list, Sync(from * 0x1_0000 + to));
            && |r| == |list| && (forall k :: 0 <= k < |list| && k != j ==> r[k] == list[k])
            && r[j].location == to && r[j].onChar == list[j].onChar && r[j].offChar == list[j].offChar
            && r[j].onLength == list[i].onLength && r[j].offLength == list[i].offLength
            && TickTimes(r[j], n).status == TickTimes(list[i], n).status
            && TickTimes(r[j], n).countdown == TickTimes(list[i], n).countdown
  {
    var i, j := NewestAt(list, from), NewestAt(list, to);
    var r := Apply(list, Sync(from * 0x1_0000 + to));
    assert (from * 0x1_0000 + to) / 0x1_0000 == from && (from * 0x1_0000 + to) % 0x1_0000 == to;
    assert r == SyncLists(list, from, to);
    SameTiming(r[j], list[i], n);
  }

  // ---------------------------------------------------------------------------------------
  // The list in the pool
  // ---------------------------------------------------------------------------------------

  function LinkAt(nodes: seq<nat>, i: nat): Link {
    if i < |nodes| then At(nodes[i]) else Null
  }

  ghost predicate Linked(pool: seq<Slot>, nodes: seq<nat>, i: nat) {
    i < |nodes| && nodes[i] < |pool| && pool[nodes[i]].next == LinkAt(nodes, i + 1)
  }

  /** A slot is in use exactly when it is listed. */
  ghost predicate Tracked(pool: seq<Slot>, nodes: seq<nat>, k: nat) {
    k < |pool| && (k in nodes <==> pool[k].entry.location != 0)
  }

  ghost predicate NoDuplicates(nodes: seq<nat>) {
    forall i, j :: 0 <= i < j < |nodes| ==> nodes[i] != nodes[j]
  }

  /** The list from head visits exactly these slots, each once, and they are exactly the slots
      whose location is not zero. */
  ghost predicate Listed(pool: seq<Slot>, head: Link, nodes: seq<nat>) {
    && |pool| == SLOTS && head == LinkAt(nodes, 0) && NoDuplicates(nodes)
    && (forall i :: 0 <= i < |nodes| ==> Linked(pool, nodes, i))
    && (forall k :: 0 <= k < SLOTS ==> Tracked(pool, nodes, k))
    && (forall i :: 0 <= i < |nodes| ==> nodes[i] < SLOTS)
  }

  ghost function Contents(pool: seq<Slot>, nodes: seq<nat>): (list: seq<Entry>)
    requires forall i :: 0 <= i < |nodes| ==> nodes[i] < |pool|
    ensures |list| == |nodes| && forall i :: 0 <= i < |nodes| ==> list[i] == pool[nodes[i]].entry
  {
    seq(|nodes|, i requires 0 <= i < |nodes| => pool[nodes[i]].entry)
  }

  /** Pushing a free slot keeps the list intact exactly when the location is not zero. */
  lemma PushListed(pool: seq<Slot>, head: Link, nodes: seq<nat>, k: nat, e: Entry)
    requires Listed(pool, head, nodes) && k < SLOTS && pool[k].entry.location == 0
    ensures Listed(pool[k := Slot(e, head)], At(k), [k] + nodes) <==> e.location != 0
    ensures e.location != 0 ==> Contents(pool[k := Slot(e, head)], [k] + nodes) == [e] + Contents(pool, nodes)
  {
    var p, ns := pool[k := Slot(e, head)], [k] + nodes;
    assert Tracked(pool, nodes, k);
    assert k !in nodes && ns[0] == k;
    if e.location != 0 {
      forall i | 0 <= i < |ns|
        ensures Linked(p, ns, i)
      {
        assert i > 0 ==> Linked(pool, nodes, i - 1) && ns[i] == nodes[i - 1];
      }
      assert forall q :: q in ns <==> q == k || q in nodes;
      forall q | 0 <= q < SLOTS
        ensures Tracked(p, ns, q)
      {
        assert Tracked(pool, nodes, q);
      }
    } else {
      ZeroLocationBreaks(p, k, ns);
    }
  }

  /** An entry at location zero cannot be part of an intact list. */
  lemma ZeroLocationBreaks(pool: seq<Slot>, k: nat, nodes: seq<nat>)
    requires k < |pool| && pool[k].entry.location == 0
    ensures !Listed(pool, At(k), nodes)
  {
    assert LinkAt(nodes, 0) == At(k) ==> nodes[0] == k && k in nodes;
    assert !Tracked(pool, nodes, k) || k !in nodes;
  }

  /** Changing the timing of an entry in place. */
  lemma UpdateListed(pool: seq<Slot>, head: Link, nodes: seq<nat>, i: nat, e: Entry)
    requires Listed(pool, head, nodes) && i < |nodes| && nodes[i] < SLOTS
    requires e.location == pool[nodes[i]].entry.location
    ensures Listed(pool[nodes[i] := pool[nodes[i]].(entry := e)], head, nodes)
    ensures Contents(pool[nodes[i] := pool[nodes[i]].(entry := e)], nodes) == Contents(pool, nodes)[i := e]
  {
    var p := pool[nodes[i] := pool[nodes[i]].(entry := e)];
    assert forall j :: 0 <= j < |nodes| && j != i ==> nodes[j] != nodes[i];
    forall j | 0 <= j < |nodes|
      ensures Linked(p, nodes, j)
    {
      assert Linked(pool, nodes, j);
    }
    forall k | 0 <= k < SLOTS
      ensures Tracked(p, nodes, k)
    {
      assert Tracked(pool, nodes, k);
    }
  }

  function Without(nodes: seq<nat>, i: nat): seq<nat>
    requires i < |nodes|
  {
    nodes[..i] + nodes[i + 1..]
  }

  /** The pool after the node at position i is bypassed and its slot zeroed. */
  function Unlinked(pool: seq<Slot>, nodes: seq<nat>, i: nat): seq<Slot>
    requires i < |nodes| && nodes[i] < |pool| && (i > 0 ==> nodes[i - 1] < |pool|)
  {
    var p := if i > 0 then pool[nodes[i - 1] := pool[nodes[i - 1]].(next := pool[nodes[i]].next)] else pool;
    p[nodes[i] := ZERO_SLOT]
  }

  lemma UnlinkListed(pool: seq<Slot>, head: Link, nodes: seq<nat>, i: nat)
    requires Listed(pool, head, nodes) && i < |nodes| && nodes[i] < SLOTS && (i > 0 ==> nodes[i - 1] < SLOTS)
    ensures Listed(Unlinked(pool, nodes, i), if i == 0 then pool[nodes[0]].next else head, Without(nodes, i))
    ensures Contents(Unlinked(pool, nodes, i), Without(nodes, i))
            == Contents(pool, nodes)[..i] + Contents(pool, nodes)[i + 1..]
  {
    var p, ns := Unlinked(pool, nodes, i), Without(nodes, i);
    WithoutMembers(nodes, i);
    UnlinkedEntries(pool, nodes, i);
    assert Linked(pool, nodes, i);
    assert nodes[i] in nodes;
    forall j | 0 <= j < |ns|
      ensures Linked(p, ns, j)
    {
      UnlinkOne(pool, nodes, i, j);
    }
    forall k | 0 <= k < SLOTS
      ensures Tracked(p, ns, k)
    {
      assert Tracked(pool, nodes, k);
    }
    assert LinkAt(ns, 0) == if i == 0 then LinkAt(nodes, 1) else LinkAt(nodes, 0);
    var c := Contents(pool, nodes);
    assert forall j :: 0 <= j < |ns| ==> Contents(p, ns)[j] == (c[..i] + c[i + 1..])[j];
  }

  lemma UnlinkedEntries(pool: seq<Slot>, nodes: seq<nat>, i: nat)
    requires i < |nodes| && nodes[i] < |pool| && (i > 0 ==> nodes[i - 1] < |pool|)
    ensures |Unlinked(pool, nodes, i)| == |pool| && Unlinked(pool, nodes, i)[nodes[i]] == ZERO_SLOT
    ensures forall k :: 0 <= k < |pool| && k != nodes[i] ==> Unlinked(pool, nodes, i)[k].entry == pool[k].entry
  {
  }

  lemma WithoutMembers(nodes: seq<nat>, i: nat)
    requires i < |nodes| && NoDuplicates(nodes)
    ensures NoDuplicates(Without(nodes, i))
    ensures forall k :: k in Without(nodes, i) <==> k in nodes && k != nodes[i]
    ensures forall j :: 0 <= j < |nodes| - 1 ==> Without(nodes, i)[j] == nodes[if j < i then j else j + 1]
  {
    var ns := Without(nodes, i);
    assert forall j :: 0 <= j < |ns| ==> ns[j] == nodes[if j < i then j else j + 1];
    forall k | k in nodes && k != nodes[i]
      ensures k in ns
    {
      var j :| 0 <= j < |nodes| && nodes[j] == k;
      assert ns[if j < i then j else j - 1] == k;
    }
  }

  lemma UnlinkOne(pool: seq<Slot>, nodes: seq<nat>, i: nat, j: nat)
    requires NoDuplicates(nodes) && i < |nodes| && j < |nodes| - 1
    requires forall m :: 0 <= m < |nodes| ==> Linked(pool, nodes, m)
    requires nodes[i] < |pool| && (i > 0 ==> nodes[i - 1] < |pool|)
    ensures Linked(Unlinked(pool, nodes, i), Without(nodes, i), j)
  {
    WithoutMembers(nodes, i);
    var m := if j < i then j else j + 1;
    assert Linked(pool, nodes, m) && Linked(pool, nodes, i);
    assert nodes[m] != nodes[i];
    if i > 0 && m != i - 1 {
      assert nodes[m] != nodes[i - 1];
    }
  }

  /** The link reached after n steps of a walk. */
  function Follow(pool: seq<Slot>, link: Link, n: nat): Link
    decreases n
  {
    if n == 0 || link == Null || link.slot >= |pool| then link
    else Follow(pool, pool[link.slot].next, n - 1)
  }

  /** A walk of an intact list meets its nodes in order and ends after the last. */
  lemma {:induction false} WalkVisitsNodes(pool: seq<Slot>, head: Link, nodes: seq<nat>, i: nat, n: nat)
    requires Listed(pool, head, nodes)
    ensures Follow(pool, LinkAt(nodes, i), n) == LinkAt(nodes, i + n)
    decreases n
  {
    if n > 0 && i < |nodes| {
      assert Linked(pool, nodes, i);
      WalkVisitsNodes(pool, head, nodes, i + 1, n - 1);
    }
  }

  /** The slot that mp1_malloc returns. */
  ghost predicate FirstFree(pool: seq<Slot>, k: nat) {
    && k < |pool| && pool[k].entry.location == 0
    && forall j :: 0 <= j < k ==> pool[j].entry.location != 0
  }

  /** Accepting location zero twice: the second allocation returns the first one's slot, and then no
      walk from it ends. */
  lemma {:induction false} ZeroLocationLoops(pool: seq<Slot>, head: Link, k: nat, e: Entry, j: nat, f: Entry, n: nat)
    requires FirstFree(pool, k) && e.location == 0
    requires FirstFree(pool[k := Slot(Started(e), head)], j)
    ensures j == k
    ensures Follow(pool[k := Slot(Started(e), head)][j := Slot(Started(f), At(k))], At(j), n) == At(j)
    decreases n
  {
    var once := pool[k := Slot(Started(e), head)];
    assert once[k].entry.location == 0 && once[j].entry.location == 0;
    if n > 0 {
      ZeroLocationLoops(pool, head, k, e, j, f, n - 1);
    }
  }

  /** The pool and the head determine the list. */
  lemma {:induction false} SameNodes(pool: seq<Slot>, head: Link, a: seq<nat>, b: seq<nat>, i: nat)
    requires Listed(pool, head, a) && Listed(pool, head, b) && i <= |a| && i <= |b| && a[..i] == b[..i]
    ensures a == b
    decreases |a| - i
  {
    if i > 0 {
      assert Linked(pool, a, i - 1) && Linked(pool, b, i - 1);
      assert a[i - 1] == a[..i][i - 1] == b[i - 1];
    }
    assert LinkAt(a, i) == LinkAt(b, i);
    if i < |a| {
      SameNodes(pool, head, a, b, i + 1);
    }
  }

  function Elements(nodes: seq<nat>): (r: set<nat>)
    ensures forall k :: k in r <==> k in nodes
  {
    if nodes == [] then {} else {nodes[0]} + Elements(nodes[1..])
  }

  lemma {:induction false} DistinctCount(nodes: seq<nat>)
    requires NoDuplicates(nodes)
    ensures |Elements(nodes)| == |nodes|
    decreases |nodes|
  {
    if nodes != [] {
      NoDuplicatesTail(nodes);
      DistinctCount(nodes[1..]);
    }
  }

  lemma NoDuplicatesTail(nodes: seq<nat>)
    requires NoDuplicates(nodes) && nodes != []
    ensures nodes[0] !in nodes[1..] && NoDuplicates(nodes[1..])
  {
    assert forall i :: 0 <= i < |nodes[1..]| ==> nodes[1..][i] == nodes[i + 1];
  }

  function Below(n: nat): (r: set<nat>)
    ensures |r| == n && forall k :: k in r <==> 0 <= k < n
  {
    if n == 0 then {} else Below(n - 1) + {n - 1}
  }

  lemma SubsetSize(a: set<nat>, b: set<nat>)
    requires a <= b
    ensures |a| <= |b| && (|a| == |b| ==> a == b)
  {
    assert b == a + (b - a);
  }

  /** Distinct numbers below n: at most n of them, and all of them exactly when there are n. */
  lemma Pigeonhole(nodes: seq<nat>, n: nat)
    requires NoDuplicates(nodes) && forall i :: 0 <= i < |nodes| ==> nodes[i] < n
    ensures |nodes| <= n
    ensures (forall k :: 0 <= k < n ==> k in nodes) <==> |nodes| == n
  {
    DistinctCount(nodes);
    ElementsBelow(nodes, n);
    SubsetSize(Elements(nodes), Below(n));
  }

  lemma ElementsBelow(nodes: seq<nat>, n: nat)
    requires forall i :: 0 <= i < |nodes| ==> nodes[i] < n
    ensures Elements(nodes) <= Below(n)
    ensures Elements(nodes) == Below(n) <==> forall k :: 0 <= k < n ==> k in nodes
  {
    var used, all := Elements(nodes), Below(n);
    if forall k :: 0 <= k < n ==> k in nodes {
      assert forall k :: k in all ==> k in used;
    } else {
      var k :| 0 <= k < n && k !in nodes;
      assert k in all && k !in used;
    }
  }

  /** There is a free slot exactly when the list has fewer nodes than the pool has slots. */
  lemma FreeSlotExists(pool: seq<Slot>, head: Link, nodes: seq<nat>)
    requires Listed(pool, head, nodes)
    ensures (exists k :: 0 <= k < SLOTS && pool[k].entry.location == 0) <==> |nodes| < SLOTS
    ensures |nodes| <= SLOTS
  {
    Pigeonhole(nodes, SLOTS);
    forall k | 0 <= k < SLOTS
      ensures pool[k].entry.location != 0 <==> k in nodes
    {
      assert Tracked(pool, nodes, k);
    }
  }

  // ---------------------------------------------------------------------------------------
  // The program
  // ---------------------------------------------------------------------------------------

  class BlinkList {
    const pool: array<Slot>
    var head: Link
    ghost var nodes: seq<nat>

    ghost predicate Valid()
      reads this, pool
    {
      pool.Length == SLOTS && Listed(pool[..], head, nodes)
    }

    ghost function Entries(): seq<Entry>
      requires Valid()
      reads this, pool
    {
      Contents(pool[..], nodes)
    }

    constructor ()
      ensures Valid() && fresh(pool) && Entries() == []
    {
      pool := new Slot[SLOTS](_ => ZERO_SLOT);
      head := Null;
      nodes := [];
    }

    /** mp1_malloc: the first free slot. */
    method Malloc() returns (link: Link)
      requires pool.Length == SLOTS
      ensures link.At? ==> FirstFree(pool[..], link.slot)
      ensures link == Null ==> forall k :: 0 <= k < SLOTS ==> pool[k].entry.location != 0
    {
      for i := 0 to SLOTS
        invariant forall k :: 0 <= k < i ==> pool[k].entry.location != 0
      {
        if pool[i].entry.location == 0 {
          return At(i);
        }
      }
      return Null;
    }

    /** mp1_ioctl_add. The list stays intact unless an entry at location zero is accepted. */
    method IoctlAdd(e: Entry) returns (code: int)
      requires Valid()
      modifies this, pool
      ensures code == if Refused(old(Entries()), e) then -1 else 0
      ensures code == -1 ==> pool[..] == old(pool[..]) && head == old(head) && nodes == old(nodes)
      ensures code == 0 ==> head.At? && head.slot !in old(nodes) && nodes == [head.slot] + old(nodes)
      ensures code == 0 ==> FirstFree(old(pool[..]), head.slot)
      ensures code == 0 ==> pool[..] == old(pool[..])[head.slot := Slot(Started(e), old(head))]
      ensures Valid() <==> code == -1 || e.location != 0
      ensures Valid() ==> Entries() == Apply(old(Entries()), Add(e))
    {
      if e.location >= SLOTS {
        return -1;
      }
      FreeSlotExists(pool[..], head, nodes);
      var link := Malloc();
      if link == Null {
        return -1;
      }
      assert Tracked(pool[..], nodes, link.slot);
      PushListed(pool[..], head, nodes, link.slot, Started(e));
      pool[link.slot] := Slot(Started(e), head);
      head := link;
      nodes := [link.slot] + nodes;
      return 0;
    }

    /** mp1_find_helper: the newest node at a location, the low word of its argument. */
    method FindHelper(location: Word) returns (link: Link, ghost i: nat)
      requires Valid()
      ensures i == NewestAt(Entries(), location)
      ensures link == LinkAt(nodes, NewestAt(Entries(), location))
    {
      link, i := head, 0;
      while link != Null
        invariant i <= |nodes| && link == LinkAt(nodes, i)
        invariant forall j :: 0 <= j < i ==> Entries()[j].location != location
        decreases |nodes| - i
      {
        assert Linked(pool[..], nodes, i);
        if pool[link.slot].entry.location == location {
          break;
        }
        link := pool[link.slot].next;
        i := i + 1;
      }
    }

    /** What a pointer to a link field holds; Null stands for the address of the head. */
    function Deref(p: Link): (link: Link)
      requires p.At? ==> p.slot < pool.Length
      reads this, pool
    {
      if p.At? then pool[p.slot].next else head
    }

    /** The walk to the link field that points at a node of the list. */
    method FindPrevious(link: Link, ghost i: nat) returns (p: Link)
      requires Valid() && i < |nodes| && link == At(nodes[i])
      ensures p == if i == 0 then Null else At(nodes[i - 1])
    {
      p := Null;
      ghost var j := 0;
      while true
        invariant 0 <= j <= i && p == if j == 0 then Null else At(nodes[j - 1])
        decreases i - j
      {
        assert j > 0 ==> Linked(pool[..], nodes, j - 1);
        assert Deref(p) == At(nodes[j]);
        if Deref(p) == link {
          assert nodes[j] == nodes[i];
          break;
        }
        p := Deref(p);
        j := j + 1;
      }
    }

    /** mp1_ioctl_remove: unlinks and frees the newest node at the location, if there is one. */
    method IoctlRemove(arg: Long) returns (code: int)
      requires Valid()
      modifies this, pool
      ensures Valid() && Entries() == Apply(old(Entries()), Remove(arg))
      ensures code == if NewestAt(old(Entries()), arg % 0x1_0000) < |old(Entries())| then 0 else -1
      ensures nodes == if code == 0 then Without(old(nodes), NewestAt(old(Entries()), arg % 0x1_0000)) else old(nodes)
    {
      var link, i := FindHelper(arg % 0x1_0000);
      if link == Null {
        return -1;
      }
      var p := FindPrevious(link, i);
      ghost var was := pool[..];
      UnlinkListed(was, head, nodes, i);
      assert i > 0 ==> nodes[i - 1] != nodes[i];
      if p.At? {
        pool[p.slot] := pool[p.slot].(next := pool[link.slot].next);
      } else {
        head := pool[link.slot].next;
      }
      pool[link.slot] := ZERO_SLOT;
      assert pool[..] == Unlinked(was, nodes, i);
      nodes := Without(nodes, i);
      return 0;
    }

    /** mp1_ioctl_find: a copy of the newest node at the location. */
    method IoctlFind(location: Word) returns (code: int, found: Slot)
      requires Valid()
      ensures code == if NewestAt(Entries(), location) < |Entries()| then 0 else -1
      ensures code == 0 ==> found.entry == Entries()[NewestAt(Entries(), location)]
    {
      var link, i := FindHelper(location);
      if link == Null {
        return -1, ZERO_SLOT;
      }
      assert Linked(pool[..], nodes, i);
      return 0, pool[link.slot];
    }

    /** mp1_ioctl_sync: copies the timing of the node in the high word to the one in the low. */
    method IoctlSync(arg: Long) returns (code: int)
      requires Valid()
      modifies pool
      ensures Valid() && Entries() == Apply(old(Entries()), Sync(arg))
      ensures code == if NewestAt(old(Entries()), arg / 0x1_0000) < |old(Entries())|
                         && NewestAt(old(Entries()), arg % 0x1_0000) < |old(Entries())| then 0 else -1
    {
      var from, i := FindHelper(arg / 0x1_0000);
      if from == Null {
        return -1;
      }
      var to, j := FindHelper(arg % 0x1_0000);
      if to == Null {
        return -1;
      }
      assert Linked(pool[..], nodes, i) && Linked(pool[..], nodes, j);
      var e := Synced(pool[to.slot].entry, pool[from.slot].entry);
      UpdateListed(pool[..], head, nodes, j, e);
      ghost var updated := pool[..][to.slot := pool[to.slot].(entry := e)];
      pool[to.slot] := pool[to.slot].(entry := e);
      assert pool[..] == updated;
      return 0;
    }

    /** mp1_rtc_tasklet: counts every node down, and toggles those whose phase is over. */
    method Tasklet()
      requires Valid()
      modifies pool
      ensures Valid() && Entries() == Apply(old(Entries()), Tick)
    {
      var link := head;
      ghost var i: nat := 0;
      ghost var was := Entries();
      while link != Null
        invariant Valid() && i <= |nodes| && link == LinkAt(nodes, i) && |Entries()| == |was|
        invariant forall j :: 0 <= j < i ==> Entries()[j] == TickEntry(was[j])
        invariant forall j :: i <= j < |nodes| ==> Entries()[j] == was[j]
        decreases |nodes| - i
      {
        assert Linked(pool[..], nodes, i);
        var e := TickEntry(pool[link.slot].entry);
        UpdateListed(pool[..], head, nodes, i, e);
        pool[link.slot] := pool[link.slot].(entry := e);
        link := pool[link.slot].next;
        i := i + 1;
      }
      assert Entries() == TickAll(was);
    }

    /** One command of mp1_ioctl, or one tick of the clock. */
    method Obey(c: Command)
      requires Valid() && (c.Add? ==> c.e.location != 0)
      modifies this, pool
      ensures Valid() && Entries() == Apply(old(Entries()), c)
    {
      match c {
        case Add(e) => var _ := IoctlAdd(e);
        case Remove(arg) => var _ := IoctlRemove(arg);
        case Find(location) => var _, _ := IoctlFind(location);
        case Sync(arg) => var _ := IoctlSync(arg);
        case Tick => Tasklet();
      }
    }

    /** Any sequence of commands whose adds avoid location zero keeps the list intact and does to
        it what the simple view says. */
    method Serve(cs: seq<Command>)
      requires Valid()
      requires forall c :: c in cs && c.Add? ==> c.e.location != 0
      modifies this, pool
      ensures Valid() && Entries() == ApplyAll(old(Entries()), cs)
    {
      ghost var goal := ApplyAll(Entries(), cs);
      for n := 0 to |cs|
        invariant Valid() && ApplyAll(Entries(), cs[n..]) == goal
      {
        assert cs[n] in cs && cs[n..][1..] == cs[n + 1..];
        Obey(cs[n]);
      }
    }
  }
}
