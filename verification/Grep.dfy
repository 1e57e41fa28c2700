/** The chunked line search of the grep program (ece391grep.c). A 1024-byte buffer is refilled
    from the file, lines are searched in it in place, and an unfinished line is carried to the
    front. */
module Grep {
  import opened Bytes

  const BUFSIZE := 1024
  const NEW_LINE := 10

  // ---------------------------------------------------------------------------------------
  // What grep is for
  // ---------------------------------------------------------------------------------------

  /** Length of the first line. */
  function LineLength(f: seq<Byte>): (k: nat)
    ensures k <= |f| && NEW_LINE !in f[..k] && (k < |f| ==> f[k] == NEW_LINE)
  {
    if f == [] || f[0] == NEW_LINE then 0
    else
      var k := LineLength(f[1..]);
      assert f[..k + 1] == [f[0]] + f[1..][..k];
      k + 1
  }

  /** The lines of a file, without their newlines. */
  function Lines(f: seq<Byte>): seq<seq<Byte>>
    decreases |f|
  {
    var k := LineLength(f);
    if k == |f| then [f] else [f[..k]] + Lines(f[k + 1..])
  }

  ghost predicate Contains(line: seq<Byte>, pat: seq<Byte>) {
    exists i :: OccursAt(line, pat, i)
  }

  predicate OccursAt(line: seq<Byte>, pat: seq<Byte>, i: int) {
    0 <= i && i + |pat| <= |line| && line[i..i + |pat|] == pat
  }

  ghost function Matching(lines: seq<seq<Byte>>, pat: seq<Byte>): seq<seq<Byte>> {
    if lines == [] then []
    else (if Contains(lines[0], pat) then [lines[0]] else []) + Matching(lines[1..], pat)
  }

  /** What the buffer makes of a file: lines, with longer ones cut every 1024 bytes. */
  function Pieces(f: seq<Byte>): seq<seq<Byte>>
    decreases |f|
  {
    var k := LineLength(f);
    if f == [] then []
    else if k < |f| && k < BUFSIZE then [f[..k]] + Pieces(f[k + 1..])
    else if |f| >= BUFSIZE then [f[..BUFSIZE]] + Pieces(f[BUFSIZE..])
    else [f]
  }

  lemma MatchingStep(line: seq<Byte>, rest: seq<seq<Byte>>, pat: seq<Byte>)
    ensures Matching([line] + rest, pat) == (if Contains(line, pat) then [line] else []) + Matching(rest, pat)
  {
    assert ([line] + rest)[1..] == rest;
  }

  lemma {:induction false} MatchingAppend(a: seq<seq<Byte>>, b: seq<seq<Byte>>, pat: seq<Byte>)
    ensures Matching(a + b, pat) == Matching(a, pat) + Matching(b, pat)
    decreases |a|
  {
    if a == [] {
      assert a + b == b;
    } else {
      assert (a + b)[1..] == a[1..] + b;
      MatchingAppend(a[1..], b, pat);
    }
  }

  /** Lines with a newline between each two. */
  function Joined(lines: seq<seq<Byte>>): seq<Byte> {
    if lines == [] then [] else if |lines| == 1 then lines[0] else lines[0] + [NEW_LINE] + Joined(lines[1..])
  }

  /** The lines of a file hold no newline, and joined by newlines they are the file. */
  lemma {:induction false} LinesJoin(f: seq<Byte>)
    ensures Lines(f) != [] && Joined(Lines(f)) == f
    ensures forall i :: 0 <= i < |Lines(f)| ==> NEW_LINE !in Lines(f)[i]
    decreases |f|
  {
    var k := LineLength(f);
    assert f[..|f|] == f;
    if k < |f| {
      LinesJoin(f[k + 1..]);
      assert Lines(f)[1..] == Lines(f[k + 1..]);
      assert f == f[..k] + [NEW_LINE] + f[k + 1..];
    }
  }

  lemma LineLengthIs(f: seq<Byte>, k: nat)
    requires k <= |f| && NEW_LINE !in f[..k] && (k < |f| ==> f[k] == NEW_LINE)
    ensures LineLength(f) == k
  {
  }

  // ---------------------------------------------------------------------------------------
  // Pieces against lines
  // ---------------------------------------------------------------------------------------

  /** The condition under which cutting does no harm: every line that should be printed fits
      the buffer. */
  ghost predicate MatchesFit(lines: seq<seq<Byte>>, pat: seq<Byte>) {
    forall i :: 0 <= i < |lines| && Contains(lines[i], pat) ==> |lines[i]| <= BUFSIZE
  }

  lemma TailOccurs(line: seq<Byte>, pat: seq<Byte>, n: nat)
    requires n <= |line|
    ensures Contains(line[..n], pat) || Contains(line[n..], pat) ==> Contains(line, pat)
  {
    if Contains(line[..n], pat) {
      var i :| OccursAt(line[..n], pat, i);
      assert line[i..i + |pat|] == line[..n][i..i + |pat|];
      assert OccursAt(line, pat, i);
    } else if Contains(line[n..], pat) {
      var i :| OccursAt(line[n..], pat, i);
      assert line[n + i..n + i + |pat|] == line[n..][i..i + |pat|];
      assert OccursAt(line, pat, n + i);
    }
  }

  lemma EmptyLine(pat: seq<Byte>)
    requires pat != []
    ensures !Contains([], pat)
  {
  }

  /** The first line of a file whose first line is cut. */
  lemma CutLine(f: seq<Byte>, n: nat)
    requires n <= LineLength(f)
    ensures LineLength(f[n..]) == LineLength(f) - n
    ensures LineLength(f) < |f| ==> f[LineLength(f) + 1..] == f[n..][LineLength(f) - n + 1..]
  {
    CutAt(f, n, LineLength(f));
    LineLengthIs(f[n..], LineLength(f) - n);
  }

  lemma CutAt(f: seq<Byte>, n: nat, k: nat)
    requires n <= k <= |f| && NEW_LINE !in f[..k]
    ensures NEW_LINE !in f[n..][..k - n] && f[n..][..k - n] == f[..k][n..]
    ensures k < |f| ==> f[n..][k - n] == f[k] && f[n..][k - n + 1..] == f[k + 1..]
  {
    assert f[n..][..k - n] == f[..k][n..];
  }

  /** If every matching line fits, the pieces that match are the lines that match. */
  lemma {:induction false} FittingLines(f: seq<Byte>, pat: seq<Byte>)
    requires pat != [] && MatchesFit(Lines(f), pat)
    ensures Matching(Pieces(f), pat) == Matching(Lines(f), pat)
    decreases |f|
  {
    var k := LineLength(f);
    EmptyLine(pat);
    if f == [] {
      MatchingStep([], [], pat);
    } else if k < |f| && k < BUFSIZE {
      MatchesFitTail(f, pat);
      MatchingStep(f[..k], Lines(f[k + 1..]), pat);
      MatchingStep(f[..k], Pieces(f[k + 1..]), pat);
      FittingLines(f[k + 1..], pat);
    } else if |f| >= BUFSIZE {
      CutFits(f, pat);
      MatchingStep(f[..BUFSIZE], Pieces(f[BUFSIZE..]), pat);
      FittingLines(f[BUFSIZE..], pat);
    }
  }

  lemma MatchesFitTail(f: seq<Byte>, pat: seq<Byte>)
    requires LineLength(f) < |f| && MatchesFit(Lines(f), pat)
    ensures MatchesFit(Lines(f[LineLength(f) + 1..]), pat)
  {
    var rest := Lines(f[LineLength(f) + 1..]);
    assert Lines(f) == [f[..LineLength(f)]] + rest;
    forall i | 0 <= i < |rest| && Contains(rest[i], pat)
      ensures |rest[i]| <= BUFSIZE
    {
      assert Lines(f)[i + 1] == rest[i];
    }
  }

  /** The lines of a file and of what is left after cutting into its first line. */
  lemma CutLines(f: seq<Byte>, n: nat) returns (line: seq<Byte>, rest: seq<seq<Byte>>)
    requires n <= LineLength(f)
    ensures line == f[..LineLength(f)]
    ensures Lines(f) == [line] + rest && Lines(f[n..]) == [line[n..]] + rest
  {
    line := f[..LineLength(f)];
    rest := AfterFirst(f);
    FirstLine(f);
    CutLine(f, n);
    CutAt(f, n, LineLength(f));
    SplitLine(f[n..], line[n..], rest);
  }

  lemma SplitLine(g: seq<Byte>, line: seq<Byte>, rest: seq<seq<Byte>>)
    requires LineLength(g) == |line| && g[..|line|] == line && rest == AfterFirst(g)
    ensures Lines(g) == [line] + rest
  {
    FirstLine(g);
  }

  function AfterFirst(f: seq<Byte>): seq<seq<Byte>> {
    if LineLength(f) == |f| then [] else Lines(f[LineLength(f) + 1..])
  }

  lemma FirstLine(f: seq<Byte>)
    ensures Lines(f) == [f[..LineLength(f)]] + AfterFirst(f)
  {
    assert LineLength(f) == |f| ==> f[..LineLength(f)] == f;
  }

  /** Cutting 1024 bytes off a file whose first line is at least that long keeps the condition,
      and the matching lines are those of the rest plus the cut when it is the whole line. */
  lemma CutFits(f: seq<Byte>, pat: seq<Byte>)
    requires pat != [] && BUFSIZE <= LineLength(f) && MatchesFit(Lines(f), pat)
    ensures MatchesFit(Lines(f[BUFSIZE..]), pat)
    ensures Matching(Lines(f), pat) ==
            (if Contains(f[..BUFSIZE], pat) then [f[..BUFSIZE]] else []) + Matching(Lines(f[BUFSIZE..]), pat)
  {
    var line, rest := CutLines(f, BUFSIZE);
    var tail := line[BUFSIZE..];
    assert f[..BUFSIZE] == line[..BUFSIZE];
    assert Lines(f)[0] == line;
    FirstFits(line, tail, rest, pat);
    MatchingStep(line, rest, pat);
    MatchingStep(tail, rest, pat);
    assert |line| == BUFSIZE ==> line == f[..BUFSIZE];
  }

  lemma FirstFits(line: seq<Byte>, tail: seq<Byte>, rest: seq<seq<Byte>>, pat: seq<Byte>)
    requires pat != [] && MatchesFit([line] + rest, pat) && |line| >= BUFSIZE && tail == line[BUFSIZE..]
    ensures !Contains(tail, pat) && MatchesFit([tail] + rest, pat)
    ensures |line| > BUFSIZE ==> !Contains(line, pat) && !Contains(line[..BUFSIZE], pat)
  {
    assert ([line] + rest)[0] == line;
    TailOccurs(line, pat, BUFSIZE);
    EmptyLine(pat);
    forall i | 0 <= i < |[tail] + rest| && Contains(([tail] + rest)[i], pat)
      ensures |([tail] + rest)[i]| <= BUFSIZE
    {
      assert i > 0 ==> ([tail] + rest)[i] == ([line] + rest)[i];
    }
  }

  lemma {:induction false} PiecesAreShort(f: seq<Byte>)
    ensures forall i :: 0 <= i < |Pieces(f)| ==> |Pieces(f)[i]| <= BUFSIZE
    decreases |f|
  {
    var k := LineLength(f);
    if f == [] {
    } else if k < |f| && k < BUFSIZE {
      PiecesAreShort(f[k + 1..]);
    } else if |f| >= BUFSIZE {
      PiecesAreShort(f[BUFSIZE..]);
    }
  }

  lemma {:induction false} MatchingMembers(lines: seq<seq<Byte>>, pat: seq<Byte>, line: seq<Byte>)
    ensures line in Matching(lines, pat) <==> line in lines && Contains(line, pat)
    decreases |lines|
  {
    if lines != [] {
      MatchingMembers(lines[1..], pat, line);
      assert lines == [lines[0]] + lines[1..];
    }
  }

  /** What grep prints is exactly the lines containing the pattern if and only if every such
      line is at most 1024 bytes long. */
  lemma GrepExact(f: seq<Byte>, pat: seq<Byte>)
    requires pat != []
    ensures Matching(Pieces(f), pat) == Matching(Lines(f), pat) <==> MatchesFit(Lines(f), pat)
  {
    if MatchesFit(Lines(f), pat) {
      FittingLines(f, pat);
    } else {
      var i :| 0 <= i < |Lines(f)| && Contains(Lines(f)[i], pat) && |Lines(f)[i]| > BUFSIZE;
      MatchingMembers(Lines(f), pat, Lines(f)[i]);
      MatchingMembers(Pieces(f), pat, Lines(f)[i]);
      PiecesAreShort(f);
    }
  }

  lemma NothingMatches(lines: seq<seq<Byte>>, pat: seq<Byte>)
    requires Matching(lines, pat) == []
    ensures forall i :: 0 <= i < |lines| ==> !Contains(lines[i], pat)
  {
    forall i | 0 <= i < |lines|
      ensures !Contains(lines[i], pat)
    {
      MatchingMembers(lines, pat, lines[i]);
    }
  }

  // ---------------------------------------------------------------------------------------
  // The program
  // ---------------------------------------------------------------------------------------

  ghost predicate NulFree(s: seq<Byte>) {
    0 !in s
  }

  /** The scan for the end of the line that starts at start. */
  method FindLineEnd(data: array<Byte>, start: nat, last: nat) returns (end: nat)
    requires data.Length == BUFSIZE + 1 && start <= last <= BUFSIZE
    ensures start <= end <= last && NEW_LINE !in data[start..end] && (end < last ==> data[end] == NEW_LINE)
  {
    end := start;
    while end < last && data[end] != NEW_LINE
      invariant start <= end <= last && NEW_LINE !in data[start..end]
    {
      end := end + 1;
    }
  }

  /** ece391_strncmp(data + at, s, |s|) == 0, when a NUL ends the line within the buffer. */
  method SameAt(data: array<Byte>, at: nat, end: nat, s: seq<Byte>) returns (same: bool)
    requires at < end < data.Length && data[end] == 0 && NulFree(s) && s != []
    ensures same <==> at + |s| <= end && data[at..at + |s|] == s
  {
    var i := 0;
    while i < |s|
      invariant i <= |s| && at + i <= end && data[at..at + i] == s[..i]
    {
      if data[at + i] != s[i] {
        Mismatch(data[..], at, end, s, i);
        return false;
      }
      assert at + i != end;
      assert data[at..at + i + 1] == data[at..at + i] + [data[at + i]];
      i := i + 1;
    }
    assert s[..i] == s;
    return true;
  }

  lemma Mismatch(d: seq<Byte>, at: nat, end: nat, s: seq<Byte>, i: nat)
    requires at + i <= end < |d| && i < |s| && d[at + i] != s[i]
    ensures !(at + |s| <= end && d[at..at + |s|] == s)
  {
    if at + |s| <= end {
      assert d[at..at + |s|][i] == d[at + i];
    }
  }

  /** A char as the compiler compares it with an unsigned byte. */
  function Signed(b: Byte): int {
    if b < 128 then b else b - 256
  }

  /** Whether a pattern can be found at all: the first comparison is between a signed and an
      unsigned byte. */
  predicate Findable(s: seq<Byte>) {
    s != [] && s[0] < 128
  }

  /** The first char of a pattern, which for an empty one is its NUL. */
  function FirstChar(s: seq<Byte>): int {
    if s == [] then 0 else Signed(s[0])
  }

  /** The search of one line, from start to a NUL at end. */
  method SearchLine(data: array<Byte>, start: nat, end: nat, s: seq<Byte>) returns (found: bool)
    requires start <= end < data.Length && data[end] == 0 && NulFree(s) && NulFree(data[start..end])
    ensures found <==> Findable(s) && Contains(data[start..end], s)
  {
    ghost var line := data[start..end];
    for check := start to end
      invariant Findable(s) ==> forall i :: i < check - start ==> !OccursAt(line, s, i)
    {
      assert data[check] == line[check - start] && line[check - start] in line;
      if FirstChar(s) == data[check] {
        var same := SameAt(data, check, end, s);
        if same {
          assert line[check - start..check - start + |s|] == data[check..check + |s|];
          assert OccursAt(line, s, check - start);
          return true;
        }
      }
      if Findable(s) {
        NotHere(data[..], start, end, check, s);
      }
    }
    return false;
  }

  lemma SliceOfSlice(d: seq<Byte>, start: nat, end: nat, a: nat, b: nat)
    requires start <= end <= |d| && a <= b <= end - start
    ensures d[start..end][a..b] == d[start + a..start + b]
  {
    forall k | 0 <= k < b - a
      ensures d[start..end][a..b][k] == d[start + a..start + b][k]
    {
    }
  }

  lemma NotHere(d: seq<Byte>, start: nat, end: nat, check: nat, s: seq<Byte>)
    requires start <= check < end < |d| && s != []
    requires d[check] != s[0] || !(check + |s| <= end && d[check..check + |s|] == s)
    ensures !OccursAt(d[start..end], s, check - start)
  {
    if check + |s| <= end {
      SliceOfSlice(d, start, end, check - start, check - start + |s|);
      assert d[check..check + |s|][0] == d[check];
    }
  }

  /** ece391_strcpy(data, data + start): moves a NUL-free line and its NUL to the front. */
  method CarryOver(data: array<Byte>, start: nat, end: nat)
    requires 0 < start <= end < data.Length && NulFree(data[start..end]) && data[end] == 0
    modifies data
    ensures data[..end - start] == old(data[start..end]) && data[end] == 0
    ensures forall i :: end < i < data.Length ==> data[i] == old(data[i])
  {
    ghost var was := data[..];
    assert forall k :: start <= k < end ==> was[k] in was[start..end];
    var i := 0;
    while data[start + i] != 0
      invariant 0 <= i && start + i <= end
      invariant data[..i] == was[start..start + i]
      invariant forall k :: i <= k < data.Length ==> data[k] == was[k]
      decreases end - start - i
    {
      data[i] := data[start + i];
      i := i + 1;
    }
    data[i] := 0;
  }

  /** What is still to be printed for the unread part of the input. */
  ghost function ToPrint(rest: seq<Byte>, s: seq<Byte>): seq<seq<Byte>> {
    if Findable(s) then Matching(Pieces(rest), s) else []
  }

  ghost function Printed(line: seq<Byte>, s: seq<Byte>): seq<seq<Byte>> {
    if Findable(s) && Contains(line, s) then [line] else []
  }

  lemma LineEnded(line: seq<Byte>, rest: seq<Byte>, s: seq<Byte>)
    requires NEW_LINE !in line && |line| < BUFSIZE
    ensures ToPrint(line + [NEW_LINE] + rest, s) == Printed(line, s) + ToPrint(rest, s)
  {
    var f := line + [NEW_LINE] + rest;
    assert f[..|line|] == line && f[|line| + 1..] == rest;
    LineLengthIs(f, |line|);
    MatchingStep(line, Pieces(rest), s);
  }

  lemma FirstNewLine(f: seq<Byte>, n: nat)
    requires n <= |f| && NEW_LINE !in f[..n]
    ensures LineLength(f) >= n
  {
  }

  lemma BufferFilled(line: seq<Byte>, rest: seq<Byte>, s: seq<Byte>)
    requires NEW_LINE !in line && |line| == BUFSIZE
    ensures ToPrint(line + rest, s) == Printed(line, s) + ToPrint(rest, s)
  {
    var f := line + rest;
    assert f[..BUFSIZE] == line && f[BUFSIZE..] == rest;
    FirstNewLine(f, BUFSIZE);
    MatchingStep(line, Pieces(rest), s);
  }

  lemma InputEnded(line: seq<Byte>, s: seq<Byte>)
    requires NEW_LINE !in line && |line| < BUFSIZE
    ensures ToPrint(line, s) == Printed(line, s)
  {
    if line == [] {
      if s != [] {
        EmptyLine(s);
      }
    } else {
      assert line[..|line|] == line;
      LineLengthIs(line, |line|);
      MatchingStep(line, [], s);
      assert [line] + [] == [line];
    }
  }

  /** What is to be printed for some input, as a function of the input alone. */
  type Reporting = seq<Byte> -> seq<seq<Byte>>

  /** How a first piece and what follows it are printed. */
  ghost predicate PrintsPiece(report: Reporting, s: seq<Byte>, line: seq<Byte>, rest: seq<Byte>) {
    NEW_LINE !in line ==>
      && (|line| < BUFSIZE ==> report(line + [NEW_LINE] + rest) == Printed(line, s) + report(rest))
      && (|line| == BUFSIZE ==> report(line + rest) == Printed(line, s) + report(rest))
      && (|line| < BUFSIZE ==> report(line) == Printed(line, s) + report([]))
  }

  ghost predicate PrintsPieces(report: Reporting, s: seq<Byte>) {
    forall line, rest :: PrintsPiece(report, s, line, rest)
  }

  ghost function Report(s: seq<Byte>): Reporting {
    input => ToPrint(input, s)
  }

  lemma ReportIsByPieces(s: seq<Byte>)
    ensures PrintsPieces(Report(s), s) && Report(s)([]) == []
  {
    forall line: seq<Byte>, rest: seq<Byte>
      ensures PrintsPiece(Report(s), s, line, rest)
    {
      if NEW_LINE !in line {
        if |line| < BUFSIZE {
          LineEnded(line, rest, s);
          InputEnded(line, s);
          assert ToPrint([], s) == [];
        } else if |line| == BUFSIZE {
          BufferFilled(line, rest, s);
        }
      }
    }
  }

  /** Ends the line with a NUL, searches it, and prints it if it matches. */
  method SearchOne(data: array<Byte>, start: nat, end: nat, s: seq<Byte>, soFar: seq<seq<Byte>>)
    returns (out: seq<seq<Byte>>)
    requires start <= end < data.Length && NulFree(s) && NulFree(data[start..end])
    modifies data
    ensures data[..] == old(data[..])[end := 0]
    ensures out == soFar + Printed(old(data[start..end]), s)
  {
    data[end] := 0;
    assert data[start..end] == old(data[start..end]);
    var found := SearchLine(data, start, end, s);
    out := if found then soFar + [data[start..end]] else soFar;
  }

  /** Ends the unfinished line with a NUL and carries it to the front. */
  method Carry(data: array<Byte>, start: nat, end: nat, ghost rest: seq<Byte>)
    requires data.Length == BUFSIZE + 1 && 0 < start <= end < data.Length && NulFree(data[start..end])
    requires data[BUFSIZE] != NEW_LINE
    modifies data
    ensures NulFree(data[..end - start]) && data[BUFSIZE] != NEW_LINE
    ensures data[..end - start] + rest == old(Unsearched(data[..], start, end, rest))
  {
    assert Unsearched(data[..], start, end, rest) == data[start..end] + rest;
    data[end] := 0;
    assert data[start..end] == old(data[start..end]);
    CarryOver(data, start, end);
  }

  /** The inner loop: searches every line in the buffer, and carries an unfinished one to the
      front. cnt is what the last read returned; rest is the unread file. */
  method SearchBuffer(data: array<Byte>, filled: nat, cnt: nat, ghost rest: seq<Byte>, s: seq<Byte>,
                      ghost report: Reporting, soFar: seq<seq<Byte>>, ghost goal: seq<seq<Byte>>)
    returns (out: seq<seq<Byte>>, last: nat)
    requires data.Length == BUFSIZE + 1 && filled <= BUFSIZE && data[BUFSIZE] != NEW_LINE
    requires NulFree(s) && PrintsPieces(report, s) && NulFree(data[..filled])
    requires rest == [] || filled == BUFSIZE
    requires cnt == 0 ==> rest == [] && filled < BUFSIZE
    requires soFar + report(data[..filled] + rest) == goal
    modifies data
    ensures last < BUFSIZE && NulFree(data[..last]) && data[BUFSIZE] != NEW_LINE
    ensures out + report(data[..last] + rest) == goal
    ensures cnt == 0 ==> last == 0
  {
    out, last := soFar, filled;
    var start := 0;
    assert data[0..last] == data[..filled] == data[..][0..last];
    assert Unsearched(data[..], start, last, rest) == data[..filled] + rest;
    while true
      invariant start <= last <= BUFSIZE && last == filled && data[BUFSIZE] != NEW_LINE
      invariant NulFree(data[start..last])
      invariant out + report(Unsearched(data[..], start, last, rest)) == goal
      decreases last - start
    {
      var end := FindLineEnd(data, start, last);
      SliceNulFree(data[..], start, end, last);
      if data[end] != NEW_LINE && cnt != 0 && start != 0 {
        Carry(data, start, end, rest);
        last := last - start;
        return;
      }
      out := SearchPiece(data, start, end, last, cnt, rest, s, report, out, goal);
      start := end + 1;
      if start >= last {
        last := 0;
        assert data[..0] + rest == rest;
        return;
      }
    }
  }

  /** Searches a complete piece; the lines still to be printed are those behind it. */
  method SearchPiece(data: array<Byte>, start: nat, end: nat, last: nat, cnt: nat, ghost rest: seq<Byte>,
                     s: seq<Byte>, ghost report: Reporting, soFar: seq<seq<Byte>>, ghost goal: seq<seq<Byte>>)
    returns (out: seq<seq<Byte>>)
    requires data.Length == BUFSIZE + 1 && start <= end <= last <= BUFSIZE && data[BUFSIZE] != NEW_LINE
    requires NulFree(s) && PrintsPieces(report, s) && NulFree(data[start..last])
    requires NEW_LINE !in data[start..end] && (end < last ==> data[end] == NEW_LINE)
    requires rest == [] || last == BUFSIZE
    requires cnt == 0 ==> rest == [] && last < BUFSIZE
    requires data[end] == NEW_LINE || cnt == 0 || start == 0
    requires soFar + report(Unsearched(data[..], start, last, rest)) == goal
    modifies data
    ensures data[BUFSIZE] != NEW_LINE
    ensures end < last ==> NulFree(data[end + 1..last])
    ensures out + report(Unsearched(data[..], end + 1, last, rest)) == goal
  {
    ghost var d := data[..];
    SliceNulFree(d, start, end, last);
    assert d[start..end] == data[start..end] && d[start..last] == data[start..last];
    out := SearchOne(data, start, end, s, soFar);
    SameBehind(d, end, last);
    assert end < last ==> data[end + 1..last] == d[end + 1..last];
    PieceDone(d, data[..], start, end, last, cnt, rest, s, report, soFar, out, goal);
  }

  lemma PieceDone(d: seq<Byte>, e: seq<Byte>, start: nat, end: nat, last: nat, cnt: nat, rest: seq<Byte>,
                  s: seq<Byte>, report: Reporting, soFar: seq<seq<Byte>>, out: seq<seq<Byte>>, goal: seq<seq<Byte>>)
    requires |d| == BUFSIZE + 1 && start <= end <= last <= BUFSIZE && d[BUFSIZE] != NEW_LINE && PrintsPieces(report, s)
    requires NEW_LINE !in d[start..end] && (end < last ==> d[end] == NEW_LINE)
    requires rest == [] || last == BUFSIZE
    requires cnt == 0 ==> rest == [] && last < BUFSIZE
    requires d[end] == NEW_LINE || cnt == 0 || start == 0
    requires soFar + report(Unsearched(d, start, last, rest)) == goal
    requires e == d[end := 0] && out == soFar + Printed(d[start..end], s)
    ensures out + report(Unsearched(e, end + 1, last, rest)) == goal
  {
    Searchable(d, start, end, last, cnt, rest, s, report);
    Moved(soFar, Printed(d[start..end], s), report(Unsearched(d, end + 1, last, rest)));
    assert Unsearched(e, end + 1, last, rest) == Unsearched(d, end + 1, last, rest) by {
      SameBehind(d, end, last);
    }
  }

  /** The input from position start of the buffer on. */
  ghost function Unsearched(d: seq<Byte>, start: nat, last: nat, rest: seq<Byte>): seq<Byte>
    requires last <= |d|
  {
    if start < last then d[start..last] + rest else rest
  }

  lemma SameBehind(d: seq<Byte>, end: nat, last: nat)
    requires end <= last < |d|
    ensures end < last ==> d[end := 0][end + 1..last] == d[end + 1..last]
  {
  }

  lemma Moved(a: seq<seq<Byte>>, b: seq<seq<Byte>>, c: seq<seq<Byte>>)
    ensures a + (b + c) == (a + b) + c
  {
  }

  lemma SliceNulFree(d: seq<Byte>, start: nat, end: nat, last: nat)
    requires start <= end <= last <= |d| && NulFree(d[start..last])
    ensures NulFree(d[start..end])
    ensures end < last ==> NulFree(d[end + 1..last])
  {
    assert d[start..end] == d[start..last][..end - start];
    if end < last {
      assert d[end + 1..last] == d[start..last][end + 1 - start..];
    }
  }

  /** Unless the line is carried over, it is a complete piece of the input. */
  lemma Searchable(d: seq<Byte>, start: nat, end: nat, last: nat, cnt: nat, rest: seq<Byte>, s: seq<Byte>,
                   report: Reporting)
    requires |d| == BUFSIZE + 1 && start <= end <= last <= BUFSIZE && d[BUFSIZE] != NEW_LINE && PrintsPieces(report, s)
    requires NEW_LINE !in d[start..end] && (end < last ==> d[end] == NEW_LINE)
    requires rest == [] || last == BUFSIZE
    requires cnt == 0 ==> rest == [] && last < BUFSIZE
    requires d[end] == NEW_LINE || cnt == 0 || start == 0
    ensures report(Unsearched(d, start, last, rest)) ==
            Printed(d[start..end], s) + report(Unsearched(d, end + 1, last, rest))
  {
    var line := d[start..end];
    if end < last {
      var behind := Unsearched(d, end + 1, last, rest);
      assert d[start..last] + rest == line + [NEW_LINE] + behind;
      assert PrintsPiece(report, s, line, behind);
    } else {
      assert PrintsPiece(report, s, line, rest);
      assert |line| < BUFSIZE ==> rest == [] && line + rest == line;
    }
  }

  /** do_one_file: grep of one file, given as its bytes, for a pattern. The kernel's read returns
      as many bytes as fit or remain. The spare byte of the buffer starts as anything but a
      newline. */
  method DoOneFile(s: seq<Byte>, file: seq<Byte>, data: array<Byte>) returns (out: seq<seq<Byte>>)
    requires data.Length == BUFSIZE + 1 && data[BUFSIZE] != NEW_LINE
    requires NulFree(s) && NulFree(file)
    modifies data
    ensures out == if Findable(s) then Matching(Pieces(file), s) else []
    ensures out == Matching(Lines(file), s) <==>
            (Findable(s) && MatchesFit(Lines(file), s)) || Matching(Lines(file), s) == []
  {
    ReportIsByPieces(s);
    out := SearchFile(s, file, data, Report(s));
    if s != [] {
      GrepExact(file, s);
    }
    if Matching(Lines(file), s) == [] {
      NothingMatches(Lines(file), s);
    }
  }

  /** The outer loop of do_one_file. */
  method SearchFile(s: seq<Byte>, file: seq<Byte>, data: array<Byte>, ghost report: Reporting)
    returns (out: seq<seq<Byte>>)
    requires data.Length == BUFSIZE + 1 && data[BUFSIZE] != NEW_LINE
    requires NulFree(s) && NulFree(file) && PrintsPieces(report, s) && report([]) == []
    modifies data
    ensures out == report(file)
  {
    out := [];
    var last: nat, pos: nat := 0, 0;
    assert data[..0] + file[0..] == file;
    while true
      invariant last < BUFSIZE && 0 <= pos <= |file| && data[BUFSIZE] != NEW_LINE
      invariant NulFree(data[..last])
      invariant out + report(data[..last] + file[pos..]) == report(file)
      decreases |file| - pos
    {
      var cnt := if BUFSIZE - last < |file| - pos then BUFSIZE - last else |file| - pos;
      ghost var unread := data[..last] + file[pos..];
      Fill(data, last, file, pos, cnt);
      last := last + cnt;
      pos := pos + cnt;
      assert data[..last] + file[pos..] == unread;
      out, last := SearchBuffer(data, last, cnt, file[pos..], s, report, out, report(file));
      if cnt == 0 {
        break;
      }
    }
    assert data[..last] + file[pos..] == [];
  }

  /** The read: copies the next bytes of the file behind the carried ones. */
  method Fill(data: array<Byte>, last: nat, file: seq<Byte>, pos: nat, cnt: nat)
    requires data.Length == BUFSIZE + 1 && last + cnt <= BUFSIZE && pos + cnt <= |file|
    requires NulFree(data[..last]) && NulFree(file)
    modifies data
    ensures data[..last + cnt] == old(data[..last]) + file[pos..pos + cnt]
    ensures NulFree(data[..last + cnt]) && data[BUFSIZE] == old(data[BUFSIZE])
  {
    for i := 0 to cnt
      invariant data[..last + i] == old(data[..last]) + file[pos..pos + i]
      invariant data[BUFSIZE] == old(data[BUFSIZE])
    {
      data[last + i] := file[pos + i];
      assert data[..last + i + 1] == data[..last + i] + [file[pos + i]];
    }
  }
}
