/** Number formatting (lib.c): itoa generates digits from the lowest up and reverses them in place,
    and the alternate hexadecimal conversion pads to eight digits. */
module Itoa {
  import opened Bytes

  type Word = w: int | 0 <= w < 0x1_0000_0000

  const ZERO: Byte := '0' as int

  /** The lookup string: ten digits, then capital letters. */
  function DigitChar(d: int): (c: Byte)
    requires 0 <= d < 36
    ensures IsDigit(c) && DigitValue(c) == d
  {
    if d < 10 then ZERO + d else 'A' as int + (d - 10)
  }

  function DigitValue(c: Byte): int {
    if c <= '9' as int then c - ZERO else c - 'A' as int + 10
  }

  predicate IsDigit(c: Byte) {
    ZERO <= c <= '9' as int || 'A' as int <= c <= 'Z' as int
  }

  /** The number a string of digits stands for, most significant digit first. */
  function Decode(s: seq<Byte>, radix: nat): int {
    if s == [] then 0 else Decode(s[..|s| - 1], radix) * radix + DigitValue(s[|s| - 1])
  }

  /** Whether a string is made of digits of a radix. */
  predicate Digits(s: seq<Byte>, radix: nat) {
    2 <= radix <= 36 && forall i :: 0 <= i < |s| ==> IsDigit(s[i]) && DigitValue(s[i]) < radix
  }

  /** A numeral: digits with no leading zero, except for zero itself. */
  predicate Numeral(s: seq<Byte>, radix: nat) {
    Digits(s, radix) && s != [] && (|s| > 1 ==> s[0] != ZERO)
  }

  function Reversed(s: seq<Byte>): (r: seq<Byte>)
    ensures |r| == |s| && forall i :: 0 <= i < |s| ==> r[i] == s[|s| - 1 - i]
  {
    seq(|s|, i requires 0 <= i < |s| => s[|s| - 1 - i])
  }

  lemma Scaled(a: nat, b: nat, k: nat)
    requires a <= b
    ensures 0 <= a * k <= b * k
  {
  }

  /** Quotient and remainder by repeated subtraction. */
  function Quotient(v: nat, radix: nat): (q: nat)
    requires radix >= 2
    ensures q <= v && (v > 0 ==> q < v)
    decreases v
  {
    if v < radix then 0 else 1 + Quotient(v - radix, radix)
  }

  function Remainder(v: nat, radix: nat): (r: nat)
    requires radix >= 2
    ensures r < radix
    decreases v
  {
    if v < radix then v else Remainder(v - radix, radix)
  }

  lemma {:induction false} Divided(v: nat, radix: nat)
    requires radix >= 2
    ensures v == Quotient(v, radix) * radix + Remainder(v, radix)
    decreases v
  {
    if v >= radix {
      Divided(v - radix, radix);
      var q := Quotient(v - radix, radix);
      assert (1 + q) * radix == radix + q * radix;
    }
  }

  /** They are the machine's quotient and remainder. */
  lemma {:induction false} MachineDivision(v: nat, radix: nat)
    requires radix >= 2
    ensures v / radix == Quotient(v, radix) && v % radix == Remainder(v, radix)
    decreases v
  {
    Divided(v, radix);
    LastDigit(v / radix, Quotient(v, radix), v % radix, Remainder(v, radix), radix);
  }

  /** The digits of the digit loop, lowest first. */
  function LowFirst(v: nat, radix: nat): (r: seq<Byte>)
    requires 2 <= radix <= 36
    decreases v
  {
    if v == 0 then [] else [DigitChar(Remainder(v, radix))] + LowFirst(Quotient(v, radix), radix)
  }

  /** The string itoa writes. */
  function Written(v: nat, radix: nat): seq<Byte>
    requires 2 <= radix <= 36
  {
    if v == 0 then [ZERO] else Reversed(LowFirst(v, radix))
  }

  lemma ReversedStep(c: Byte, s: seq<Byte>)
    ensures Reversed([c] + s) == Reversed(s) + [c]
  {
  }

  lemma DecodeStep(s: seq<Byte>, c: Byte, radix: nat)
    ensures Decode(s + [c], radix) == Decode(s, radix) * radix + DigitValue(c)
  {
    assert (s + [c])[..|s|] == s;
  }

  lemma {:induction false} LowFirstDecodes(v: nat, radix: nat)
    requires 2 <= radix <= 36
    ensures Decode(Reversed(LowFirst(v, radix)), radix) == v && Digits(LowFirst(v, radix), radix)
    ensures v > 0 ==> LowFirst(v, radix) != [] && LowFirst(v, radix)[|LowFirst(v, radix)| - 1] != ZERO
    decreases v
  {
    if v > 0 {
      Divided(v, radix);
      var low, rest := Remainder(v, radix), Quotient(v, radix);
      LowFirstDecodes(rest, radix);
      OneDigitMore(v, low, rest, LowFirst(rest, radix), radix);
    }
  }

  lemma OneDigitMore(v: nat, low: nat, rest: nat, s: seq<Byte>, radix: nat)
    requires 2 <= radix <= 36 && low < radix && v == rest * radix + low && v > 0
    requires Decode(Reversed(s), radix) == rest && Digits(s, radix)
    requires if rest > 0 then s != [] && s[|s| - 1] != ZERO else s == []
    ensures var t := [DigitChar(low)] + s;
            Decode(Reversed(t), radix) == v && Digits(t, radix) && t[|t| - 1] != ZERO
  {
    ReversedStep(DigitChar(low), s);
    DecodeStep(Reversed(s), DigitChar(low), radix);
  }

  function Power(radix: int, n: nat): int {
    if n == 0 then 1 else radix * Power(radix, n - 1)
  }

  lemma {:induction false} LengthBound(v: nat, radix: int, n: nat)
    requires 2 <= radix <= 36 && v < Power(radix, n)
    ensures |LowFirst(v, radix)| <= n
    decreases n
  {
    if v > 0 {
      Divided(v, radix);
      Smaller(v, Quotient(v, radix), Remainder(v, radix), radix, Power(radix, n - 1));
      LengthBound(Quotient(v, radix), radix, n - 1);
    }
  }

  lemma Smaller(v: nat, q: nat, r: nat, radix: nat, p: int)
    requires v == q * radix + r && v < radix * p && radix > 0
    ensures q < p
  {
    if 0 <= p <= q {
      Scaled(p, q, radix);
    }
  }

  lemma {:induction false} PowerGrows(radix: int, n: nat)
    requires radix >= 2
    ensures Power(radix, n) >= Power(2, n) > 0
    decreases n
  {
    if n > 0 {
      PowerGrows(radix, n - 1);
      Scaled(2, radix, Power(radix, n - 1));
    }
  }

  lemma PowerTwo32()
    ensures Power(2, 32) == 0x1_0000_0000
  {
    assert Power(2, 8) == 256;
    assert Power(2, 16) == 0x1_0000;
    assert Power(2, 24) == 0x100_0000;
  }

  lemma PowerSixteen8()
    ensures Power(16, 8) == 0x1_0000_0000
  {
    assert Power(16, 4) == 0x1_0000;
  }

  /** The output of itoa is a numeral, decodes to the value, and has at most 32 digits. */
  lemma WrittenDecodes(v: Word, radix: nat)
    requires 2 <= radix <= 36
    ensures Numeral(Written(v, radix), radix) && Decode(Written(v, radix), radix) == v
    ensures |Written(v, radix)| <= 32
  {
    if v > 0 {
      LowFirstDecodes(v, radix);
      PowerTwo32();
      PowerGrows(radix, 32);
      LengthBound(v, radix, 32);
    } else {
      assert Decode([ZERO], radix) == Decode([], radix) * radix + DigitValue(ZERO);
    }
  }

  lemma {:induction false} DecodeNonNegative(s: seq<Byte>, radix: nat)
    requires Digits(s, radix)
    ensures Decode(s, radix) >= 0
    decreases |s|
  {
    if s != [] {
      var front := s[..|s| - 1];
      DecodeNonNegative(front, radix);
      Scaled(0, Decode(front, radix), radix);
    }
  }

  lemma LastDigit(a: nat, b: nat, x: nat, y: nat, radix: nat)
    requires a * radix + x == b * radix + y && x < radix && y < radix
    ensures a == b && x == y
  {
    if a < b {
      Scaled(a + 1, b, radix);
    } else if b < a {
      Scaled(b + 1, a, radix);
    }
  }

  lemma {:induction false} LeadingDigitCounts(s: seq<Byte>, radix: nat)
    requires Digits(s, radix) && s != [] && s[0] != ZERO
    ensures Decode(s, radix) > 0
    decreases |s|
  {
    if |s| == 1 {
      assert Decode(s[..0], radix) * radix == 0;
    } else {
      var front := s[..|s| - 1];
      LeadingDigitCounts(front, radix);
      Scaled(1, Decode(front, radix), radix);
    }
  }

  /** Numerals are unique: two that decode to the same value are the same string. */
  lemma {:induction false} NumeralsUnique(a: seq<Byte>, b: seq<Byte>, radix: nat)
    requires Digits(a, radix) && Digits(b, radix)
    requires (a != [] ==> a[0] != ZERO) && (b != [] ==> b[0] != ZERO)
    requires Decode(a, radix) == Decode(b, radix)
    ensures a == b
    decreases |a|
  {
    if a == [] || b == [] {
      if a != [] {
        LeadingDigitCounts(a, radix);
      } else if b != [] {
        LeadingDigitCounts(b, radix);
      }
    } else {
      var m, n := |a| - 1, |b| - 1;
      DecodeNonNegative(a[..m], radix);
      DecodeNonNegative(b[..n], radix);
      LastDigit(Decode(a[..m], radix), Decode(b[..n], radix), DigitValue(a[m]), DigitValue(b[n]), radix);
      NumeralsUnique(a[..m], b[..n], radix);
      assert a == a[..m] + [a[m]] && b == b[..n] + [b[n]];
    }
  }

  // ---------------------------------------------------------------------------------------
  // The loops
  // ---------------------------------------------------------------------------------------

  /** A string of the given length, then a NUL, in memory. */
  ghost predicate StringAt(buf: seq<Byte>, at: nat, s: seq<Byte>) {
    at + |s| < |buf| && buf[at..at + |s|] == s && buf[at + |s|] == 0 && 0 !in s
  }

  method StrLen(buf: array<Byte>, at: nat, ghost s: seq<Byte>) returns (len: nat)
    requires StringAt(buf[..], at, s)
    ensures len == |s|
  {
    len := 0;
    while buf[at + len] != 0
      invariant len <= |s|
      decreases |s| - len
    {
      len := len + 1;
    }
    InString(buf[..], at, s, len);
  }

  lemma InString(buf: seq<Byte>, at: nat, s: seq<Byte>, i: nat)
    requires StringAt(buf, at, s) && i <= |s|
    ensures i < |s| <==> buf[at + i] != 0
  {
    if i < |s| {
      assert s[i] == buf[at..at + |s|][i] && s[i] in s;
    }
  }

  /** The byte at k after the first beg swaps of a reversal. */
  ghost function Swapped(was: seq<Byte>, at: nat, len: nat, beg: nat, k: nat): Byte
    requires at + len <= |was| && k < |was| && beg <= len
  {
    if at <= k < at + beg || at + len - beg <= k < at + len then was[at + at + len - 1 - k] else was[k]
  }

  /** strrev: reverses the string in place and touches nothing else. */
  method StrRev(buf: array<Byte>, at: nat, ghost s: seq<Byte>)
    requires StringAt(buf[..], at, s)
    modifies buf
    ensures buf[..] == old(buf[..at]) + Reversed(s) + old(buf[at + |s|..])
    ensures StringAt(buf[..], at, Reversed(s))
  {
    ghost var was := buf[..];
    var len := StrLen(buf, at, s);
    var beg: nat, end: int := 0, len - 1;
    while beg < end
      invariant beg <= len && end == len - 1 - beg
      invariant forall k :: 0 <= k < buf.Length ==> buf[k] == Swapped(was, at, len, beg, k)
    {
      buf[at + beg], buf[at + end] := buf[at + end], buf[at + beg];
      beg := beg + 1;
      end := end - 1;
    }
    AllSwapped(was, buf[..], at, s, beg);
  }

  lemma AllSwapped(was: seq<Byte>, now: seq<Byte>, at: nat, s: seq<Byte>, beg: nat)
    requires StringAt(was, at, s) && |now| == |was| && beg <= |s| <= 2 * beg + 1
    requires forall k :: 0 <= k < |now| ==> now[k] == Swapped(was, at, |s|, beg, k)
    ensures now == was[..at] + Reversed(s) + was[at + |s|..]
    ensures StringAt(now, at, Reversed(s))
  {
    var goal := was[..at] + Reversed(s) + was[at + |s|..];
    forall k | 0 <= k < |now|
      ensures now[k] == goal[k]
    {
      if at <= k < at + |s| {
        assert s[at + |s| - 1 - k] == was[at..at + |s|][at + |s| - 1 - k];
      }
    }
    assert now[at..at + |s|] == Reversed(s);
  }

  /** The digit loop of itoa, and the NUL behind it. */
  method WriteDigits(value: Word, buf: array<Byte>, at: nat, radix: nat)
    requires 2 <= radix <= 36 && at + |LowFirst(value, radix)| < buf.Length
    modifies buf
    ensures buf[..] == Stored(old(buf[..]), at, LowFirst(value, radix))
  {
    ghost var low := LowFirst(value, radix);
    ghost var was := buf[..];
    var n: nat, v: nat := 0, value;
    while v > 0
      invariant n + |LowFirst(v, radix)| == |low| && low[n..] == LowFirst(v, radix)
      invariant buf[..] == Placed(was, at, low, n)
    {
      DigitNext(low, n, v, radix);
      var digit, rest := Divide(v, radix);
      OneMorePlaced(was, at, low, n);
      buf[at + n] := DigitChar(digit);
      n := n + 1;
      v := rest;
    }
    AllPlaced(was, at, low);
    buf[at + n] := 0;
  }

  /** Memory with the first n bytes of a string placed at an index. */
  ghost function Placed(was: seq<Byte>, at: nat, s: seq<Byte>, n: nat): seq<Byte>
    requires n <= |s| && at + |s| < |was|
  {
    was[..at] + s[..n] + was[at + n..]
  }

  lemma OneMorePlaced(was: seq<Byte>, at: nat, s: seq<Byte>, n: nat)
    requires n < |s| && at + |s| < |was|
    ensures Placed(was, at, s, n)[at + n := s[n]] == Placed(was, at, s, n + 1)
  {
  }

  lemma AllPlaced(was: seq<Byte>, at: nat, s: seq<Byte>)
    requires at + |s| < |was|
    ensures Placed(was, at, s, |s|)[at + |s| := 0] == Stored(was, at, s)
  {
  }

  method Divide(v: nat, radix: nat) returns (digit: nat, rest: nat)
    requires radix >= 2
    ensures digit == Remainder(v, radix) && rest == Quotient(v, radix)
  {
    MachineDivision(v, radix);
    digit := v % radix;
    rest := v / radix;
  }

  lemma DigitNext(low: seq<Byte>, n: nat, v: nat, radix: nat)
    requires 2 <= radix <= 36 && v > 0 && n <= |low| && low[n..] == LowFirst(v, radix)
    ensures n < |low| && low[n] == DigitChar(Remainder(v, radix))
    ensures low[n + 1..] == LowFirst(Quotient(v, radix), radix)
  {
    assert low[n] == low[n..][0];
    assert low[n + 1..] == low[n..][1..];
  }

  /** Memory in which a string and its NUL replaced what was at an index. */
  ghost function Stored(was: seq<Byte>, at: nat, s: seq<Byte>): seq<Byte>
    requires at + |s| < |was|
  {
    was[..at] + s + [0] + was[at + |s| + 1..]
  }

  lemma StoredString(was: seq<Byte>, at: nat, s: seq<Byte>)
    requires at + |s| < |was| && 0 !in s
    ensures StringAt(Stored(was, at, s), at, s)
  {
  }

  lemma ReversedInPlace(was: seq<Byte>, at: nat, s: seq<Byte>)
    requires at + |s| < |was|
    ensures var d := Stored(was, at, s);
            d[..at] + Reversed(s) + d[at + |s|..] == Stored(was, at, Reversed(s))
  {
    var d := Stored(was, at, s);
    assert d[..at] == was[..at];
    assert d[at + |s|..] == [0] + was[at + |s| + 1..];
  }

  lemma DigitsNotNul(s: seq<Byte>, radix: nat)
    requires Digits(s, radix)
    ensures 0 !in s
  {
  }

  /** itoa, writing at an index of memory. */
  method WriteNumber(value: Word, buf: array<Byte>, at: nat, radix: nat)
    requires 2 <= radix <= 36 && at + 33 <= buf.Length
    modifies buf
    ensures at + |Written(value, radix)| < buf.Length
    ensures buf[..] == Stored(old(buf[..]), at, Written(value, radix))
  {
    WrittenDecodes(value, radix);
    ghost var was := buf[..];
    if value == 0 {
      buf[at] := ZERO;
      buf[at + 1] := 0;
      assert buf[..] == Stored(was, at, [ZERO]);
      return;
    }
    ghost var low := LowFirst(value, radix);
    assert |low| <= 32 && 0 !in low by {
      LowFirstDecodes(value, radix);
      DigitsNotNul(low, radix);
    }
    WriteDigits(value, buf, at, radix);
    StoredString(was, at, low);
    ReverseStored(buf, at, low, was);
  }

  method ReverseStored(buf: array<Byte>, at: nat, ghost s: seq<Byte>, ghost was: seq<Byte>)
    requires at + |s| < |was| && buf[..] == Stored(was, at, s) && StringAt(buf[..], at, s)
    modifies buf
    ensures buf[..] == Stored(was, at, Reversed(s))
  {
    StrRev(buf, at, s);
    ReversedInPlace(was, at, s);
  }

  /** The alternate hexadecimal conversion: the string handed to puts, from position start. */
  method PaddedHex(value: Word, buf: array<Byte>) returns (start: nat, ghost s: seq<Byte>)
    requires buf.Length == 64
    modifies buf
    ensures StringAt(buf[..], start, s) && |s| == 8
    ensures Digits(s, 16) && Decode(s, 16) == value
  {
    ghost var digits := Written(value, 16);
    WrittenDecodes(value, 16);
    DigitsNotNul(digits, 16);
    HexLength(value);
    ghost var was := buf[..];
    WriteNumber(value, buf, 8, 16);
    StoredString(was, 8, digits);
    start := StrLen(buf, 8, digits);
    ghost var written := buf[..];
    Pad(buf, start);
    s := Zeros(8 - start) + digits;
    PaddedString(written, buf[..], digits);
    PaddedDigits(8 - start, digits, 16);
  }

  lemma PaddedString(was: seq<Byte>, now: seq<Byte>, digits: seq<Byte>)
    requires |was| == |now| == 64 && |digits| <= 8 && StringAt(was, 8, digits)
    requires now[|digits|..8] == Zeros(8 - |digits|) && now[8..] == was[8..]
    ensures StringAt(now, |digits|, Zeros(8 - |digits|) + digits)
  {
    var n := |digits|;
    assert now[8..8 + n] == now[8..][..n] == was[8..8 + n];
    assert now[8 + n] == now[8..][n] == was[8 + n];
    assert now[n..n + 8] == now[n..8] + now[8..8 + n];
  }

  lemma PaddedDigits(n: nat, s: seq<Byte>, radix: nat)
    requires Digits(s, radix)
    ensures Digits(Zeros(n) + s, radix) && Decode(Zeros(n) + s, radix) == Decode(s, radix)
  {
    LeadingZeros(n, s, radix);
  }

  /** Fills the bytes before index 8 with zero digits. */
  method Pad(buf: array<Byte>, start: nat)
    requires buf.Length == 64 && start <= 8
    modifies buf
    ensures buf[..][start..8] == Zeros(8 - start) && buf[..][8..] == old(buf[..][8..])
  {
    var i := start;
    while i < 8
      invariant start <= i <= 8 && buf[8..] == old(buf[8..])
      invariant forall k :: start <= k < i ==> buf[k] == ZERO
    {
      buf[i] := ZERO;
      i := i + 1;
    }
  }

  function Zeros(n: nat): seq<Byte> {
    seq(n, i => ZERO)
  }

  lemma HexLength(value: Word)
    ensures |Written(value, 16)| <= 8
  {
    PowerSixteen8();
    LengthBound(value, 16, 8);
  }

  lemma {:induction false} ZerosDecode(n: nat, radix: nat)
    ensures Decode(Zeros(n), radix) == 0
    decreases n
  {
    if n > 0 {
      assert Zeros(n)[..n - 1] == Zeros(n - 1);
      ZerosDecode(n - 1, radix);
    }
  }

  lemma {:induction false} LeadingZeros(n: nat, s: seq<Byte>, radix: nat)
    ensures Decode(Zeros(n) + s, radix) == Decode(s, radix)
    decreases |s|
  {
    if s == [] {
      assert Zeros(n) + s == Zeros(n);
      ZerosDecode(n, radix);
    } else {
      LeadingZeros(n, s[..|s| - 1], radix);
      assert (Zeros(n) + s)[..n + |s| - 1] == Zeros(n) + s[..|s| - 1];
    }
  }
}
