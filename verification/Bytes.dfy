/** Bytes and NUL-terminated strings. */
module Bytes {

  type Byte = b: int | 0 <= b < 256

  datatype Option<+T> = None | Some(value: T)

  /** The part of a buffer before its first NUL. */
  function UpToNul(text: seq<Byte>): (r: seq<Byte>)
    ensures r <= text && 0 !in r
    ensures |r| < |text| ==> text[|r|] == 0
  {
    if text == [] || text[0] == 0 then [] else [text[0]] + UpToNul(text[1..])
  }

  lemma {:induction false} UpToNulIs(s: seq<Byte>, n: nat)
    requires n <= |s| && 0 !in s[..n] && (n < |s| ==> s[n] == 0)
    ensures UpToNul(s) == s[..n]
    decreases n
  {
    if n > 0 {
      assert s[0] in s[..n];
      assert s[1..][..n - 1] == s[..n][1..];
      UpToNulIs(s[1..], n - 1);
    }
  }

  lemma {:induction false} UpToNulReaches(s: seq<Byte>, n: nat)
    requires n <= |s| && 0 !in s[..n]
    ensures |UpToNul(s)| >= n
    decreases n
  {
    if n > 0 {
      assert s[0] in s[..n];
      assert s[1..][..n - 1] == s[..n][1..];
      UpToNulReaches(s[1..], n - 1);
    }
  }
}
