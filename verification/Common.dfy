/** Definitions shared by every part of the model: bytes, C strings and small arithmetic. */
module Common {

  type byte = x: int | 0 <= x < 256

  const NUL: byte := 0
  const NEWLINE: byte := 10
  const RETURN: byte := 13
  const SPACE: byte := 32

  datatype Option<+T> = None | Some(value: T)

  function Min(a: int, b: int): int {
    if a < b then a else b
  }

  /** The C string stored at the start of `s`: everything before the first NUL. */
  function CString(s: seq<byte>): (r: seq<byte>)
    ensures |r| <= |s| && r == s[..|r|] && NUL !in r
    ensures |r| < |s| ==> s[|r|] == NUL
    ensures |r| == |s| <==> NUL !in s
  {
    if s == [] || s[0] == NUL then [] else [s[0]] + CString(s[1..])
  }

  /** A NUL-free prefix that is followed by a NUL is the C string. */
  lemma {:induction false} CStringUnique(s: seq<byte>, n: nat)
    requires n <= |s| && NUL !in s[..n] && (n < |s| ==> s[n] == NUL)
    ensures CString(s) == s[..n]
  {
  }

  lemma Join(s: seq<byte>, a: nat, b: nat, c: nat)
    requires a <= b <= c <= |s|
    ensures s[a..c] == s[a..b] + s[b..c]
  {
  }
}
