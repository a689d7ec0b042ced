/** The kernel's C string routines, on NUL-terminated byte sequences. */
module Strings {
  import opened Common

  /** Enough bytes for an n-bounded scan: a NUL among them, or n bytes. */
  predicate Scannable(s: seq<byte>, n: nat) {
    |s| >= n || NUL in s
  }

  /** What an n-bounded scan sees. */
  function Bounded(s: seq<byte>, n: nat): (r: seq<byte>)
    ensures |r| <= n && |r| <= |s| && r == s[..|r|] && NUL !in r
    ensures Scannable(s, n) && |r| < n ==> |r| < |s| && s[|r|] == NUL
  {
    CString(s[..Min(n, |s|)])
  }

  /** A bounded scan does not look past the terminator. */
  lemma BoundedCString(s: seq<byte>, n: nat)
    ensures Bounded(CString(s), n) == Bounded(s, n)
  {
  }

  /** A C `char` is signed here. */
  function Signed(b: byte): int {
    if b < 128 then b else b - 256
  }

  /** Zero exactly when both bounded strings agree, else the signed difference at the first mismatch. */
  method StrNCmp(s1: seq<byte>, s2: seq<byte>, n: nat) returns (diff: int)
    requires Scannable(s1, n) && Scannable(s2, n)
    ensures diff == 0 <==> Bounded(s1, n) == Bounded(s2, n)
    ensures diff != 0 ==> exists i :: 0 <= i < |s1| && i < |s2| && s1[..i] == s2[..i] &&
                                      diff == Signed(s1[i]) - Signed(s2[i])
  {
    ghost var b1, b2 := Bounded(s1, n), Bounded(s2, n);
    var i := 0;
    while i < n
      invariant i <= |b1| && i <= |b2| && s1[..i] == s2[..i]
      decreases n - i
    {
      if s1[i] != s2[i] {
        return Signed(s1[i]) - Signed(s2[i]);
      }
      if s1[i] == NUL {
        return 0;
      }
      i := i + 1;
    }
    return 0;
  }

  method StrLen(s: seq<byte>) returns (len: nat)
    requires NUL in s
    ensures len == |CString(s)| < |s|
  {
    len := 0;
    while s[len] != NUL
      invariant len <= |CString(s)|
      decreases |s| - len
    {
      len := len + 1;
    }
  }

  /** What strncpy leaves in the n destination bytes: the bounded string, padded with NULs. */
  function Padded(s: seq<byte>, n: nat): (r: seq<byte>)
    ensures |r| == n && Bounded(s, n) <= r
    ensures forall j :: |Bounded(s, n)| <= j < n ==> r[j] == NUL
  {
    Bounded(s, n) + seq(n - |Bounded(s, n)|, _ => NUL)
  }

  /** Only the first n bytes matter, and they are copied as they are when no NUL is among them. */
  lemma PaddedPrefix(s: seq<byte>, t: seq<byte>, n: nat)
    requires n <= |s| && n <= |t| && s[..n] == t[..n]
    ensures Padded(s, n) == Padded(t, n) && (NUL !in s[..n] ==> Padded(s, n) == s[..n])
  {
    if NUL !in s[..n] {
      CStringUnique(s[..n], n);
    }
  }

  method StrNCpy(dest: array<byte>, src: seq<byte>, n: nat)
    requires Scannable(src, n) && n <= dest.Length
    modifies dest
    ensures dest[..n] == Padded(src, n) && dest[n..] == old(dest[n..])
  {
    ghost var want := Padded(src, n);
    var i := 0;
    while i < n && src[i] != NUL
      invariant i <= |Bounded(src, n)|
      invariant dest[..i] == want[..i] && dest[n..] == old(dest[n..])
    {
      dest[i] := src[i];
      i := i + 1;
    }
    while i < n
      invariant |Bounded(src, n)| <= i <= n
      invariant dest[..i] == want[..i] && dest[n..] == old(dest[n..])
    {
      dest[i] := NUL;
      i := i + 1;
    }
  }
}
