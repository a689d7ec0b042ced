/** Number printing: itoa with its in-place reversal, and the number cases of printf. */
module Numbers {
  import opened Common

  const ZERO: byte := 48
  const MINUS: byte := 45
  const UINT32 := 0x1_0000_0000

  /** The lookup table "0123...XYZ". */
  function DigitChar(d: int): byte
    requires 0 <= d < 36
  {
    if d < 10 then 48 + d else 55 + d
  }

  /** Digit by digit. */
  lemma DigitsAre(d: int)
    requires 0 <= d < 36
    ensures DigitChar(d) as char == "0123456789ABCDEFGHIJKLMNOPQRSTUVWXYZ"[d]
  {
  }

  function DigitValue(c: byte): int {
    if c < 58 then c - 48 else c - 55
  }

  /** Positional value of a digit string. */
  function Decode(s: seq<byte>, radix: int): int {
    if s == [] then 0 else Decode(s[..|s| - 1], radix) * radix + DigitValue(s[|s| - 1])
  }

  /** The numeral itself, most significant digit first. */
  function Numeral(v: nat, radix: nat): (s: seq<byte>)
    requires 2 <= radix <= 36
    ensures s != [] && NUL !in s
    decreases v
  {
    if v < radix then [DigitChar(v)]
    else
      Smaller(v, radix);
      Numeral(v / radix, radix) + [DigitChar(v % radix)]
  }

  lemma Smaller(v: nat, radix: nat)
    requires radix >= 2 && v > 0
    ensures 0 <= v / radix < v && v == v / radix * radix + v % radix
  {
  }

  function Pow(b: nat, e: nat): nat {
    if e == 0 then 1 else b * Pow(b, e - 1)
  }

  /** Reading the numeral gives the number back. */
  lemma {:induction false} NumeralRoundTrip(v: nat, radix: nat)
    requires 2 <= radix <= 36
    ensures Decode(Numeral(v, radix), radix) == v
    decreases v
  {
    var s := Numeral(v, radix);
    if v < radix {
      assert s[..0] == [];
    } else {
      Smaller(v, radix);
      assert s[..|s| - 1] == Numeral(v / radix, radix);
      NumeralRoundTrip(v / radix, radix);
    }
  }

  /** No leading zero, except for zero itself. */
  lemma {:induction false} NoLeadingZero(v: nat, radix: nat)
    requires 2 <= radix <= 36
    ensures Numeral(v, radix)[0] == ZERO <==> v == 0
    decreases v
  {
    if v >= radix {
      Smaller(v, radix);
      NoLeadingZero(v / radix, radix);
    }
  }

  lemma DivBelow(v: nat, radix: nat, p: nat)
    requires radix >= 1 && v < radix * p
    ensures v / radix < p
  {
  }

  /** A number below radix^k has at most k digits. */
  lemma {:induction false} NumeralLength(v: nat, radix: nat, k: nat)
    requires 2 <= radix <= 36 && k >= 1 && v < Pow(radix, k)
    ensures |Numeral(v, radix)| <= k
    decreases v
  {
    assert k == 1 ==> Pow(radix, k) == radix;
    if v >= radix && k > 1 {
      Smaller(v, radix);
      DivBelow(v, radix, Pow(radix, k - 1));
      NumeralLength(v / radix, radix, k - 1);
    }
  }

  lemma {:induction false} PowAtLeast(radix: nat, k: nat)
    requires radix >= 2
    ensures Pow(radix, k) >= Pow(2, k) >= 1
  {
    if k > 0 {
      PowAtLeast(radix, k - 1);
      assert radix * Pow(radix, k - 1) >= 2 * Pow(2, k - 1);
    }
  }

  /** A 32-bit value needs at most 32 digits in any radix, 10 in decimal, 8 in hexadecimal. */
  lemma NumeralFits(v: nat, radix: nat)
    requires 2 <= radix <= 36 && v < UINT32
    ensures |Numeral(v, radix)| <= 32
    ensures radix == 10 ==> |Numeral(v, radix)| <= 10
    ensures radix == 16 ==> |Numeral(v, radix)| <= 8
  {
    PowAtLeast(radix, 32);
    PowTwo32();
    NumeralLength(v, radix, 32);
    if radix == 10 {
      PowTen10();
      NumeralLength(v, radix, 10);
    } else if radix == 16 {
      PowSixteen8();
      NumeralLength(v, radix, 8);
    }
  }

  lemma PowTwo32()
    ensures Pow(2, 32) == UINT32
  {
    assert Pow(2, 8) == 256;
    PowAdd(2, 8, 8);
    PowAdd(2, 16, 16);
  }

  lemma PowSixteen8()
    ensures Pow(16, 8) == UINT32
  {
  }

  lemma PowTen10()
    ensures Pow(10, 10) >= UINT32
  {
  }

  lemma {:induction false} PowAdd(b: nat, m: nat, n: nat)
    ensures Pow(b, m + n) == Pow(b, m) * Pow(b, n)
  {
    if m > 0 {
      PowAdd(b, m - 1, n);
      assert b * (Pow(b, m - 1) * Pow(b, n)) == b * Pow(b, m - 1) * Pow(b, n);
    }
  }

  // ----- itoa

  /** The digits as the loop produces them, least significant first. */
  function Produced(v: nat, radix: nat): seq<byte>
    requires 2 <= radix <= 36
    decreases v
  {
    if v == 0 then []
    else
      Smaller(v, radix);
      [DigitChar(v % radix)] + Produced(v / radix, radix)
  }

  function Reverse(s: seq<byte>): (r: seq<byte>)
    ensures |r| == |s| && forall i :: 0 <= i < |s| ==> r[i] == s[|s| - 1 - i]
  {
    if s == [] then [] else Reverse(s[1..]) + [s[0]]
  }

  lemma SmallQuotient(v: nat, radix: nat)
    requires 0 <= v < radix
    ensures v / radix == 0 && v % radix == v
  {
  }

  lemma LargeQuotient(v: nat, radix: nat)
    requires 0 < radix <= v
    ensures v / radix > 0
  {
  }

  lemma ReverseCons(c: byte, s: seq<byte>)
    ensures Reverse([c] + s) == Reverse(s) + [c]
  {
  }

  lemma {:induction false} ReversedIsNumeral(v: nat, radix: nat)
    requires 2 <= radix <= 36 && v > 0
    ensures Reverse(Produced(v, radix)) == Numeral(v, radix)
    decreases v
  {
    Smaller(v, radix);
    var q, c := v / radix, DigitChar(v % radix);
    ReverseCons(c, Produced(q, radix));
    assert Produced(v, radix) == [c] + Produced(q, radix);
    if v < radix {
      SmallQuotient(v, radix);
    } else {
      LargeQuotient(v, radix);
      ReversedIsNumeral(q, radix);
    }
  }

  /** `r` is `s` with its first and last `k` bytes exchanged. */
  predicate Exchanged(s: seq<byte>, r: seq<byte>, k: int) {
    && |r| == |s|
    && (forall j :: 0 <= j < |s| && k <= j < |s| - k ==> r[j] == s[j])
    && (forall j :: 0 <= j < |s| && !(k <= j < |s| - k) ==> r[j] == s[|s| - 1 - j])
  }

  lemma ExchangeOne(s: seq<byte>, r: seq<byte>, k: nat)
    requires Exchanged(s, r, k) && k < |s| - 1 - k
    ensures Exchanged(s, r[k := r[|s| - 1 - k]][|s| - 1 - k := r[k]], k + 1)
  {
  }

  lemma ExchangedAll(s: seq<byte>, r: seq<byte>, k: nat)
    requires Exchanged(s, r, k) && k >= |s| - 1 - k
    ensures r == Reverse(s)
  {
    forall j | 0 <= j < |s|
      ensures r[j] == s[|s| - 1 - j]
    {
    }
    assert forall j :: 0 <= j < |s| ==> r[j] == Reverse(s)[j];
  }

  method Swap(buf: array<byte>, at: nat, n: nat, i: nat, j: nat)
    requires at + n <= buf.Length && i < j < n
    modifies buf
    ensures buf[..at] == old(buf[..at]) && buf[at + n..] == old(buf[at + n..])
    ensures var s := old(buf[at..at + n]);
            buf[at..at + n] == s[i := s[j]][j := s[i]]
  {
    var tmp := buf[at + j];
    buf[at + j] := buf[at + i];
    buf[at + i] := tmp;
  }

  /** strrev on the string of length `n` at `at`. */
  method StrRev(buf: array<byte>, at: nat, n: nat)
    requires at + n <= buf.Length
    modifies buf
    ensures buf[at..at + n] == Reverse(old(buf[at..at + n]))
    ensures buf[..at] == old(buf[..at]) && buf[at + n..] == old(buf[at + n..])
  {
    ghost var s := buf[at..at + n];
    var beg, end := 0, n - 1;
    while beg < end
      invariant 0 <= beg <= n && end == n - 1 - beg
      invariant buf[..at] == old(buf[..at]) && buf[at + n..] == old(buf[at + n..])
      invariant Exchanged(s, buf[at..at + n], beg)
    {
      ExchangeOne(s, buf[at..at + n], beg);
      Swap(buf, at, n, beg, end);
      beg, end := beg + 1, end - 1;
    }
    ExchangedAll(s, buf[at..at + n], beg);
  }

  method Append(buf: array<byte>, at: nat, n: nat, c: byte)
    requires at + n < buf.Length
    modifies buf
    ensures buf[at..at + n + 1] == old(buf[at..at + n]) + [c]
    ensures buf[..at] == old(buf[..at]) && buf[at + n + 1..] == old(buf[at + n + 1..])
  {
    buf[at + n] := c;
  }

  /** Write the digits from the lowest up. */
  method WriteDigits(value: nat, buf: array<byte>, at: nat, radix: nat) returns (n: nat)
    requires 2 <= radix <= 36 && at + |Produced(value, radix)| <= buf.Length
    modifies buf
    ensures n == |Produced(value, radix)| && buf[at..at + n] == Produced(value, radix)
    ensures buf[..at] == old(buf[..at]) && buf[at + n..] == old(buf[at + n..])
  {
    var rest: nat := value;
    n := 0;
    while rest > 0
      invariant at + n + |Produced(rest, radix)| <= buf.Length
      invariant buf[at..at + n] + Produced(rest, radix) == Produced(value, radix)
      invariant buf[..at] == old(buf[..at]) && buf[at + n..] == old(buf[at + n..])
      decreases rest
    {
      Smaller(rest, radix);
      ghost var sofar, c, todo := buf[at..at + n], DigitChar(rest % radix), Produced(rest / radix, radix);
      assert sofar + ([c] + todo) == sofar + [c] + todo;
      ghost var tail := buf[at + n..];
      Append(buf, at, n, DigitChar(rest % radix));
      assert buf[at + n + 1..] == tail[1..] && old(buf[at + n..])[1..] == old(buf[at + n + 1..]);
      n := n + 1;
      rest := rest / radix;
    }
    assert buf[at..at + n] + [] == buf[at..at + n];
  }

  /** The digits of a nonzero value and the terminator behind them, still in reverse. */
  method WriteReversed(value: nat, buf: array<byte>, at: nat, radix: nat) returns (n: nat)
    requires 2 <= radix <= 36 && at + |Produced(value, radix)| < buf.Length
    modifies buf
    ensures n == |Produced(value, radix)| && buf[at..at + n] == Produced(value, radix)
    ensures buf[at + n..] == [NUL] + old(buf[at + n + 1..])
    ensures buf[..at] == old(buf[..at])
  {
    n := WriteDigits(value, buf, at, radix);
    assert old(buf[at + n..])[1..] == old(buf[at + n + 1..]);
    ghost var tail := buf[at + n..];
    buf[at + n] := NUL;
    assert buf[at + n..] == [NUL] + tail[1..];
  }

  method WriteZero(buf: array<byte>, at: nat)
    requires at + 1 < buf.Length
    modifies buf
    ensures buf[..at] == old(buf[..at]) && buf[at..at + 1] == [ZERO] && buf[at + 1..] == [NUL] + old(buf[at + 2..])
  {
    buf[at] := ZERO;
    buf[at + 1] := NUL;
  }

  method WriteNumeral(value: nat, buf: array<byte>, at: nat, radix: nat, ghost n: nat)
    requires 2 <= radix <= 36 && value > 0 && n == |Numeral(value, radix)| && at + n < buf.Length
    modifies buf
    ensures buf[..at] == old(buf[..at]) && buf[at..at + n] == Numeral(value, radix)
    ensures buf[at + n..] == [NUL] + old(buf[at + n + 1..])
  {
    ghost var produced := Produced(value, radix);
    assert Reverse(produced) == Numeral(value, radix) by { ReversedIsNumeral(value, radix); }
    var count := WriteReversed(value, buf, at, radix);
    StrRev(buf, at, count);
  }

  /** itoa at offset `at`: the numeral and its terminator, and nothing else, is written. */
  method Itoa(value: nat, buf: array<byte>, at: nat, radix: nat)
    requires 2 <= radix <= 36 && value < UINT32 && at + |Numeral(value, radix)| < buf.Length
    modifies buf
    ensures buf[..at] == old(buf[..at])
    ensures var n := |Numeral(value, radix)|;
            buf[at..at + n] == Numeral(value, radix) && buf[at + n..] == [NUL] + old(buf[at + n + 1..])
  {
    if value == 0 {
      WriteZero(buf, at);
    } else {
      WriteNumeral(value, buf, at, radix, |Numeral(value, radix)|);
    }
  }

  // ----- printf

  /** %x and %u. */
  method PrintUnsigned(value: nat, radix: nat, buf: array<byte>) returns (out: seq<byte>)
    requires 2 <= radix <= 36 && value < UINT32 && buf.Length >= 36
    modifies buf
    ensures out == Numeral(value, radix) && Decode(out, radix) == value
  {
    NumeralFits(value, radix);
    NumeralRoundTrip(value, radix);
    Itoa(value, buf, 0, radix);
    out := Printed(buf, 0, |Numeral(value, radix)|);
  }

  /** puts: everything up to the terminator. */
  method Printed(buf: array<byte>, at: nat, ghost n: nat) returns (out: seq<byte>)
    requires at + n < buf.Length && buf[at + n] == NUL && NUL !in buf[at..at + n]
    ensures out == buf[at..at + n]
  {
    ghost var s := buf[at..];
    assert s[..n] == buf[at..at + n];
    CStringUnique(s, n);
    var i := at;
    while buf[i] != NUL
      invariant at <= i <= at + |CString(s)|
      decreases at + n - i
    {
      i := i + 1;
    }
    assert s[i - at] == NUL;
    return buf[at..i];
  }

  lemma {:induction false} LeadingZeros(k: nat, s: seq<byte>, radix: int)
    ensures Decode(seq<byte>(k, _ => ZERO) + s, radix) == Decode(s, radix)
    decreases k + |s|
  {
    var z := seq<byte>(k, _ => ZERO);
    if s != [] {
      assert (z + s)[..k + |s| - 1] == z + s[..|s| - 1];
      LeadingZeros(k, s[..|s| - 1], radix);
    } else if k > 0 {
      assert (z + s)[..k - 1] == seq<byte>(k - 1, _ => ZERO) + s;
      LeadingZeros(k - 1, s, radix);
    }
  }

  /** Fill `buf[from..8]` with zeros. */
  method PadZeros(buf: array<byte>, from: nat)
    requires from <= 8 <= buf.Length
    modifies buf
    ensures buf[from..8] == seq<byte>(8 - from, _ => ZERO) && buf[8..] == old(buf[8..])
  {
    var i := from;
    while i < 8
      invariant from <= i <= 8 && buf[8..] == old(buf[8..])
      invariant forall j :: from <= j < i ==> buf[j] == ZERO
    {
      buf[i] := ZERO;
      i := i + 1;
    }
  }

  /** %#x: digits go to offset 8, zeros fill up from the digit count, and printing starts there. */
  method PrintAlternateHex(value: nat, buf: array<byte>) returns (out: seq<byte>)
    requires value < UINT32 && buf.Length == 64
    modifies buf
    ensures |out| == 8 && Decode(out, 16) == value
  {
    NumeralFits(value, 16);
    NumeralRoundTrip(value, 16);
    ghost var digits := Numeral(value, 16);
    Itoa(value, buf, 8, 16);
    var n := PrintedLength(buf, 8, |digits|);
    ghost var tail := buf[8..];
    PadZeros(buf, n);
    ghost var zeros := seq<byte>(8 - n, _ => ZERO);
    assert buf[8..8 + n] == tail[..n] == digits && buf[8 + n] == tail[n] == NUL;
    Join(buf[..], n, 8, 8 + n);
    LeadingZeros(8 - n, digits, 16);
    out := Printed(buf, n, 8);
  }

  method PrintedLength(buf: array<byte>, at: nat, ghost n: nat) returns (len: nat)
    requires at + n < buf.Length && buf[at + n] == NUL && NUL !in buf[at..at + n]
    ensures len == n
  {
    var s := Printed(buf, at, n);
    return |s|;
  }

  /** %d, for every 32-bit value: the negation of the smallest one wraps to itself, and is right. */
  method PrintSigned(value: int, buf: array<byte>) returns (out: seq<byte>)
    requires -0x8000_0000 <= value < 0x8000_0000 && buf.Length >= 36
    modifies buf
    ensures value >= 0 ==> out == Numeral(value, 10)
    ensures value < 0 ==> out == [MINUS] + Numeral(-value, 10)
  {
    if value < 0 {
      buf[0] := MINUS;
      var negated := if value == -0x8000_0000 then value else -value;
      var magnitude := if negated < 0 then negated + UINT32 else negated;
      NumeralFits(magnitude, 10);
      Itoa(magnitude, buf, 1, 10);
      ghost var n := |Numeral(magnitude, 10)|;
      assert buf[0] == buf[..1][0];
      assert buf[0..1 + n] == [MINUS] + buf[1..1 + n];
      out := Printed(buf, 0, 1 + n);
    } else {
      NumeralFits(value, 10);
      Itoa(value, buf, 0, 10);
      out := Printed(buf, 0, |Numeral(value, 10)|);
    }
  }
}
