/** The `grep` program's sliding buffer: which lines it searches, what it prints, and when that is right. */
module Grep {
  import opened Common
  import opened FileSystem

  const BUFSIZE := 1024

  // ----- lines and matches

  predicate Unbroken(s: seq<byte>) {
    forall j :: 0 <= j < |s| ==> s[j] != NEWLINE
  }

  /** Index of the first newline, or the length. */
  function FirstBreak(s: seq<byte>): (i: nat)
    ensures i <= |s| && (i < |s| ==> s[i] == NEWLINE) && forall j :: 0 <= j < i ==> s[j] != NEWLINE
  {
    if s == [] || s[0] == NEWLINE then 0 else 1 + FirstBreak(s[1..])
  }

  lemma FirstBreakIs(s: seq<byte>, i: nat)
    requires i <= |s| && (i < |s| ==> s[i] == NEWLINE) && forall j :: 0 <= j < i ==> s[j] != NEWLINE
    ensures FirstBreak(s) == i
  {
  }

  /** The pieces between newlines; a final newline is followed by an empty piece. */
  function Lines(s: seq<byte>): (r: seq<seq<byte>>)
    ensures r != []
    decreases |s|
  {
    var i := FirstBreak(s);
    if i == |s| then [s] else [s[..i]] + Lines(s[i + 1..])
  }

  predicate At(pat: seq<byte>, line: seq<byte>, i: int) {
    0 <= i && i + |pat| <= |line| && line[i..i + |pat|] == pat
  }

  ghost predicate Occurs(pat: seq<byte>, line: seq<byte>) {
    exists i :: At(pat, line, i)
  }

  /** The empty pattern matches nothing; the program is never started with it. */
  ghost predicate Hit(pat: seq<byte>, line: seq<byte>) {
    pat != [] && Occurs(pat, line)
  }

  ghost function Matching(pat: seq<byte>, lines: seq<seq<byte>>): seq<seq<byte>> {
    if lines == [] then []
    else (if Hit(pat, lines[0]) then [lines[0]] else []) + Matching(pat, lines[1..])
  }

  lemma {:induction false} MatchingConcat(pat: seq<byte>, a: seq<seq<byte>>, b: seq<seq<byte>>)
    ensures Matching(pat, a + b) == Matching(pat, a) + Matching(pat, b)
  {
    if a == [] {
      assert a + b == b;
    } else {
      assert (a + b)[0] == a[0] && (a + b)[1..] == a[1..] + b;
      MatchingConcat(pat, a[1..], b);
    }
  }

  lemma EmptyLineMisses(pat: seq<byte>)
    ensures Matching(pat, [[]]) == []
  {
  }

  lemma {:induction false} MatchingHits(pat: seq<byte>, lines: seq<seq<byte>>, k: nat)
    requires k < |Matching(pat, lines)|
    ensures Hit(pat, Matching(pat, lines)[k]) && Matching(pat, lines)[k] in lines
  {
    var first: seq<seq<byte>> := if Hit(pat, lines[0]) then [lines[0]] else [];
    if k >= |first| {
      MatchingHits(pat, lines[1..], k - |first|);
    }
  }

  lemma {:induction false} MatchingContains(pat: seq<byte>, lines: seq<seq<byte>>, k: nat)
    requires k < |lines| && Hit(pat, lines[k])
    ensures lines[k] in Matching(pat, lines)
  {
    if k > 0 {
      MatchingContains(pat, lines[1..], k - 1);
    }
  }

  // ----- what is printed

  predicate Clean(s: seq<byte>) {
    forall j :: 0 <= j < |s| ==> s[j] != NUL
  }

  predicate AllNul(s: seq<byte>) {
    forall j :: 0 <= j < |s| ==> s[j] == NUL
  }

  /** What the program is given to search for: arguments are a string, and without any it does not start. */
  predicate IsPattern(pat: seq<byte>) {
    pat != [] && Clean(pat)
  }

  /** Where the search stops: the first byte is compared as a signed `char` with an unsigned byte, so 128
      and more are never found; the terminator of an empty pattern is found at a NUL. */
  ghost predicate Catches(pat: seq<byte>, line: seq<byte>) {
    if pat == [] then NUL in line else pat[0] < 128 && Occurs(pat, line)
  }

  /** Lines are printed as strings. */
  ghost function Output(pat: seq<byte>, lines: seq<seq<byte>>): seq<seq<byte>> {
    if lines == [] then []
    else (if Catches(pat, lines[0]) then [CString(lines[0])] else []) + Output(pat, lines[1..])
  }

  lemma {:induction false} OutputConcat(pat: seq<byte>, a: seq<seq<byte>>, b: seq<seq<byte>>)
    ensures Output(pat, a + b) == Output(pat, a) + Output(pat, b)
  {
    if a == [] {
      assert a + b == b;
    } else {
      assert (a + b)[0] == a[0] && (a + b)[1..] == a[1..] + b;
      OutputConcat(pat, a[1..], b);
    }
  }

  predicate AllClean(lines: seq<seq<byte>>) {
    forall k :: 0 <= k < |lines| ==> Clean(lines[k])
  }

  function AsStrings(lines: seq<seq<byte>>): seq<seq<byte>> {
    if lines == [] then [] else [CString(lines[0])] + AsStrings(lines[1..])
  }

  lemma {:induction false} AsStringsExact(lines: seq<seq<byte>>)
    ensures |AsStrings(lines)| == |lines| && (AsStrings(lines) == lines <==> AllClean(lines))
  {
    if lines != [] {
      var tail := lines[1..];
      AsStringsExact(tail);
      assert AsStrings(lines) == lines <==> CString(lines[0]) == lines[0] && AsStrings(tail) == tail by {
        assert lines == [lines[0]] + tail;
      }
      assert CString(lines[0]) == lines[0] <==> Clean(lines[0]);
      assert AllClean(lines) <==> Clean(lines[0]) && AllClean(tail) by {
        assert forall k :: 0 < k < |lines| ==> lines[k] == tail[k - 1];
      }
    }
  }

  /** A pattern that starts below 128 prints its matches as strings. */
  lemma {:induction false} OutputIs(pat: seq<byte>, lines: seq<seq<byte>>)
    requires pat != [] && pat[0] < 128
    ensures Output(pat, lines) == AsStrings(Matching(pat, lines))
  {
    if lines != [] {
      var later := Matching(pat, lines[1..]);
      OutputIs(pat, lines[1..]);
      if Hit(pat, lines[0]) {
        assert ([lines[0]] + later)[1..] == later;
      } else {
        assert [] + later == later && [] + AsStrings(later) == AsStrings(later);
      }
    }
  }

  /** Any other prints nothing. */
  lemma {:induction false} HighOutput(pat: seq<byte>, lines: seq<seq<byte>>)
    requires pat != [] && pat[0] >= 128
    ensures Output(pat, lines) == []
  {
    if lines != [] {
      HighOutput(pat, lines[1..]);
    }
  }

  /** No NUL is ever printed. */
  lemma {:induction false} OutputClean(pat: seq<byte>, lines: seq<seq<byte>>)
    ensures AllClean(Output(pat, lines))
  {
    if lines != [] {
      OutputClean(pat, lines[1..]);
    }
  }

  /** A line without NULs, or of nothing else. */
  predicate Plain(line: seq<byte>) {
    Clean(line) || AllNul(line)
  }

  predicate AllPlain(lines: seq<seq<byte>>) {
    forall k :: 0 <= k < |lines| ==> Plain(lines[k])
  }

  lemma NulLineMisses(pat: seq<byte>, line: seq<byte>)
    requires IsPattern(pat) && AllNul(line)
    ensures !Hit(pat, line)
  {
    forall i
      ensures !At(pat, line, i)
    {
      if 0 <= i && i + |pat| <= |line| {
        assert line[i..i + |pat|][0] == line[i];
      }
    }
  }

  /** Among plain lines the output is the matches. */
  lemma PlainOutput(pat: seq<byte>, lines: seq<seq<byte>>)
    requires IsPattern(pat) && pat[0] < 128 && AllPlain(lines)
    ensures Output(pat, lines) == Matching(pat, lines)
  {
    OutputIs(pat, lines);
    var found := Matching(pat, lines);
    forall k | 0 <= k < |found|
      ensures Clean(found[k])
    {
      MatchingHits(pat, lines, k);
      if AllNul(found[k]) {
        NulLineMisses(pat, found[k]);
      }
    }
    AsStringsExact(found);
  }

  // ----- one buffer

  /** The terminated lines of a buffer. */
  function Done(b: seq<byte>): seq<seq<byte>>
    decreases |b|
  {
    var i := FirstBreak(b);
    if i == |b| then [] else [b[..i]] + Done(b[i + 1..])
  }

  /** What follows the last newline. */
  function Left(b: seq<byte>): (r: seq<byte>)
    ensures |r| <= |b| && Unbroken(r) && (|r| == |b| ==> Unbroken(b))
    decreases |b|
  {
    var i := FirstBreak(b);
    if i == |b| then b else Left(b[i + 1..])
  }

  lemma Associate(a: seq<seq<byte>>, b: seq<seq<byte>>, c: seq<seq<byte>>)
    ensures a + (b + c) == a + b + c
  {
  }

  lemma {:induction false} LinesOfConcat(b: seq<byte>, rest: seq<byte>)
    ensures Lines(b + rest) == Done(b) + Lines(Left(b) + rest)
    decreases |b|
  {
    var i := FirstBreak(b);
    if i == |b| {
      assert Done(b) == [] && Left(b) == b;
    } else {
      var tail := b[i + 1..];
      FirstBreakIs(b + rest, i);
      assert (b + rest)[..i] == b[..i] && (b + rest)[i + 1..] == tail + rest;
      LinesOfConcat(tail, rest);
      Associate([b[..i]], Done(tail), Lines(Left(tail) + rest));
    }
  }

  /** The lines one pass searches: the terminated ones, or the whole buffer when none is. */
  function Emit(b: seq<byte>): seq<seq<byte>> {
    if Unbroken(b) then [b] else Done(b)
  }

  /** A newline that has been passed over is a NUL. */
  function Scrub(c: byte): byte {
    if c == NEWLINE then NUL else c
  }

  function Scrubbed(b: seq<byte>): (r: seq<byte>)
    ensures |r| == |b| && Unbroken(r) && forall j :: 0 <= j < |b| ==> r[j] == Scrub(b[j])
  {
    if b == [] then [] else [Scrub(b[0])] + Scrubbed(b[1..])
  }

  /** The unfinished line `left` of buffer `b` once a string copy has moved it to the front: the copy ends
      at a NUL, and behind that stand the old bytes. */
  function Moved(b: seq<byte>, left: seq<byte>): (r: seq<byte>)
    requires |left| <= |b| && Unbroken(left)
    ensures |r| == |left| && Unbroken(r) && (Clean(left) ==> r == left)
    decreases |left|
  {
    if left == [] then []
    else if left[0] == NUL then [NUL] + Scrubbed(b[1..|left|])
    else [left[0]] + Moved(b[1..], left[1..])
  }

  /** Byte for byte. */
  lemma {:induction false} MovedByte(b: seq<byte>, left: seq<byte>, j: nat)
    requires |left| <= |b| && Unbroken(left) && j < |left|
    ensures var k := |CString(left)|;
            Moved(b, left)[j] == if j < k then left[j] else if j == k then NUL else Scrub(b[j])
    decreases |left|
  {
    if left[0] == NUL {
      var behind := b[1..|left|];
      assert Moved(b, left) == [NUL] + Scrubbed(behind) && CString(left) == [];
      assert j > 0 ==> behind[j - 1] == b[j];
    } else {
      var later := left[1..];
      assert Moved(b, left) == [left[0]] + Moved(b[1..], later) && |CString(left)| == 1 + |CString(later)|;
      if j > 0 {
        MovedByte(b[1..], later, j - 1);
      }
    }
  }

  /** What a pass keeps for the next one. */
  function Kept(b: seq<byte>): (r: seq<byte>)
    ensures |r| <= |b| && Unbroken(r) && (b != [] ==> |r| < |b|)
  {
    if Unbroken(b) then [] else Moved(b, Left(b))
  }

  /** The unfinished line is the end of the buffer. */
  lemma {:induction false} LeftByte(b: seq<byte>, j: nat)
    requires j < |Left(b)|
    ensures Left(b)[j] == b[|b| - |Left(b)| + j]
    decreases |b|
  {
    var i := FirstBreak(b);
    if i < |b| {
      LeftByte(b[i + 1..], j);
    }
  }

  // ----- all passes

  function Count(size: nat, read: (nat, nat) -> nat, left: seq<byte>, rest: seq<byte>): nat
    requires |rest| <= size && |left| < BUFSIZE
  {
    read(size - |rest|, BUFSIZE - |left|)
  }

  /** The lines searched when `left` is in the buffer and `rest` still to be read. */
  ghost function Searched(size: nat, read: (nat, nat) -> nat, left: seq<byte>, rest: seq<byte>): seq<seq<byte>>
    requires ValidRead(size, read) && |rest| <= size && |left| < BUFSIZE
    decreases |rest|
  {
    var cnt := Count(size, read, left, rest);
    var buffer := left + rest[..cnt];
    if cnt == 0 then Emit(buffer) else Emit(buffer) + Searched(size, read, Kept(buffer), rest[cnt..])
  }

  function FirstLine(s: seq<byte>): seq<byte> {
    s[..FirstBreak(s)]
  }

  /** A pass that does no harm: it cuts no line, unless of NULs only, and what it keeps is the unfinished line. */
  predicate Sound(buffer: seq<byte>, rest: seq<byte>) {
    if Unbroken(buffer) then rest == [] || rest[0] == NEWLINE || AllNul(FirstLine(buffer + rest))
    else Kept(buffer) == Left(buffer)
  }

  ghost predicate NeverCuts(size: nat, read: (nat, nat) -> nat, left: seq<byte>, rest: seq<byte>)
    requires ValidRead(size, read) && |rest| <= size && |left| < BUFSIZE
    decreases |rest|
  {
    var cnt := Count(size, read, left, rest);
    var buffer := left + rest[..cnt];
    cnt > 0 ==> Sound(buffer, rest[cnt..]) && NeverCuts(size, read, Kept(buffer), rest[cnt..])
  }

  /** What one pass finds, and what is left to the others. */
  lemma SearchedStep(pat: seq<byte>, size: nat, read: (nat, nat) -> nat, left: seq<byte>, rest: seq<byte>)
    requires ValidRead(size, read) && |rest| <= size && |left| < BUFSIZE
    ensures var cnt := Count(size, read, left, rest);
            var buffer := left + rest[..cnt];
            && |Kept(buffer)| < BUFSIZE
            && Matching(pat, Searched(size, read, left, rest)) ==
               if cnt == 0 then Matching(pat, Emit(buffer))
               else Matching(pat, Emit(buffer)) + Matching(pat, Searched(size, read, Kept(buffer), rest[cnt..]))
  {
    var cnt := Count(size, read, left, rest);
    var buffer := left + rest[..cnt];
    if cnt > 0 {
      MatchingConcat(pat, Emit(buffer), Searched(size, read, Kept(buffer), rest[cnt..]));
    }
  }

  /** What one pass prints, and what is left to the others. */
  lemma OutputStep(pat: seq<byte>, size: nat, read: (nat, nat) -> nat, left: seq<byte>, rest: seq<byte>)
    requires ValidRead(size, read) && |rest| <= size && |left| < BUFSIZE
    ensures var cnt := Count(size, read, left, rest);
            var buffer := left + rest[..cnt];
            && |Kept(buffer)| < BUFSIZE
            && Output(pat, Searched(size, read, left, rest)) ==
               if cnt == 0 then Output(pat, Emit(buffer))
               else Output(pat, Emit(buffer)) + Output(pat, Searched(size, read, Kept(buffer), rest[cnt..]))
  {
    var cnt := Count(size, read, left, rest);
    var buffer := left + rest[..cnt];
    if cnt > 0 {
      OutputConcat(pat, Emit(buffer), Searched(size, read, Kept(buffer), rest[cnt..]));
    }
  }

  /** The lines of a text are its first line and those of the rest. */
  function LaterLines(s: seq<byte>): seq<seq<byte>> {
    var i := FirstBreak(s);
    if i == |s| then [] else Lines(s[i + 1..])
  }

  lemma LinesAre(s: seq<byte>)
    ensures Lines(s) == [FirstLine(s)] + LaterLines(s)
  {
    if FirstBreak(s) == |s| {
      assert FirstLine(s) == s;
    }
  }

  lemma FirstLineMatches(pat: seq<byte>, s: seq<byte>)
    ensures Matching(pat, Lines(s)) == Matching(pat, [FirstLine(s)]) + Matching(pat, LaterLines(s))
  {
    LinesAre(s);
    MatchingConcat(pat, [FirstLine(s)], LaterLines(s));
  }

  lemma PrependBreak(a: seq<byte>, b: seq<byte>)
    requires Unbroken(a)
    ensures FirstBreak(a + b) == |a| + FirstBreak(b)
  {
    FirstBreakIs(a + b, |a| + FirstBreak(b));
  }

  lemma PrependSlices(a: seq<byte>, b: seq<byte>, i: nat)
    requires i <= |b|
    ensures (a + b)[..|a| + i] == a + b[..i] && (i < |b| ==> (a + b)[|a| + i + 1..] == b[i + 1..])
  {
  }

  /** A beginning without newline belongs to the first line and changes no other. */
  lemma Prepend(a: seq<byte>, b: seq<byte>)
    requires Unbroken(a)
    ensures FirstLine(a + b) == a + FirstLine(b) && LaterLines(a + b) == LaterLines(b)
  {
    PrependBreak(a, b);
    PrependSlices(a, b, FirstBreak(b));
  }

  /** An unterminated buffer that is a whole line, or a piece of a line of NULs. */
  lemma PieceMatches(pat: seq<byte>, buffer: seq<byte>, rest: seq<byte>)
    requires IsPattern(pat) && Unbroken(buffer) && Sound(buffer, rest)
    ensures Matching(pat, Lines(buffer + rest)) == Matching(pat, [buffer]) + Matching(pat, Lines(rest))
  {
    var first := FirstLine(rest);
    Prepend(buffer, rest);
    FirstLineMatches(pat, buffer + rest);
    FirstLineMatches(pat, rest);
    if rest == [] || rest[0] == NEWLINE {
      assert first == [] && buffer + first == buffer;
      EmptyLineMisses(pat);
    } else {
      assert AllNul(buffer) && AllNul(first) by {
        assert forall j :: 0 <= j < |buffer| ==> (buffer + first)[j] == buffer[j];
        assert forall j :: 0 <= j < |first| ==> (buffer + first)[|buffer| + j] == first[j];
      }
      NulLineMisses(pat, buffer);
      NulLineMisses(pat, first);
      NulLineMisses(pat, buffer + first);
    }
  }

  /** A pass that does no harm searches the next lines of the file. */
  lemma PassMatches(pat: seq<byte>, buffer: seq<byte>, rest: seq<byte>)
    requires IsPattern(pat) && Sound(buffer, rest)
    ensures Matching(pat, Lines(buffer + rest)) ==
            Matching(pat, Emit(buffer)) + Matching(pat, Lines(Kept(buffer) + rest))
  {
    if Unbroken(buffer) {
      assert [] + rest == rest;
      PieceMatches(pat, buffer, rest);
    } else {
      LinesOfConcat(buffer, rest);
      MatchingConcat(pat, Done(buffer), Lines(Left(buffer) + rest));
    }
  }

  /** When no pass does harm, what is searched matches exactly where the file's lines do. */
  lemma {:induction false} SearchedAreTheLines(pat: seq<byte>, size: nat, read: (nat, nat) -> nat,
                                               left: seq<byte>, rest: seq<byte>)
    requires ValidRead(size, read) && |rest| <= size && |left| < BUFSIZE && IsPattern(pat)
    requires Unbroken(left) && NeverCuts(size, read, left, rest)
    ensures Matching(pat, Searched(size, read, left, rest)) == Matching(pat, Lines(left + rest))
    decreases |rest|
  {
    var cnt := Count(size, read, left, rest);
    var buffer, after := left + rest[..cnt], rest[cnt..];
    if cnt == 0 {
      LastPass(size, read, left, rest);
    } else {
      HarmlessStep(size, read, left, rest, cnt, buffer, after);
      PassMatches(pat, buffer, after);
      SearchedAreTheLines(pat, size, read, Kept(buffer), after);
      SearchedNext(pat, size, read, left, rest, cnt, buffer, after);
    }
  }

  lemma HarmlessStep(size: nat, read: (nat, nat) -> nat, left: seq<byte>, rest: seq<byte>, cnt: nat,
                     buffer: seq<byte>, after: seq<byte>)
    requires ValidRead(size, read) && |rest| <= size && |left| < BUFSIZE
    requires cnt == Count(size, read, left, rest) > 0 && buffer == left + rest[..cnt] && after == rest[cnt..]
    ensures |Kept(buffer)| < BUFSIZE
    ensures NeverCuts(size, read, left, rest) <==> Sound(buffer, after) && NeverCuts(size, read, Kept(buffer), after)
  {
  }

  lemma SearchedNext(pat: seq<byte>, size: nat, read: (nat, nat) -> nat, left: seq<byte>, rest: seq<byte>, cnt: nat,
                     buffer: seq<byte>, after: seq<byte>)
    requires ValidRead(size, read) && |rest| <= size && |left| < BUFSIZE
    requires cnt == Count(size, read, left, rest) > 0 && buffer == left + rest[..cnt] && after == rest[cnt..]
    requires |Kept(buffer)| < BUFSIZE
    requires Matching(pat, Lines(buffer + after)) ==
             Matching(pat, Emit(buffer)) + Matching(pat, Lines(Kept(buffer) + after))
    requires Matching(pat, Searched(size, read, Kept(buffer), after)) == Matching(pat, Lines(Kept(buffer) + after))
    ensures Matching(pat, Searched(size, read, left, rest)) == Matching(pat, Lines(left + rest))
  {
    Parts(left, rest, cnt);
    SearchedStep(pat, size, read, left, rest);
  }

  lemma Parts(left: seq<byte>, rest: seq<byte>, cnt: nat)
    requires cnt <= |rest|
    ensures left + rest == (left + rest[..cnt]) + rest[cnt..]
  {
  }

  /** At the end of the file the kept line is searched. */
  lemma LastPass(size: nat, read: (nat, nat) -> nat, left: seq<byte>, rest: seq<byte>)
    requires ValidRead(size, read) && |rest| <= size && |left| < BUFSIZE && Unbroken(left)
    requires Count(size, read, left, rest) == 0
    ensures Searched(size, read, left, rest) == Lines(left + rest) == [left]
  {
    assert left + rest == left && left + rest[..0] == left;
    FirstBreakIs(left, |left|);
  }

  // ----- exactly when the answer is right

  /** What the program prints. */
  ghost function Printed(pat: seq<byte>, file: seq<byte>, read: (nat, nat) -> nat): seq<seq<byte>>
    requires ValidRead(|file|, read)
  {
    Output(pat, Searched(|file|, read, [], file))
  }

  /** It prints what it should: the lines that contain the pattern. */
  ghost predicate RightFor(pat: seq<byte>, file: seq<byte>, read: (nat, nat) -> nat)
    requires ValidRead(|file|, read)
  {
    Printed(pat, file, read) == Matching(pat, Lines(file))
  }

  ghost predicate AllRight(file: seq<byte>, read: (nat, nat) -> nat)
    requires ValidRead(|file|, read)
  {
    forall pat :: IsPattern(pat) ==> RightFor(pat, file, read)
  }

  predicate Ascii(file: seq<byte>) {
    forall j :: 0 <= j < |file| ==> file[j] < 128
  }

  /** When no pass does harm, a pattern is answered rightly exactly when it starts below 128 and occurs
      only in lines without NULs, or when it does not occur at all. */
  lemma RightForPattern(pat: seq<byte>, file: seq<byte>, read: (nat, nat) -> nat)
    requires ValidRead(|file|, read) && NeverCuts(|file|, read, [], file) && IsPattern(pat)
    ensures RightFor(pat, file, read) <==>
            var found := Matching(pat, Lines(file)); found == [] || (pat[0] < 128 && AllClean(found))
  {
    assert [] + file == file;
    var searched := Searched(|file|, read, [], file);
    SearchedAreTheLines(pat, |file|, read, [], file);
    AsStringsExact(Matching(pat, searched));
    if pat[0] < 128 {
      OutputIs(pat, searched);
    } else {
      HighOutput(pat, searched);
    }
  }

  // ----- bytes of 128 and more

  /** Every byte but a newline is in some line. */
  lemma {:induction false} ByteOnLine(file: seq<byte>, j: nat)
    requires j < |file| && file[j] != NEWLINE
    ensures Matching([file[j]], Lines(file)) != []
    decreases |file|
  {
    var pat := [file[j]];
    var i := FirstBreak(file);
    FirstLineMatches(pat, file);
    if j < i {
      assert At(pat, FirstLine(file), j);
    } else {
      assert file[i + 1..][j - i - 1] == file[j];
      ByteOnLine(file[i + 1..], j - i - 1);
    }
  }

  /** A pattern that starts with 128 or more prints nothing, so a file with such a byte is answered wrongly. */
  lemma HighBytesAreMissed(file: seq<byte>, j: nat, read: (nat, nat) -> nat)
    requires ValidRead(|file|, read) && j < |file| && file[j] >= 128
    ensures Printed([file[j]], file, read) == [] && !RightFor([file[j]], file, read)
  {
    HighOutput([file[j]], Searched(|file|, read, [], file));
    ByteOnLine(file, j);
  }

  lemma SingleHit(c: byte, line: seq<byte>, j: nat)
    requires j < |line| && line[j] == c
    ensures Hit([c], line)
  {
    assert At([c], line, j);
  }

  /** The file is the line "\xE9", and so is the pattern. */
  lemma HighByteExample(read: (nat, nat) -> nat)
    requires ValidRead(1, read)
    ensures Printed([0xE9], [0xE9], read) == [] && Matching([0xE9], Lines([0xE9])) == [[0xE9]]
  {
    HighBytesAreMissed([0xE9], 0, read);
    FirstBreakIs([0xE9], 1);
    SingleHit(0xE9, [0xE9], 0);
  }

  lemma HighPatternOffLine(pat: seq<byte>, line: seq<byte>)
    requires Ascii(line) && pat != [] && pat[0] >= 128
    ensures Matching(pat, [line]) == []
  {
    forall k
      ensures !At(pat, line, k)
    {
      if 0 <= k && k + |pat| <= |line| {
        assert line[k..k + |pat|][0] == line[k];
      }
    }
  }

  /** In a file of bytes below 128 such a pattern occurs nowhere. */
  lemma {:induction false} HighPatternMisses(pat: seq<byte>, file: seq<byte>)
    requires Ascii(file) && pat != [] && pat[0] >= 128
    ensures Matching(pat, Lines(file)) == []
    decreases |file|
  {
    var i := FirstBreak(file);
    FirstLineMatches(pat, file);
    HighPatternOffLine(pat, FirstLine(file));
    if i < |file| {
      HighPatternMisses(pat, file[i + 1..]);
    }
  }

  // ----- NULs

  /** A line that holds a NUL and another byte is never printed whole, so the pattern of that byte is
      answered wrongly, however the file is read. */
  lemma NulLineIsCut(file: seq<byte>, read: (nat, nat) -> nat, k: nat, i: nat, j: nat)
    requires ValidRead(|file|, read) && k < |Lines(file)| && i < |Lines(file)[k]| && j < |Lines(file)[k]|
    requires Lines(file)[k][i] == NUL && Lines(file)[k][j] != NUL
    ensures !RightFor([Lines(file)[k][j]], file, read)
  {
    var line := Lines(file)[k];
    var pat := [line[j]];
    SingleHit(line[j], line, j);
    MatchingContains(pat, Lines(file), k);
    OutputClean(pat, Searched(|file|, read, [], file));
  }

  // ----- passes that do harm

  lemma Cancel(a: seq<seq<byte>>, b: seq<seq<byte>>, c: seq<seq<byte>>)
    requires a + b == a + c
    ensures b == c
  {
    assert b == (a + b)[|a|..] && c == (a + c)[|a|..];
  }

  lemma PlainParts(a: seq<byte>, b: seq<byte>)
    requires Plain(a + b)
    ensures Plain(a) && Plain(b)
  {
    assert forall j :: 0 <= j < |a| ==> (a + b)[j] == a[j];
    assert forall j :: 0 <= j < |b| ==> (a + b)[|a| + j] == b[j];
  }

  lemma PlainConcat(a: seq<seq<byte>>, b: seq<seq<byte>>)
    requires AllPlain(a + b)
    ensures AllPlain(a) && AllPlain(b)
  {
    assert forall k :: 0 <= k < |a| ==> (a + b)[k] == a[k];
    assert forall k :: 0 <= k < |b| ==> (a + b)[|a| + k] == b[k];
  }

  /** A buffer of plain lines, and what follows it. */
  lemma PlainPass(buffer: seq<byte>, rest: seq<byte>)
    requires AllPlain(Lines(buffer + rest))
    ensures AllPlain(Emit(buffer))
    ensures AllPlain(Lines((if Unbroken(buffer) then [] else Left(buffer)) + rest))
  {
    if Unbroken(buffer) {
      Prepend(buffer, rest);
      LinesAre(buffer + rest);
      LinesAre(rest);
      PlainConcat([buffer + FirstLine(rest)], LaterLines(rest));
      assert Plain([buffer + FirstLine(rest)][0]);
      PlainParts(buffer, FirstLine(rest));
      assert [] + rest == rest;
    } else {
      LinesOfConcat(buffer, rest);
      PlainConcat(Done(buffer), Lines(Left(buffer) + rest));
    }
  }

  /** A cut line shows: its first piece is printed instead of it, for the pattern of its first byte. */
  lemma FirstPieceDiffers(buffer: seq<byte>, rest: seq<byte>, later: seq<seq<byte>>)
    requires buffer != [] && Unbroken(buffer) && rest != [] && rest[0] != NEWLINE && buffer[0] < 128
    ensures Output([buffer[0]], Emit(buffer) + later) != Matching([buffer[0]], Lines(buffer + rest))
  {
    var pat := [buffer[0]];
    var all := buffer + rest;
    SingleHit(buffer[0], buffer, 0);
    assert (Emit(buffer) + later)[0] == buffer;
    assert Output(pat, Emit(buffer) + later)[0] == CString(buffer);
    Prepend(buffer, rest);
    LinesAre(all);
    assert FirstLine(all)[0] == buffer[0] && |FirstLine(all)| > |buffer|;
    SingleHit(buffer[0], FirstLine(all), 0);
    assert Matching(pat, Lines(all))[0] == FirstLine(all);
  }

  /** The first line searched starts with what was kept. */
  lemma KeptComesFirst(size: nat, read: (nat, nat) -> nat, left: seq<byte>, rest: seq<byte>)
    requires ValidRead(size, read) && |rest| <= size && |left| < BUFSIZE && Unbroken(left) && left != []
    ensures var searched := Searched(size, read, left, rest); searched != [] && left <= searched[0]
  {
    var cnt := Count(size, read, left, rest);
    Prepend(left, rest[..cnt]);
    assert Emit(left + rest[..cnt]) != [] && left <= Emit(left + rest[..cnt])[0];
  }

  /** Stale bytes behind a NUL show: an empty line is printed for one of them. */
  lemma StaleByteShows(c: byte, j: nat, size: nat, read: (nat, nat) -> nat, left: seq<byte>, rest: seq<byte>)
    requires ValidRead(size, read) && |rest| <= size && |left| < BUFSIZE && Unbroken(left)
    requires j < |left| && left[j] == c && 0 < c < 128 && left[0] == NUL
    ensures [] in Output([c], Searched(size, read, left, rest))
  {
    KeptComesFirst(size, read, left, rest);
    var first := Searched(size, read, left, rest)[0];
    assert first[j] == c && first[0] == NUL;
    SingleHit(c, first, j);
    assert Output([c], Searched(size, read, left, rest))[0] == [];
  }

  /** What a spoiled unfinished line is: NULs, behind which bytes of the buffer have come to stand. */
  lemma SpoiledLeft(buffer: seq<byte>) returns (j: nat)
    requires !Unbroken(buffer) && Plain(Left(buffer)) && Kept(buffer) != Left(buffer)
    ensures j < |Kept(buffer)| && Kept(buffer)[0] == NUL && Kept(buffer)[j] != NUL && Kept(buffer)[j] in buffer
  {
    var left, kept := Left(buffer), Kept(buffer);
    assert AllNul(left) && |CString(left)| == 0;
    j :| 0 <= j < |left| && kept[j] != left[j];
    MovedByte(buffer, left, 0);
    MovedByte(buffer, left, j);
  }

  /** A pass that does harm shows at once. */
  lemma HarmShows(size: nat, read: (nat, nat) -> nat, buffer: seq<byte>, after: seq<byte>) returns (pat: seq<byte>)
    requires ValidRead(size, read) && |after| <= size && buffer != [] && |Kept(buffer)| < BUFSIZE
    requires !Sound(buffer, after) && AllPlain(Lines(buffer + after)) && Ascii(buffer)
    ensures IsPattern(pat) && pat[0] < 128
    ensures Output(pat, Emit(buffer) + Searched(size, read, Kept(buffer), after)) !=
            Matching(pat, Lines(buffer + after))
  {
    var later := Searched(size, read, Kept(buffer), after);
    if Unbroken(buffer) {
      Prepend(buffer, after);
      LinesAre(buffer + after);
      assert Plain(Lines(buffer + after)[0]);
      assert FirstLine(buffer + after)[0] == buffer[0];
      FirstPieceDiffers(buffer, after, later);
      return [buffer[0]];
    }
    LinesOfConcat(buffer, after);
    PlainConcat(Done(buffer), Lines(Left(buffer) + after));
    Prepend(Left(buffer), after);
    LinesAre(Left(buffer) + after);
    assert Plain(Lines(Left(buffer) + after)[0]);
    PlainParts(Left(buffer), FirstLine(after));
    var j := SpoiledLeft(buffer);
    pat := [Kept(buffer)[j]];
    StaleByteShows(pat[0], j, size, read, Kept(buffer), after);
    EmptyLineDiffers(pat, Emit(buffer), later, Lines(buffer + after));
  }

  lemma EmptyLineDiffers(pat: seq<byte>, a: seq<seq<byte>>, b: seq<seq<byte>>, lines: seq<seq<byte>>)
    requires |pat| == 1 && [] in Output(pat, b)
    ensures Output(pat, a + b) != Matching(pat, lines)
  {
    OutputConcat(pat, a, b);
    NoEmptyMatch(pat, lines);
    assert [] in Output(pat, a) + Output(pat, b);
  }

  lemma {:induction false} NoEmptyMatch(pat: seq<byte>, lines: seq<seq<byte>>)
    requires pat != []
    ensures [] !in Matching(pat, lines)
  {
    if lines != [] {
      NoEmptyMatch(pat, lines[1..]);
    }
  }

  /** And a later one shows in the end: among plain lines, some one-byte pattern is answered wrongly. */
  lemma {:induction false} CutShows(size: nat, read: (nat, nat) -> nat, left: seq<byte>, rest: seq<byte>)
      returns (pat: seq<byte>)
    requires ValidRead(size, read) && |rest| <= size && |left| < BUFSIZE && Unbroken(left)
    requires !NeverCuts(size, read, left, rest) && AllPlain(Lines(left + rest)) && Ascii(left) && Ascii(rest)
    ensures IsPattern(pat) && pat[0] < 128
    ensures Output(pat, Searched(size, read, left, rest)) != Matching(pat, Lines(left + rest))
    decreases |rest|
  {
    var cnt := Count(size, read, left, rest);
    var buffer, after := left + rest[..cnt], rest[cnt..];
    Parts(left, rest, cnt);
    HarmlessStep(size, read, left, rest, cnt, buffer, after);
    if !Sound(buffer, after) {
      pat := HarmShows(size, read, buffer, after);
    } else {
      PlainPass(buffer, after);
      AsciiKept(buffer, after);
      pat := CutShows(size, read, Kept(buffer), after);
      WrongLater(pat, size, read, left, rest, cnt, buffer, after);
    }
  }

  lemma AsciiKept(buffer: seq<byte>, rest: seq<byte>)
    requires Ascii(buffer) && Sound(buffer, rest)
    ensures Ascii(Kept(buffer))
  {
    forall j | 0 <= j < |Left(buffer)|
      ensures Left(buffer)[j] < 128
    {
      LeftByte(buffer, j);
    }
  }

  lemma WrongLater(pat: seq<byte>, size: nat, read: (nat, nat) -> nat, left: seq<byte>, rest: seq<byte>, cnt: nat,
                   buffer: seq<byte>, after: seq<byte>)
    requires ValidRead(size, read) && |rest| <= size && |left| < BUFSIZE && IsPattern(pat) && pat[0] < 128
    requires cnt == Count(size, read, left, rest) > 0 && buffer == left + rest[..cnt] && after == rest[cnt..]
    requires Sound(buffer, after) && AllPlain(Emit(buffer)) && |Kept(buffer)| < BUFSIZE
    requires Output(pat, Searched(size, read, Kept(buffer), after)) != Matching(pat, Lines(Kept(buffer) + after))
    ensures Output(pat, Searched(size, read, left, rest)) != Matching(pat, Lines(left + rest))
  {
    Parts(left, rest, cnt);
    OutputStep(pat, size, read, left, rest);
    PassMatches(pat, buffer, after);
    PlainOutput(pat, Emit(buffer));
    if Output(pat, Searched(size, read, left, rest)) == Matching(pat, Lines(left + rest)) {
      Cancel(Matching(pat, Emit(buffer)), Output(pat, Searched(size, read, Kept(buffer), after)),
             Matching(pat, Lines(Kept(buffer) + after)));
    }
  }

  // ----- the exact condition

  lemma RightWhenUncut(pat: seq<byte>, file: seq<byte>, read: (nat, nat) -> nat)
    requires ValidRead(|file|, read) && IsPattern(pat)
    requires NeverCuts(|file|, read, [], file) && Ascii(file) && AllPlain(Lines(file))
    ensures RightFor(pat, file, read)
  {
    RightForPattern(pat, file, read);
    if pat[0] >= 128 {
      HighPatternMisses(pat, file);
    } else {
      PlainOutput(pat, Lines(file));
      OutputClean(pat, Lines(file));
    }
  }

  lemma WrongWhenCut(file: seq<byte>, read: (nat, nat) -> nat)
    requires ValidRead(|file|, read) && !NeverCuts(|file|, read, [], file) && Ascii(file) && AllPlain(Lines(file))
    ensures !AllRight(file, read)
  {
    assert [] + file == file;
    var pat := CutShows(|file|, read, [], file);
    assert !RightFor(pat, file, read);
  }

  lemma WrongWhenMixed(file: seq<byte>, read: (nat, nat) -> nat)
    requires ValidRead(|file|, read) && !AllPlain(Lines(file))
    ensures !AllRight(file, read)
  {
    var k :| 0 <= k < |Lines(file)| && !Plain(Lines(file)[k]);
    var i :| 0 <= i < |Lines(file)[k]| && Lines(file)[k][i] == NUL;
    var j :| 0 <= j < |Lines(file)[k]| && Lines(file)[k][j] != NUL;
    NulLineIsCut(file, read, k, i, j);
    assert IsPattern([Lines(file)[k][j]]);
  }

  lemma WrongWhenHigh(file: seq<byte>, read: (nat, nat) -> nat)
    requires ValidRead(|file|, read) && !Ascii(file)
    ensures !AllRight(file, read)
  {
    var j :| 0 <= j < |file| && file[j] >= 128;
    HighBytesAreMissed(file, j, read);
    assert IsPattern([file[j]]);
  }

  /** For every file and every way of reading it: every pattern is answered rightly exactly when no byte is
      128 or more, no line mixes NULs with other bytes, and no pass does harm. */
  lemma RightExactlyWhenUncut(file: seq<byte>, read: (nat, nat) -> nat)
    requires ValidRead(|file|, read)
    ensures AllRight(file, read) <==>
            Ascii(file) && AllPlain(Lines(file)) && NeverCuts(|file|, read, [], file)
  {
    if !Ascii(file) {
      WrongWhenHigh(file, read);
    } else if !AllPlain(Lines(file)) {
      WrongWhenMixed(file, read);
    } else if NeverCuts(|file|, read, [], file) {
      forall pat | IsPattern(pat)
        ensures RightFor(pat, file, read)
      {
        RightWhenUncut(pat, file, read);
      }
    } else {
      WrongWhenCut(file, read);
    }
  }
}
