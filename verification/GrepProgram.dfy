/** The `grep` program itself: its buffer, scanned and refilled in place. */
module GrepProgram {
  import opened Common
  import opened Strings
  import opened FileSystem
  import opened Grep

  /** The bounded comparison of the pattern with the text at `at`; a NUL at `end` stops it there. */
  method ComparesEqual(data: array<byte>, at: nat, end: nat, pat: seq<byte>) returns (equal: bool)
    requires at <= end < data.Length && data[end] == NUL && Clean(pat)
    ensures equal <==> At(pat, data[at..end], 0)
  {
    var i := 0;
    while i < |pat| && data[at + i] == pat[i]
      invariant i <= |pat| && at + i <= end
      invariant forall j :: 0 <= j < i ==> data[at + j] == pat[j]
    {
      i := i + 1;
    }
    return i == |pat|;
  }

  /** The search of one line. The first byte is compared as a signed `char` with an unsigned one, so a
      byte of 128 or more never equals itself; that of an empty pattern is its terminator. */
  method SearchLine(data: array<byte>, start: nat, end: nat, pat: seq<byte>) returns (hit: bool)
    requires start <= end < data.Length && data[end] == NUL && Clean(pat)
    ensures hit <==> Catches(pat, data[start..end])
  {
    ghost var line := data[start..end];
    var first := if pat == [] then NUL else pat[0];
    var check := start;
    while check < end
      invariant start <= check <= end
      invariant pat == [] ==> forall i :: 0 <= i < check - start ==> line[i] != NUL
      invariant pat != [] && pat[0] < 128 ==> forall i :: 0 <= i < check - start ==> !At(pat, line, i)
    {
      if Signed(first) == data[check] {
        var equal := ComparesEqual(data, check, end, pat);
        assert At(pat, data[check..end], 0) <==> At(pat, line, check - start) by {
          assert data[check..end] == line[check - start..];
        }
        if equal {
          assert line[check - start] == data[check];
          return true;
        }
      } else {
        assert pat != [] && pat[0] < 128 ==> !At(pat, line, check - start);
      }
      check := check + 1;
    }
    return false;
  }

  method FindEnd(data: array<byte>, start: nat, last: nat) returns (end: nat)
    requires start <= last < data.Length
    ensures end == start + FirstBreak(data[start..last])
  {
    end := start;
    while end < last && data[end] != NEWLINE
      invariant start <= end <= last && forall j :: start <= j < end ==> data[j] != NEWLINE
    {
      end := end + 1;
    }
    FirstBreakIs(data[start..last], end - start);
  }

  /** The overlapping copy of the string at `from` to the front of the buffer; its terminator is `n` bytes on. */
  method MoveDown(data: array<byte>, from: nat, ghost n: nat)
    requires 0 < from && from + n < data.Length && data[from + n] == NUL
    requires forall j :: from <= j < from + n ==> data[j] != NUL
    modifies data
    ensures forall j :: 0 <= j < n ==> data[j] == old(data[from + j])
    ensures data[n] == NUL && forall j :: n < j < data.Length ==> data[j] == old(data[j])
  {
    var k := 0;
    while data[from + k] != NUL
      invariant k <= n
      invariant forall j :: 0 <= j < k ==> data[j] == old(data[from + j])
      invariant forall j :: k <= j < data.Length ==> data[j] == old(data[j])
      decreases n - k
    {
      data[k] := data[from + k];
      k := k + 1;
    }
    data[k] := NUL;
  }

  /** Terminate the line at `end`, search it, and print it, as a string, when it is hit. */
  method PrintIfHit(data: array<byte>, start: nat, end: nat, pat: seq<byte>) returns (printed: seq<seq<byte>>)
    requires start <= end < data.Length && Clean(pat)
    modifies data
    ensures data[..] == old(data[..])[end := NUL]
    ensures printed == Output(pat, [old(data[start..end])])
  {
    data[end] := NUL;
    var hit := SearchLine(data, start, end, pat);
    assert data[start..end] == old(data[start..end]);
    if !hit { return []; }
    var text := data[start..end + 1];
    assert text[..end - start] == data[start..end] && text[end - start] == NUL;
    var length := StrLen(text);
    TerminatedString(data[start..end], text);
    return [text[..length]];
  }

  lemma TerminatedString(s: seq<byte>, text: seq<byte>)
    requires |text| == |s| + 1 && text[..|s|] == s && text[|s|] == NUL
    ensures CString(text) == CString(s)
  {
    var n := |CString(s)|;
    assert text[..n] == s[..n];
    CStringUnique(text, n);
  }

  lemma DoneStep(pat: seq<byte>, b: seq<byte>)
    requires FirstBreak(b) < |b|
    ensures var i := FirstBreak(b);
            && Output(pat, Done(b)) == Output(pat, [b[..i]]) + Output(pat, Done(b[i + 1..]))
            && Left(b) == Left(b[i + 1..])
  {
    OutputConcat(pat, [b[..FirstBreak(b)]], Done(b[FirstBreak(b) + 1..]));
  }

  /** While a buffer is scanned: its end `rest` stands untouched at `start`, before it newlines have become
      NULs, and there is no newline behind it. */
  predicate Scanning(data: seq<byte>, buffer: seq<byte>, start: nat, rest: seq<byte>) {
    && start + |rest| == |buffer| < |data|
    && (forall j :: 0 <= j < start ==> data[j] == Scrub(buffer[j]))
    && (forall j :: 0 <= j < |rest| ==> data[start + j] == rest[j] == buffer[start + j])
    && (forall j :: |buffer| <= j < |data| ==> data[j] != NEWLINE)
  }

  /** The scan's account: what is printed so far and what the rest of the buffer still yields. */
  ghost predicate Accounted(pat: seq<byte>, buffer: seq<byte>, rest: seq<byte>, out: seq<seq<byte>>) {
    Output(pat, Done(buffer)) == out + Output(pat, Done(rest)) && Left(buffer) == Left(rest)
  }

  lemma TakeLine(pat: seq<byte>, buffer: seq<byte>, rest: seq<byte>, out: seq<seq<byte>>)
    requires FirstBreak(rest) < |rest| && Accounted(pat, buffer, rest, out)
    ensures var i := FirstBreak(rest);
            Accounted(pat, buffer, rest[i + 1..], out + Output(pat, [rest[..i]]))
  {
    var i := FirstBreak(rest);
    DoneStep(pat, rest);
    Associate(out, Output(pat, [rest[..i]]), Output(pat, Done(rest[i + 1..])));
  }

  lemma NoMoreLines(pat: seq<byte>, buffer: seq<byte>, rest: seq<byte>, out: seq<seq<byte>>)
    requires FirstBreak(rest) == |rest| && Accounted(pat, buffer, rest, out)
    ensures out == Output(pat, Done(buffer)) && Left(buffer) == rest
  {
  }

  lemma OverwriteBreak(data: seq<byte>, buffer: seq<byte>, start: nat, rest: seq<byte>, i: nat)
    requires Scanning(data, buffer, start, rest) && i < |rest| && rest[i] == NEWLINE
    requires forall j :: 0 <= j < i ==> rest[j] != NEWLINE
    ensures Scanning(data[start + i := NUL], buffer, start + i + 1, rest[i + 1..])
  {
    var data', start', rest' := data[start + i := NUL], start + i + 1, rest[i + 1..];
    forall j | 0 <= j < |rest'|
      ensures data'[start' + j] == rest'[j] == buffer[start' + j]
    {
      assert data[start + (i + 1 + j)] == rest[i + 1 + j];
    }
    forall j | 0 <= j < start'
      ensures data'[j] == Scrub(buffer[j])
    {
      if start <= j {
        assert data[start + (j - start)] == rest[j - start] == buffer[start + (j - start)];
      }
    }
  }

  /** Once the whole buffer is passed over, no newline is left. */
  lemma OverwriteEnd(data: seq<byte>, buffer: seq<byte>, start: nat, rest: seq<byte>)
    requires Scanning(data, buffer, start, rest) && Unbroken(rest)
    ensures Unbroken(data[|buffer| := NUL])
    ensures forall j :: 0 <= j < |buffer| ==> data[j] == Scrub(buffer[j])
  {
    forall j | start <= j < |buffer|
      ensures data[j] == Scrub(buffer[j])
    {
      assert data[start + (j - start)] == rest[j - start] == buffer[start + (j - start)];
    }
  }

  /** Keep the unfinished line `rest`. */
  method KeepRest(data: array<byte>, start: nat, last: nat, ghost buffer: seq<byte>, ghost rest: seq<byte>)
    requires Scanning(data[..], buffer, start, rest) && 0 < start <= last == |buffer| < data.Length && Unbroken(rest)
    modifies data
    ensures data[..last - start] == Moved(buffer, rest) && Unbroken(data[..])
  {
    OverwriteEnd(data[..], buffer, start, rest);
    data[last] := NUL;
    ghost var before, n := data[..], |CString(rest)|;
    StringAt(before, start, rest);
    MoveDown(data, start, n);
    MovedInto(before, data[..], buffer, rest);
  }

  /** Where the string that is kept ends. */
  lemma StringAt(data: seq<byte>, start: nat, rest: seq<byte>)
    requires start + |rest| < |data| && data[start + |rest|] == NUL
    requires forall j :: 0 <= j < |rest| ==> data[start + j] == rest[j]
    ensures var n := |CString(rest)|;
            && data[start + n] == NUL && (forall j :: start <= j < start + n ==> data[j] != NUL)
            && forall j :: 0 <= j < n ==> data[start + j] == rest[j]
  {
    var n := |CString(rest)|;
    forall j | start <= j < start + n
      ensures data[j] != NUL
    {
      assert data[start + (j - start)] == rest[j - start] == CString(rest)[j - start];
    }
  }

  lemma MovedInto(before: seq<byte>, after: seq<byte>, buffer: seq<byte>, rest: seq<byte>)
    requires |rest| <= |buffer| < |before| == |after| && Unbroken(rest) && Unbroken(before)
    requires forall j :: 0 <= j < |buffer| ==> before[j] == Scrub(buffer[j])
    requires var k := |CString(rest)|;
             && (forall j :: 0 <= j < k ==> after[j] == rest[j]) && after[k] == NUL
             && forall j :: k < j < |after| ==> after[j] == before[j]
    ensures after[..|rest|] == Moved(buffer, rest) && Unbroken(after)
  {
    var moved := Moved(buffer, rest);
    forall j | 0 <= j < |rest|
      ensures after[j] == moved[j]
    {
      MovedByte(buffer, rest, j);
    }
  }

  /** The end of the line at `start`: a newline, or the end of the data. */
  method EndOf(data: array<byte>, start: nat, last: nat, ghost buffer: seq<byte>, ghost rest: seq<byte>)
      returns (end: nat)
    requires Scanning(data[..], buffer, start, rest) && last == |buffer| < data.Length
    ensures end == start + FirstBreak(rest) <= last && (end == last <==> Unbroken(rest))
    ensures data[end] == NEWLINE <==> end < last
  {
    assert data[start..last] == rest;
    end := FindEnd(data, start, last);
  }

  /** Take the line at `start`, up to the first newline or the end of the data. */
  method TakeAt(data: array<byte>, start: nat, end: nat, pat: seq<byte>, ghost buffer: seq<byte>, ghost rest: seq<byte>)
      returns (printed: seq<seq<byte>>)
    requires Scanning(data[..], buffer, start, rest) && end == start + FirstBreak(rest) < data.Length && Clean(pat)
    modifies data
    ensures printed == Output(pat, [rest[..end - start]])
    ensures end < |buffer| ==> Scanning(data[..], buffer, end + 1, rest[end - start + 1..])
    ensures end == |buffer| ==> Unbroken(data[..])
  {
    if end < |buffer| {
      OverwriteBreak(data[..], buffer, start, rest, end - start);
    } else {
      OverwriteEnd(data[..], buffer, start, rest);
    }
    assert forall j :: start <= j < end ==> data[j] == rest[j - start];
    assert data[start..end] == rest[..end - start];
    printed := PrintIfHit(data, start, end, pat);
  }

  /** The pass ends with the last terminated line: everything is searched and nothing kept. */
  lemma TookLast(pat: seq<byte>, buffer: seq<byte>, rest: seq<byte>, out: seq<seq<byte>>)
    requires Accounted(pat, buffer, rest, out) && FirstBreak(rest) + 1 == |rest| && !Unbroken(buffer)
    ensures out + Output(pat, [rest[..FirstBreak(rest)]]) == Output(pat, Emit(buffer)) && Kept(buffer) == []
  {
    var i := FirstBreak(rest);
    TakeLine(pat, buffer, rest, out);
    NoMoreLines(pat, buffer, rest[i + 1..], out + Output(pat, [rest[..i]]));
  }

  /** The pass ends with an unfinished line: that line is kept. */
  lemma KeepsLast(pat: seq<byte>, buffer: seq<byte>, rest: seq<byte>, out: seq<seq<byte>>)
    requires Accounted(pat, buffer, rest, out) && Unbroken(rest) && !Unbroken(buffer)
    ensures out == Output(pat, Emit(buffer)) && Left(buffer) == rest && Kept(buffer) == Moved(buffer, rest)
  {
  }

  /** Where a scan stands: what is printed, what is left of the buffer, and that a scan past the first
      line has seen a newline. */
  ghost predicate ScanState(pat: seq<byte>, buffer: seq<byte>, cnt: nat, start: nat, rest: seq<byte>,
                            out: seq<seq<byte>>)
  {
    && |buffer| == start + |rest| && Accounted(pat, buffer, rest, out)
    && if start == 0 then rest == buffer && out == [] else rest != [] && cnt != 0 && !Unbroken(buffer)
  }

  lemma ScanTakes(pat: seq<byte>, buffer: seq<byte>, cnt: nat, start: nat, rest: seq<byte>, out: seq<seq<byte>>)
    requires ScanState(pat, buffer, cnt, start, rest, out) && FirstBreak(rest) + 1 < |rest| && cnt != 0
    ensures var i := FirstBreak(rest);
            ScanState(pat, buffer, cnt, start + i + 1, rest[i + 1..], out + Output(pat, [rest[..i]]))
  {
    TakeLine(pat, buffer, rest, out);
    assert start == 0 ==> buffer[FirstBreak(rest)] == NEWLINE;
  }

  /** The line just taken is the last one: the buffer is used up. */
  lemma ScanEnds(pat: seq<byte>, buffer: seq<byte>, cnt: nat, start: nat, rest: seq<byte>, out: seq<seq<byte>>)
    requires ScanState(pat, buffer, cnt, start, rest, out) && FirstBreak(rest) + 1 >= |rest|
    requires FirstBreak(rest) == |rest| ==> start == 0
    ensures out + Output(pat, [rest[..FirstBreak(rest)]]) == Output(pat, Emit(buffer)) && Kept(buffer) == []
  {
    var i := FirstBreak(rest);
    if i < |rest| {
      assert start == 0 ==> buffer[i] == NEWLINE;
      TookLast(pat, buffer, rest, out);
    } else {
      assert rest[..i] == buffer && Unbroken(buffer);
      assert [] + Output(pat, [buffer]) == Output(pat, [buffer]);
    }
  }

  /** A buffer with a newline in it was just filled by a read. */
  lemma BreakMeansRead(buffer: seq<byte>, cnt: nat, start: nat, rest: seq<byte>)
    requires cnt == 0 ==> Unbroken(buffer)
    requires if start == 0 then rest == buffer else cnt != 0
    ensures FirstBreak(rest) < |rest| ==> cnt != 0
  {
  }

  /** The pass is over: its lines are printed, and what it keeps stands in front. */
  ghost predicate Scanned(pat: seq<byte>, buffer: seq<byte>, data: seq<byte>, kept: nat, out: seq<seq<byte>>) {
    && out == Output(pat, Emit(buffer))
    && kept <= BUFSIZE < |data| && data[..kept] == Kept(buffer) && Unbroken(data)
  }

  method KeepLine(data: array<byte>, start: nat, last: nat, cnt: nat, ghost pat: seq<byte>, ghost out: seq<seq<byte>>,
                  ghost buffer: seq<byte>, ghost rest: seq<byte>)
    requires data.Length == BUFSIZE + 1 && last == |buffer| <= BUFSIZE && 0 < start
    requires Scanning(data[..], buffer, start, rest) && ScanState(pat, buffer, cnt, start, rest, out) && Unbroken(rest)
    modifies data
    ensures Scanned(pat, buffer, data[..], last - start, out)
  {
    KeepsLast(pat, buffer, rest, out);
    KeepRest(data, start, last, buffer, rest);
  }

  /** Nothing is kept once the last line is taken. */
  lemma ScanIsOver(pat: seq<byte>, buffer: seq<byte>, cnt: nat, start: nat, rest: seq<byte>, out: seq<seq<byte>>,
                   data: seq<byte>)
    requires ScanState(pat, buffer, cnt, start, rest, out) && FirstBreak(rest) + 1 >= |rest| && |data| == BUFSIZE + 1
    requires FirstBreak(rest) == |rest| ==> start == 0 && Unbroken(data)
    requires FirstBreak(rest) < |rest| ==>
               Scanning(data, buffer, start + FirstBreak(rest) + 1, rest[FirstBreak(rest) + 1..])
    ensures Scanned(pat, buffer, data, 0, out + Output(pat, [rest[..FirstBreak(rest)]]))
  {
    ScanEnds(pat, buffer, cnt, start, rest, out);
  }

  /** One line of the scan: keep it if it is unfinished, else search it and go on behind it. */
  method ScanLine(data: array<byte>, start: nat, last: nat, cnt: nat, pat: seq<byte>, out: seq<seq<byte>>,
                  ghost buffer: seq<byte>, ghost rest: seq<byte>)
      returns (done: bool, out': seq<seq<byte>>, next: nat, ghost rest': seq<byte>)
    requires data.Length == BUFSIZE + 1 && Clean(pat) && last == |buffer| <= BUFSIZE && (cnt == 0 ==> Unbroken(buffer))
    requires Scanning(data[..], buffer, start, rest) && ScanState(pat, buffer, cnt, start, rest, out)
    modifies data
    ensures done ==> Scanned(pat, buffer, data[..], next, out')
    ensures !done ==> start < next <= last && Scanning(data[..], buffer, next, rest')
    ensures !done ==> ScanState(pat, buffer, cnt, next, rest', out')
  {
    var end := EndOf(data, start, last, buffer, rest);
    if data[end] != NEWLINE && cnt != 0 && start != 0 {
      KeepLine(data, start, last, cnt, pat, out, buffer, rest);
      return true, out, last - start, rest;
    }
    done, out', next, rest' := SearchOn(data, start, end, last, cnt, pat, out, buffer, rest);
  }

  /** Search the line that ends at `end`. */
  method SearchOn(data: array<byte>, start: nat, end: nat, last: nat, cnt: nat, pat: seq<byte>, out: seq<seq<byte>>,
                  ghost buffer: seq<byte>, ghost rest: seq<byte>)
      returns (done: bool, out': seq<seq<byte>>, next: nat, ghost rest': seq<byte>)
    requires data.Length == BUFSIZE + 1 && Clean(pat) && last == |buffer| <= BUFSIZE && (cnt == 0 ==> Unbroken(buffer))
    requires Scanning(data[..], buffer, start, rest) && ScanState(pat, buffer, cnt, start, rest, out)
    requires end == start + FirstBreak(rest) && (end == last ==> cnt == 0 || start == 0)
    modifies data
    ensures done ==> Scanned(pat, buffer, data[..], next, out')
    ensures !done ==> start < next <= last && Scanning(data[..], buffer, next, rest')
    ensures !done ==> ScanState(pat, buffer, cnt, next, rest', out')
  {
    var printed := TakeAt(data, start, end, pat, buffer, rest);
    out' := out + printed;
    if end + 1 >= last {
      ScanIsOver(pat, buffer, cnt, start, rest, out, data[..]);
      return true, out', 0, [];
    }
    BreakMeansRead(buffer, cnt, start, rest);
    ScanTakes(pat, buffer, cnt, start, rest, out);
    return false, out', end + 1, rest[end - start + 1..];
  }

  /** One pass over the buffer. Newlines are overwritten as lines are taken, so none is left behind
      anywhere in the buffer: the next pass cannot mistake a stale byte for the end of a line. */
  method ScanBuffer(data: array<byte>, last: nat, cnt: nat, pat: seq<byte>, ghost buffer: seq<byte>)
      returns (out: seq<seq<byte>>, kept: nat)
    requires data.Length == BUFSIZE + 1 && last <= BUFSIZE && Clean(pat)
    requires last == |buffer| && Scanning(data[..], buffer, 0, buffer) && (cnt == 0 ==> Unbroken(buffer))
    modifies data
    ensures Scanned(pat, buffer, data[..], kept, out)
  {
    var done;
    ghost var rest;
    StartsScanning(pat, buffer, cnt);
    done, out, kept, rest := ScanLine(data, 0, last, cnt, pat, [], buffer, buffer);
    while !done
      invariant done ==> Scanned(pat, buffer, data[..], kept, out)
      invariant !done ==> kept <= last && Scanning(data[..], buffer, kept, rest)
      invariant !done ==> ScanState(pat, buffer, cnt, kept, rest, out)
      decreases !done, last - kept
    {
      done, out, kept, rest := ScanLine(data, kept, last, cnt, pat, out, buffer, rest);
    }
  }

  lemma StartsScanning(pat: seq<byte>, buffer: seq<byte>, cnt: nat)
    ensures ScanState(pat, buffer, cnt, 0, buffer, [])
  {
    assert [] + Output(pat, Done(buffer)) == Output(pat, Done(buffer));
  }

  /** Put the bytes just read behind the kept ones. */
  method Fill(data: array<byte>, last: nat, chunk: seq<byte>, ghost left: seq<byte>, ghost buffer: seq<byte>)
    requires last + |chunk| < data.Length && last == |left| && data[..last] == left
    requires Unbroken(data[..]) && Unbroken(left) && buffer == left + chunk
    modifies data
    ensures Scanning(data[..], buffer, 0, buffer)
  {
    var i := 0;
    while i < |chunk|
      invariant i <= |chunk|
      invariant forall j :: 0 <= j < data.Length ==>
                  data[j] == if last <= j < last + i then chunk[j - last] else old(data[j])
    {
      data[last + i] := chunk[i];
      i := i + 1;
    }
    assert forall j :: 0 <= j < last ==> data[j] == old(data[..last])[j];
  }

  /** The buffer between two reads: the kept piece in front, and no newline anywhere. */
  predicate Resting(data: seq<byte>, left: seq<byte>) {
    && |data| == BUFSIZE + 1 && |left| < BUFSIZE && data[..|left|] == left
    && Unbroken(left) && Unbroken(data)
  }

  /** The outer loop's read and scan; `rest` is what the descriptor has still to deliver of `size` bytes. */
  method ReadAndScan(pat: seq<byte>, size: nat, rest: seq<byte>, last: nat, read: (nat, nat) -> nat, data: array<byte>,
                     ghost left: seq<byte>)
      returns (cnt: nat, printed: seq<seq<byte>>, kept: nat, ghost buffer: seq<byte>)
    requires Clean(pat) && ValidRead(size, read) && |rest| <= size && Resting(data[..], left) && last == |left|
    modifies data
    ensures cnt == Count(size, read, left, rest) <= |rest| && buffer == left + rest[..cnt]
    ensures Scanned(pat, buffer, data[..], kept, printed)
  {
    cnt := read(size - |rest|, BUFSIZE - last);
    buffer := left + rest[..cnt];
    assert cnt == 0 ==> buffer == left;
    Fill(data, last, rest[..cnt], left, buffer);
    printed, kept := ScanBuffer(data, last + cnt, cnt, pat, buffer);
  }

  /** What the lines still to be searched will print. */
  ghost predicate Owes(pat: seq<byte>, size: nat, read: (nat, nat) -> nat, left: seq<byte>, rest: seq<byte>,
                       owed: seq<seq<byte>>)
  {
    && ValidRead(size, read) && |rest| <= size && |left| < BUFSIZE
    && owed == Output(pat, Searched(size, read, left, rest))
  }

  /** A pass prints the beginning of what is owed. */
  lemma Pays(pat: seq<byte>, size: nat, read: (nat, nat) -> nat, left: seq<byte>, rest: seq<byte>, cnt: nat,
             buffer: seq<byte>, owed: seq<seq<byte>>) returns (owed': seq<seq<byte>>)
    requires Owes(pat, size, read, left, rest, owed)
    requires cnt == Count(size, read, left, rest) && buffer == left + rest[..cnt]
    ensures owed == Output(pat, Emit(buffer)) + owed' && |Kept(buffer)| < BUFSIZE
    ensures if cnt == 0 then owed' == [] else Owes(pat, size, read, Kept(buffer), rest[cnt..], owed')
  {
    OutputStep(pat, size, read, left, rest);
    owed' := if cnt == 0 then [] else Output(pat, Searched(size, read, Kept(buffer), rest[cnt..]));
  }

  lemma ScannedRests(pat: seq<byte>, buffer: seq<byte>, data: seq<byte>, kept: nat, out: seq<seq<byte>>)
    requires Scanned(pat, buffer, data, kept, out) && |data| == BUFSIZE + 1 && |Kept(buffer)| < BUFSIZE
    ensures Resting(data, Kept(buffer)) && kept == |Kept(buffer)|
  {
  }

  /** One turn of the outer loop. */
  method Turn(pat: seq<byte>, size: nat, rest: seq<byte>, last: nat, read: (nat, nat) -> nat, data: array<byte>,
              ghost left: seq<byte>, ghost owed: seq<seq<byte>>)
      returns (cnt: nat, printed: seq<seq<byte>>, kept: nat, ghost left': seq<byte>, ghost owed': seq<seq<byte>>)
    requires Clean(pat) && Resting(data[..], left) && last == |left| && Owes(pat, size, read, left, rest, owed)
    modifies data
    ensures cnt <= |rest| && Resting(data[..], left') && kept == |left'| && owed == printed + owed'
    ensures if cnt == 0 then owed' == [] else Owes(pat, size, read, left', rest[cnt..], owed')
  {
    ghost var buffer;
    cnt, printed, kept, buffer := ReadAndScan(pat, size, rest, last, read, data, left);
    owed' := Pays(pat, size, read, left, rest, cnt, buffer, owed);
    ScannedRests(pat, buffer, data[..], kept, printed);
    left' := Kept(buffer);
  }

  /** The outer loop; `total` is what it will have printed. */
  method AllTurns(pat: seq<byte>, file: seq<byte>, read: (nat, nat) -> nat, data: array<byte>,
                  ghost total: seq<seq<byte>>)
      returns (out: seq<seq<byte>>)
    requires Clean(pat) && Resting(data[..], []) && Owes(pat, |file|, read, [], file, total)
    modifies data
    ensures out == total && Unbroken(data[..])
  {
    out := [];
    var last, rest := 0, file;
    ghost var left: seq<byte>, owed := [], total;
    while true
      invariant Resting(data[..], left) && last == |left|
      invariant Owes(pat, |file|, read, left, rest, owed)
      invariant out + owed == total
      decreases |rest|
    {
      var cnt, printed;
      ghost var before := out;
      cnt, printed, last, left, owed := Turn(pat, |file|, rest, last, read, data, left, owed);
      Associate(before, printed, owed);
      out := out + printed;
      if cnt == 0 { break; }
      rest := rest[cnt..];
    }
  }

  /** do_one_file between open and close: `data` is the uninitialised buffer, `out` the lines printed, in
      order. The buffer is left without newlines, as the next file needs it. */
  method DoOneFile(pat: seq<byte>, file: seq<byte>, read: (nat, nat) -> nat, data: array<byte>)
      returns (out: seq<seq<byte>>)
    requires data.Length == BUFSIZE + 1 && Unbroken(data[..]) && Clean(pat) && ValidRead(|file|, read)
    modifies data
    ensures out == Printed(pat, file, read) && Unbroken(data[..])
    ensures AllClean(out)
  {
    out := AllTurns(pat, file, read, data, Printed(pat, file, read));
    OutputClean(pat, Searched(|file|, read, [], file));
  }
}
