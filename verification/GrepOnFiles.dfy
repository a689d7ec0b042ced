/** When `grep` is right on well-placed reads and on this kernel's own, and inputs on which it is not. */
module GrepOnFiles {
  import opened Common
  import opened FileSystem
  import opened Grep

  // ----- reads that stop in the right places

  ghost predicate FullRead(size: nat, read: (nat, nat) -> nat) {
    forall pos: nat, n: nat :: pos <= size ==> read(pos, n) == Min(n, size - pos)
  }

  /** `end` is the end of the file or next to a newline. */
  predicate GoodStop(file: seq<byte>, end: nat) {
    end < |file| ==> file[end] == NEWLINE || (end > 0 && file[end - 1] == NEWLINE)
  }

  /** A read that does not fill the request stops there. */
  ghost predicate GoodStops(file: seq<byte>, read: (nat, nat) -> nat) {
    forall pos: nat, n: nat :: pos <= |file| && read(pos, n) < n ==> GoodStop(file, pos + read(pos, n))
  }

  /** No line is longer than the buffer. */
  predicate LinesFit(s: seq<byte>) {
    forall k :: 0 <= k < |Lines(s)| ==> |Lines(s)[k]| <= BUFSIZE
  }

  lemma FitsConcat(a: seq<seq<byte>>, s: seq<byte>, t: seq<byte>)
    requires Lines(s) == a + Lines(t) && forall k :: 0 <= k < |a| ==> |a[k]| <= BUFSIZE
    ensures LinesFit(s) <==> LinesFit(t)
  {
    assert forall k :: 0 <= k < |Lines(t)| ==> Lines(t)[k] == Lines(s)[|a| + k];
  }

  lemma {:induction false} DoneFits(b: seq<byte>)
    ensures forall k :: 0 <= k < |Done(b)| ==> |Done(b)[k]| <= |b|
    decreases |b|
  {
    if FirstBreak(b) < |b| {
      DoneFits(b[FirstBreak(b) + 1..]);
    }
  }

  /** The unterminated buffer of a pass, and the line that starts with it. */
  lemma UnbrokenFits(buffer: seq<byte>, rest: seq<byte>)
    requires Unbroken(buffer) && |buffer| <= BUFSIZE
    requires |buffer| == BUFSIZE || rest == [] || rest[0] == NEWLINE
    ensures LinesFit(buffer + rest) <==> (rest == [] || rest[0] == NEWLINE) && LinesFit(rest)
  {
    Prepend(buffer, rest);
    LinesAre(buffer + rest);
    LinesAre(rest);
    FirstFits(buffer + rest);
    FirstFits(rest);
  }

  lemma FirstFits(s: seq<byte>)
    ensures LinesFit(s) <==>
            |FirstLine(s)| <= BUFSIZE && forall k :: 0 <= k < |LaterLines(s)| ==> |LaterLines(s)[k]| <= BUFSIZE
  {
    LinesAre(s);
    assert Lines(s)[0] == FirstLine(s);
    assert forall k :: 0 <= k < |LaterLines(s)| ==> LaterLines(s)[k] == Lines(s)[k + 1];
    assert forall k :: 0 < k < |Lines(s)| ==> Lines(s)[k] == LaterLines(s)[k - 1];
  }

  /** A pass over a buffer that is full or stops well cuts a line exactly when the line is too long. */
  lemma PassFits(buffer: seq<byte>, rest: seq<byte>)
    requires |buffer| <= BUFSIZE && Clean(buffer)
    requires Unbroken(buffer) ==> |buffer| == BUFSIZE || rest == [] || rest[0] == NEWLINE
    ensures LinesFit(buffer + rest) <==>
            (Unbroken(buffer) ==> rest == [] || rest[0] == NEWLINE) && LinesFit(Kept(buffer) + rest)
  {
    if Unbroken(buffer) {
      UnbrokenFits(buffer, rest);
      assert [] + rest == rest;
    } else {
      LinesOfConcat(buffer, rest);
      CleanKept(buffer);
      DoneFits(buffer);
      FitsConcat(Done(buffer), buffer + rest, Left(buffer) + rest);
    }
  }

  /** Without NULs the unfinished line is moved intact. */
  lemma CleanKept(b: seq<byte>)
    requires Clean(b)
    ensures Clean(Left(b)) && Clean(Kept(b)) && (!Unbroken(b) ==> Kept(b) == Left(b))
  {
    forall j | 0 <= j < |Left(b)|
      ensures Left(b)[j] != NUL
    {
      LeftByte(b, j);
    }
  }

  /** The pass from `pos` to `end` ends with a full buffer, the file, or next to a newline. */
  lemma PassStops(file: seq<byte>, read: (nat, nat) -> nat, left: seq<byte>, pos: nat, end: nat, buffer: seq<byte>)
    requires ValidRead(|file|, read) && GoodStops(file, read) && |left| < BUFSIZE && pos < end <= |file|
    requires end == pos + read(pos, BUFSIZE - |left|) && buffer == left + file[pos..end]
    ensures |buffer| <= BUFSIZE
    ensures Unbroken(buffer) ==> |buffer| == BUFSIZE || end == |file| || file[end] == NEWLINE
  {
    assert buffer[|buffer| - 1] == file[end - 1];
    assert end - pos < BUFSIZE - |left| ==> GoodStop(file, end);
  }

  /** No pass from `pos` on cuts a line. */
  ghost predicate UncutFrom(file: seq<byte>, read: (nat, nat) -> nat, left: seq<byte>, pos: nat)
    requires ValidRead(|file|, read) && pos <= |file| && |left| < BUFSIZE
  {
    NeverCuts(|file|, read, left, file[pos..])
  }

  /** No line from `pos` on, or the one that starts with `left`, is too long. */
  predicate FitFrom(file: seq<byte>, left: seq<byte>, pos: nat)
    requires pos <= |file|
  {
    LinesFit(left + file[pos..])
  }

  /** A pass that does not cut a line. */
  predicate Uncut(file: seq<byte>, buffer: seq<byte>, end: nat)
    requires end <= |file|
  {
    Unbroken(buffer) ==> end == |file| || file[end] == NEWLINE
  }

  lemma UncutStep(file: seq<byte>, read: (nat, nat) -> nat, left: seq<byte>, pos: nat, end: nat, buffer: seq<byte>)
    requires ValidRead(|file|, read) && |left| < BUFSIZE && pos < end <= |file| && Clean(buffer)
    requires end == pos + read(pos, BUFSIZE - |left|) && buffer == left + file[pos..end]
    ensures |Kept(buffer)| < BUFSIZE
    ensures UncutFrom(file, read, left, pos) == (Uncut(file, buffer, end) && UncutFrom(file, read, Kept(buffer), end))
  {
    var rest := file[pos..];
    assert rest[..end - pos] == file[pos..end] && rest[end - pos..] == file[end..];
    HarmlessStep(|file|, read, left, rest, end - pos, buffer, file[end..]);
    CleanSound(buffer, file[end..]);
  }

  lemma CleanSound(buffer: seq<byte>, rest: seq<byte>)
    requires Clean(buffer) && buffer != []
    ensures Sound(buffer, rest) <==> (Unbroken(buffer) ==> rest == [] || rest[0] == NEWLINE)
  {
    CleanKept(buffer);
    if Unbroken(buffer) {
      Prepend(buffer, rest);
      assert FirstLine(buffer + rest)[0] == buffer[0];
    }
  }

  lemma FitStep(file: seq<byte>, left: seq<byte>, pos: nat, end: nat, buffer: seq<byte>)
    requires pos < end <= |file| && buffer == left + file[pos..end] && |buffer| <= BUFSIZE && Clean(buffer)
    requires Unbroken(buffer) ==> |buffer| == BUFSIZE || end == |file| || file[end] == NEWLINE
    ensures FitFrom(file, left, pos) == (Uncut(file, buffer, end) && FitFrom(file, Kept(buffer), end))
  {
    assert left + file[pos..] == buffer + file[end..];
    PassFits(buffer, file[end..]);
  }

  lemma LastFits(file: seq<byte>, read: (nat, nat) -> nat, left: seq<byte>)
    requires ValidRead(|file|, read) && |left| < BUFSIZE && Unbroken(left)
    ensures UncutFrom(file, read, left, |file|) && FitFrom(file, left, |file|)
  {
    assert left + file[|file|..] == left;
    FirstBreakIs(left, |left|);
  }

  /** When short reads stop well and there are no NULs, no pass does harm exactly when no line is longer than
      the buffer. */
  lemma {:induction false} CutsExactlyLongLines(file: seq<byte>, read: (nat, nat) -> nat, left: seq<byte>, pos: nat)
    requires ValidRead(|file|, read) && GoodStops(file, read) && pos <= |file| && |left| < BUFSIZE && Unbroken(left)
    requires Clean(file) && Clean(left)
    ensures UncutFrom(file, read, left, pos) == FitFrom(file, left, pos)
    decreases |file| - pos
  {
    if pos == |file| {
      LastFits(file, read, left);
    } else {
      var end := pos + read(pos, BUFSIZE - |left|);
      var buffer := left + file[pos..end];
      PassStops(file, read, left, pos, end, buffer);
      UncutStep(file, read, left, pos, end, buffer);
      FitStep(file, left, pos, end, buffer);
      CleanKept(buffer);
      CutsExactlyLongLines(file, read, Kept(buffer), end);
    }
  }

  lemma {:induction false} CleanLines(s: seq<byte>)
    requires Clean(s)
    ensures AllClean(Lines(s))
    decreases |s|
  {
    var i := FirstBreak(s);
    if i < |s| {
      CleanLines(s[i + 1..]);
    }
  }

  /** What grep's answers depend on when reads stop well: without NULs, on short lines and bytes below 128; and
      a line that mixes NULs with other bytes is always answered wrongly. */
  ghost predicate ExactlyShortLines(file: seq<byte>, read: (nat, nat) -> nat)
    requires ValidRead(|file|, read)
  {
    && (Clean(file) ==> (AllRight(file, read) <==> Ascii(file) && LinesFit(file)))
    && (!AllPlain(Lines(file)) ==> !AllRight(file, read))
  }

  lemma RightOnGoodStops(file: seq<byte>, read: (nat, nat) -> nat)
    requires ValidRead(|file|, read) && GoodStops(file, read)
    ensures ExactlyShortLines(file, read)
  {
    RightExactlyWhenUncut(file, read);
    if Clean(file) {
      assert [] + file[0..] == file && file[0..] == file;
      CutsExactlyLongLines(file, read, [], 0);
      CleanLines(file);
    }
  }

  /** In particular when reads fill the request. */
  lemma RightOnFullReads(file: seq<byte>, read: (nat, nat) -> nat)
    requires ValidRead(|file|, read) && FullRead(|file|, read)
    ensures ExactlyShortLines(file, read)
  {
    RightOnGoodStops(file, read);
  }

  // ----- on this kernel's reads

  /** Reads fill the request exactly in files of at most one block: they stop at block boundaries. */
  lemma KernelReadsFillExactly(img: Image, i: nat)
    requires ValidImage(img) && i < |img.inodes| && Dense(img.inodes[i])
    ensures FullRead(img.inodes[i].length, KernelRead(img, i)) <==> img.inodes[i].length <= BLOCK
  {
    var size := img.inodes[i].length;
    if size > BLOCK {
      DenseReadResult(img, i, BLOCK - 1, 2);
      assert KernelRead(img, i)(BLOCK - 1, 2) == 1;
    } else {
      forall pos: nat, n: nat | pos <= size
        ensures KernelRead(img, i)(pos, n) == Min(n, size - pos)
      {
        if pos < size && n > 0 {
          DenseReadResult(img, i, pos, n);
        }
      }
    }
  }

  /** Every block boundary inside the file is next to a newline. */
  predicate BlocksEndLines(file: seq<byte>) {
    forall b: nat :: b < |file| && b % BLOCK == 0 && b > 0 ==> GoodStop(file, b)
  }

  lemma KernelStop(img: Image, i: nat, pos: nat, n: nat)
    requires ValidImage(img) && i < |img.inodes| && Dense(img.inodes[i])
    requires pos < img.inodes[i].length && n > 0
    ensures var r := ReadResult(img, i, pos, n);
            r == n || pos + r == img.inodes[i].length || (pos + r) % BLOCK == 0 < pos + r
  {
    DenseReadResult(img, i, pos, n);
  }

  lemma KernelStopsWell(img: Image, i: nat)
    requires ValidImage(img) && i < |img.inodes| && Dense(img.inodes[i]) && BlocksEndLines(File(img, i))
    ensures GoodStops(File(img, i), KernelRead(img, i))
  {
    var file, read := File(img, i), KernelRead(img, i);
    forall pos: nat, n: nat | pos <= |file| && read(pos, n) < n
      ensures GoodStop(file, pos + read(pos, n))
    {
      if pos < |file| {
        KernelStop(img, i, pos, n);
      }
    }
  }

  /** So it is on this kernel, for every file without missing blocks whose block boundaries are next to a
      newline, in particular of at most one block. */
  lemma GrepOnKernel(img: Image, i: nat)
    requires ValidImage(img) && i < |img.inodes| && Dense(img.inodes[i]) && BlocksEndLines(File(img, i))
    ensures var file, read := File(img, i), KernelRead(img, i);
            ValidRead(|file|, read) && ExactlyShortLines(file, read)
  {
    KernelReadsAreValid(img, i);
    KernelStopsWell(img, i);
    RightOnGoodStops(File(img, i), KernelRead(img, i));
  }

  // ----- a match this kernel hides

  /** Searching pieces of a text finds nothing that is not in the text. */
  lemma {:induction false} PiecesMiss(pat: seq<byte>, b: seq<byte>)
    requires pat != [] && !Occurs(pat, b)
    ensures Matching(pat, Done(b)) == Output(pat, Done(b)) == [] && Output(pat, Emit(b)) == []
    decreases |b|
  {
    var i := FirstBreak(b);
    assert Unbroken(b) ==> Output(pat, [b]) == [];
    if i < |b| {
      var tail := b[i + 1..];
      assert forall k :: At(pat, b[..i], k) ==> At(pat, b, k);
      assert forall k :: At(pat, tail, k) ==> At(pat, b, i + 1 + k);
      PiecesMiss(pat, tail);
      MatchingConcat(pat, [b[..i]], Done(tail));
      OutputConcat(pat, [b[..i]], Done(tail));
    }
  }

  lemma LeftStep(b: seq<byte>, tail: seq<byte>)
    requires FirstBreak(b) < |b| && tail == b[FirstBreak(b) + 1..]
    ensures Left(b) == Left(tail) && (Unbroken(tail) ==> Left(tail) == tail)
  {
    if Unbroken(tail) {
      FirstBreakIs(tail, |tail|);
    }
  }

  /** What follows the newline at `i`, the last one. */
  lemma {:induction false} LeftAfterBreak(b: seq<byte>, i: nat, last: seq<byte>)
    requires i < |b| && b[i] == NEWLINE && last == b[i + 1..] && Unbroken(last)
    ensures Left(b) == last && (Clean(last) ==> Kept(b) == last)
    decreases |b|
  {
    var first := FirstBreak(b);
    var tail := b[first + 1..];
    LeftStep(b, tail);
    if first < i {
      assert tail[i - first - 1] == b[i] && tail[i - first - 1 + 1..] == last;
      LeftAfterBreak(tail, i - first - 1, last);
    }
  }

  /** What the lines still to be searched will print. */
  ghost function Remaining(pat: seq<byte>, file: seq<byte>, read: (nat, nat) -> nat, left: seq<byte>, pos: nat)
      : seq<seq<byte>>
    requires ValidRead(|file|, read) && pos <= |file| && |left| < BUFSIZE
  {
    Output(pat, Searched(|file|, read, left, file[pos..]))
  }

  lemma QuietStep(pat: seq<byte>, size: nat, read: (nat, nat) -> nat, left: seq<byte>, rest: seq<byte>, cnt: nat,
                  buffer: seq<byte>, kept: seq<byte>, after: seq<byte>)
    requires ValidRead(size, read) && |rest| <= size && |left| < BUFSIZE
    requires cnt == Count(size, read, left, rest) > 0 && buffer == left + rest[..cnt] && after == rest[cnt..]
    requires pat != [] && !Occurs(pat, buffer) && Kept(buffer) == kept
    ensures |kept| < BUFSIZE
    ensures Output(pat, Searched(size, read, left, rest)) == Output(pat, Searched(size, read, kept, after))
  {
    OutputStep(pat, size, read, left, rest);
    assert Output(pat, Emit(buffer)) == [] by { PiecesMiss(pat, buffer); }
  }

  /** A pass from `pos` to `end` whose buffer does not contain the pattern prints nothing. */
  lemma QuietPass(pat: seq<byte>, file: seq<byte>, read: (nat, nat) -> nat, left: seq<byte>, pos: nat, end: nat,
                  buffer: seq<byte>, kept: seq<byte>)
    requires ValidRead(|file|, read) && pos < end <= |file| && |left| < BUFSIZE
    requires pos + read(pos, BUFSIZE - |left|) == end && buffer == left + file[pos..end]
    requires pat != [] && !Occurs(pat, buffer) && Kept(buffer) == kept
    ensures |kept| < BUFSIZE && Remaining(pat, file, read, left, pos) == Remaining(pat, file, read, kept, end)
  {
    var rest := file[pos..];
    assert rest[..end - pos] == file[pos..end] && rest[end - pos..] == file[end..];
    QuietStep(pat, |file|, read, left, rest, end - pos, buffer, kept, file[end..]);
  }

  /** A file of newlines with an "x" at 1023 and "ab" across the block boundary. */
  function SampleByte(k: nat): byte {
    if k == 1023 then 120 else if k == 4095 then 97 else if k == 4096 then 98 else NEWLINE
  }

  predicate IsSample(file: seq<byte>) {
    |file| == BLOCK + 1 && forall k :: 0 <= k < |file| ==> file[k] == SampleByte(k)
  }

  function SampleImage(): Image {
    Image([], [Inode(BLOCK + 1, [1, 2] + seq(SLOTS - 1, _ => 0))],
          [seq<byte>(BLOCK, _ => 0), seq<byte>(BLOCK, k requires 0 <= k => SampleByte(k)),
           seq<byte>(BLOCK, k requires 0 <= k => SampleByte(BLOCK + k))])
  }

  lemma SampleFile()
    ensures var img := SampleImage();
            ValidImage(img) && Dense(img.inodes[0]) && IsSample(File(img, 0))
  {
    var img := SampleImage();
    assert ValidInode(img, img.inodes[0]);
    forall k | 0 <= k < BLOCK + 1
      ensures File(img, 0)[k] == SampleByte(k)
    {
      assert File(img, 0)[k] == FileByte(img, 0, k);
    }
  }

  lemma SampleReads()
    requires ValidImage(SampleImage()) && Dense(SampleImage().inodes[0])
    ensures var read := KernelRead(SampleImage(), 0);
            && read(0, 1024) == 1024 && read(1024, 1023) == 1023 && read(2047, 1024) == 1024
            && read(3071, 1024) == 1024 && read(4095, 1024) == 1 && read(4096, 1024) == 1
  {
    DenseReadResult(SampleImage(), 0, 0, 1024);
    DenseReadResult(SampleImage(), 0, 1024, 1023);
    DenseReadResult(SampleImage(), 0, 2047, 1024);
    DenseReadResult(SampleImage(), 0, 3071, 1024);
    DenseReadResult(SampleImage(), 0, 4095, 1024);
    DenseReadResult(SampleImage(), 0, 4096, 1024);
  }

  const AB: seq<byte> := [97, 98]

  /** Where "ab" is not. */
  lemma NoAB(b: seq<byte>)
    requires forall j :: 0 < j < |b| ==> b[j] != 98
    ensures !Occurs(AB, b)
  {
    forall i
      ensures !At(AB, b, i)
    {
      if 0 <= i && i + |AB| <= |b| {
        assert AB[1] == 98 && b[i..i + |AB|][1] == b[i + 1];
      }
    }
  }

  lemma OnlyAB()
    ensures Matching(AB, [AB]) == [AB] && Lines(AB) == [AB]
  {
    assert At(AB, AB, 0);
    FirstBreakIs(AB, 2);
  }

  /** The pass from `pos` to `end`, where the buffer ends with a newline. */
  lemma SamplePass(file: seq<byte>, read: (nat, nat) -> nat, left: seq<byte>, pos: nat, end: nat)
    requires ValidRead(|file|, read) && pos < end <= 4095 < |file| && |left| < BUFSIZE
    requires pos + read(pos, BUFSIZE - |left|) == end && file[end - 1] == NEWLINE
    requires (forall j :: 0 <= j < |left| ==> left[j] != 98) && forall j :: 0 <= j < 4095 ==> file[j] != 98
    ensures Remaining(AB, file, read, left, pos) == Remaining(AB, file, read, [], end)
  {
    var buffer := left + file[pos..end];
    NoAB(buffer);
    LeftAfterBreak(buffer, |buffer| - 1, []);
    QuietPass(AB, file, read, left, pos, end, buffer, []);
  }

  lemma SampleFirstPass(file: seq<byte>, read: (nat, nat) -> nat)
    requires IsSample(file) && ValidRead(|file|, read) && read(0, 1024) == 1024
    ensures Remaining(AB, file, read, [], 0) == Remaining(AB, file, read, [120], 1024)
  {
    var buffer := file[0..1024];
    assert [] + buffer == buffer && buffer[1023..] == [120];
    NoAB(buffer);
    LeftAfterBreak(buffer, 1022, [120]);
    QuietPass(AB, file, read, [], 0, 1024, buffer, [120]);
  }

  /** A pass of one byte. */
  lemma SampleByteAlone(file: seq<byte>, read: (nat, nat) -> nat, pos: nat)
    requires ValidRead(|file|, read) && pos < |file| && read(pos, 1024) == 1 && file[pos] != NEWLINE
    ensures Remaining(AB, file, read, [], pos) == Remaining(AB, file, read, [], pos + 1)
  {
    var buffer := [file[pos]];
    assert buffer == [] + file[pos..pos + 1];
    NoAB(buffer);
    QuietPass(AB, file, read, [], pos, pos + 1, buffer, []);
  }

  lemma SampleEnds(file: seq<byte>, read: (nat, nat) -> nat)
    requires ValidRead(|file|, read)
    ensures Remaining(AB, file, read, [], |file|) == []
  {
    var rest := file[|file|..];
    assert rest == [] && [] + rest[..0] == [];
    OutputStep(AB, |file|, read, [], rest);
    assert !Occurs(AB, []);
  }

  /** The "x" left over by the first pass shifts the others by a byte, so that "a" comes alone. */
  lemma SamplePrintsNothing(file: seq<byte>, read: (nat, nat) -> nat)
    requires IsSample(file) && ValidRead(|file|, read)
    requires read(0, 1024) == 1024 && read(1024, 1023) == 1023 && read(2047, 1024) == 1024 && read(3071, 1024) == 1024
    requires read(4095, 1024) == 1 && read(4096, 1024) == 1
    ensures Remaining(AB, file, read, [], 0) == []
  {
    SampleFirstPass(file, read);
    SamplePass(file, read, [120], 1024, 2047);
    SamplePass(file, read, [], 2047, 3071);
    SamplePass(file, read, [], 3071, 4095);
    SampleByteAlone(file, read, 4095);
    SampleByteAlone(file, read, 4096);
    SampleEnds(file, read);
  }

  lemma SampleLines(file: seq<byte>)
    requires IsSample(file)
    ensures Matching(AB, Lines(file)) == [AB]
  {
    var block := file[..4095];
    assert file == block + AB && [] + AB == AB;
    LeftAfterBreak(block, 4094, []);
    LinesOfConcat(block, AB);
    NoAB(block);
    PiecesMiss(AB, block);
    OnlyAB();
    MatchingConcat(AB, Done(block), [AB]);
  }

  lemma SampleResult(file: seq<byte>, read: (nat, nat) -> nat)
    requires IsSample(file) && ValidRead(|file|, read)
    requires read(0, 1024) == 1024 && read(1024, 1023) == 1023 && read(2047, 1024) == 1024 && read(3071, 1024) == 1024
    requires read(4095, 1024) == 1 && read(4096, 1024) == 1
    ensures Printed(AB, file, read) == [] && Matching(AB, Lines(file)) == [AB] && Ascii(file)
  {
    SamplePrintsNothing(file, read);
    assert file[0..] == file;
    SampleLines(file);
  }

  /** Reads stop at block boundaries, and that can hide a match: this kernel's grep prints nothing for
      "ab" on a file whose last line is "ab". */
  lemma BlockBoundaryHidesMatch()
    ensures var img := SampleImage();
            && ValidImage(img) && Dense(img.inodes[0]) && Ascii(File(img, 0))
            && ValidRead(|File(img, 0)|, KernelRead(img, 0))
            && Printed(AB, File(img, 0), KernelRead(img, 0)) == []
            && Matching(AB, Lines(File(img, 0))) == [AB]
  {
    SampleFile();
    var file, read := File(SampleImage(), 0), KernelRead(SampleImage(), 0);
    KernelReadsAreValid(SampleImage(), 0);
    SampleReads();
    SampleResult(file, read);
  }

  // ----- lines that a NUL cuts

  /** The one line of the file is "a", a NUL and "b". */
  function NulImage(): Image {
    Image([], [Inode(3, [1] + seq(SLOTS, _ => 0))],
          [seq<byte>(BLOCK, _ => 0),
           seq<byte>(BLOCK, k requires 0 <= k => if k == 0 then 97 else if k == 2 then 98 else 0)])
  }

  lemma NulFile()
    ensures ValidImage(NulImage()) && Dense(NulImage().inodes[0]) && File(NulImage(), 0) == [97, NUL, 98]
  {
    var img := NulImage();
    assert ValidInode(img, img.inodes[0]);
    assert File(img, 0)[0] == FileByte(img, 0, 0) && File(img, 0)[1] == FileByte(img, 0, 1);
    assert File(img, 0)[2] == FileByte(img, 0, 2);
  }

  /** A file that fits into one unterminated pass is searched as one line, and then the empty rest. */
  lemma OnePass(pat: seq<byte>, file: seq<byte>, read: (nat, nat) -> nat)
    requires ValidRead(|file|, read) && Unbroken(file) && 0 < |file| && read(0, BUFSIZE) == |file| && pat != []
    ensures Printed(pat, file, read) == Output(pat, [file])
  {
    assert [] + file[..|file|] == file && file[|file|..] == [];
    OutputStep(pat, |file|, read, [], file);
    LastPass(|file|, read, [], []);
    assert !Occurs(pat, []);
  }

  lemma OneLine(c: byte, line: seq<byte>, j: nat)
    requires j < |line| && line[j] == c < 128
    ensures Output([c], [line]) == [CString(line)] && Matching([c], [line]) == [line]
  {
    SingleHit(c, line, j);
  }

  lemma NulPrinted(file: seq<byte>, read: (nat, nat) -> nat)
    requires file == [97, NUL, 98] && ValidRead(3, read) && read(0, BUFSIZE) == 3
    ensures Printed([98], file, read) == [[97]] && Matching([98], Lines(file)) == [file]
  {
    assert CString(file) == [97] by { CStringUnique(file, 1); }
    OneLine(98, file, 2);
    FirstBreakIs(file, 3);
    assert Lines(file) == [file];
    OnePass([98], file, read);
  }

  /** There grep prints "a" for "b". */
  lemma NulCutsLine()
    ensures ValidImage(NulImage()) && Dense(NulImage().inodes[0]) && File(NulImage(), 0) == [97, NUL, 98]
    ensures var file, read := File(NulImage(), 0), KernelRead(NulImage(), 0);
            && ValidRead(|file|, read) && Printed([98], file, read) == [[97]]
            && Matching([98], Lines(file)) == [file]
  {
    NulFile();
    KernelReadsAreValid(NulImage(), 0);
    KernelReadsFillExactly(NulImage(), 0);
    NulPrinted(File(NulImage(), 0), KernelRead(NulImage(), 0));
  }

  /** A full buffer: "xb", a newline and NULs. */
  function StaleFile(): (r: seq<byte>)
    ensures |r| == BUFSIZE && r[0] == 120 && r[1] == 98 && r[2] == NEWLINE
    ensures forall j :: 3 <= j < BUFSIZE ==> r[j] == NUL
  {
    [120, 98, NEWLINE] + seq<byte>(BUFSIZE - 3, _ => NUL)
  }

  lemma StaleLines(b: seq<byte>)
    requires b == StaleFile()
    ensures Left(b) == b[3..] && !Unbroken(b) && Emit(b) == [[120, 98]]
  {
    var nuls := b[3..];
    LeftAfterBreak(b, 2, nuls);
    FirstBreakIs(b, 2);
    FirstBreakIs(nuls, |nuls|);
    assert b[..2] == [120, 98] && Done(nuls) == [];
    assert Done(b) == [b[..2]] + Done(nuls);
  }

  /** Moving the line of NULs to the front moves nothing, so "b" turns up in it. */
  lemma StaleKept(b: seq<byte>)
    requires b == StaleFile()
    ensures AllNul(Left(b)) && |Kept(b)| == BUFSIZE - 3 && Kept(b)[0] == NUL && Kept(b)[1] == 98
  {
    StaleLines(b);
    var nuls := b[3..];
    CStringUnique(nuls, 0);
    MovedByte(b, nuls, 0);
    MovedByte(b, nuls, 1);
  }

  /** No line mixes NULs with other bytes there, but for "b" an empty line is printed behind "xb". */
  lemma StaleBytesShow(b: seq<byte>, read: (nat, nat) -> nat)
    requires b == StaleFile() && ValidRead(BUFSIZE, read) && FullRead(BUFSIZE, read)
    ensures Ascii(b) && AllPlain(Lines(b)) && Printed([98], b, read) == [[120, 98], []] && !RightFor([98], b, read)
  {
    StaleLines(b);
    StaleKept(b);
    StalePrinted(b, read);
    assert AllPlain(Lines(b)) by {
      var nuls := b[3..];
      assert b + [] == b && nuls + [] == nuls;
      LinesOfConcat(b, []);
      FirstBreakIs(nuls, |nuls|);
      assert Lines(b) == [[120, 98], nuls];
    }
    NoEmptyMatch([98], Lines(b));
    assert [] in Printed([98], b, read);
  }

  /** A file as long as the buffer: one pass, and one for what it keeps. */
  lemma FullPass(pat: seq<byte>, b: seq<byte>, read: (nat, nat) -> nat)
    requires ValidRead(BUFSIZE, read) && FullRead(BUFSIZE, read) && |b| == BUFSIZE
    ensures Printed(pat, b, read) == Output(pat, Emit(b)) + Output(pat, [Kept(b)])
  {
    assert [] + b[..BUFSIZE] == b && b[BUFSIZE..] == [];
    OutputStep(pat, BUFSIZE, read, [], b);
    LastPass(BUFSIZE, read, Kept(b), []);
  }

  lemma StalePrinted(b: seq<byte>, read: (nat, nat) -> nat)
    requires ValidRead(BUFSIZE, read) && FullRead(BUFSIZE, read) && |b| == BUFSIZE
    requires Emit(b) == [[120, 98]] && 1 < |Kept(b)| < BUFSIZE && Kept(b)[0] == NUL && Kept(b)[1] == 98
    ensures Printed([98], b, read) == [[120, 98], []]
  {
    var pat: seq<byte>, kept := [98], Kept(b);
    assert Output(pat, Emit(b)) == [[120, 98]] by {
      var line: seq<byte> := [120, 98];
      OneLine(98, line, 1);
      CStringUnique(line, 2);
      assert CString(line) == line;
    }
    assert Output(pat, [kept]) == [[]] by {
      OneLine(98, kept, 1);
      CStringUnique(kept, 0);
    }
    FullPass(pat, b, read);
  }
}
