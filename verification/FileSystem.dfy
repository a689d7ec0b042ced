/** The read-only file system: directory lookup, block-wise reading and the `cat` loop. */
module FileSystem {
  import opened Common
  import opened Strings

  const BLOCK := 4096
  const SLOTS := 1023
  const NAME_LENGTH := 32

  const KIND_RTC := 0
  const KIND_DIR := 1
  const KIND_FILE := 2
  const KIND_TERM := 4

  datatype Dentry = Dentry(name: seq<byte>, kind: int, inode: nat)

  /** `words` holds the 1023 block numbers of the inode's disk block, then the word that follows it:
      the read loop may look one slot past the last used one. */
  datatype Inode = Inode(length: nat, words: seq<nat>)

  datatype Image = Image(dentries: seq<Dentry>, inodes: seq<Inode>, blocks: seq<seq<byte>>)

  predicate ValidInode(img: Image, ino: Inode) {
    && |ino.words| == SLOTS + 1
    && ino.length <= SLOTS * BLOCK
    && forall j :: 0 <= j < SLOTS && j * BLOCK < ino.length ==> ino.words[j] < |img.blocks|
  }

  predicate ValidImage(img: Image) {
    && (forall b :: 0 <= b < |img.blocks| ==> |img.blocks[b]| == BLOCK)
    && (forall i :: 0 <= i < |img.inodes| ==> ValidInode(img, img.inodes[i]))
    && (forall d :: 0 <= d < |img.dentries| && img.dentries[d].kind == KIND_FILE
          ==> img.dentries[d].inode < |img.inodes|)
    && (forall d :: 0 <= d < |img.dentries| ==> |img.dentries[d].name| == NAME_LENGTH)
  }

  /** Block number 0 stands for "no block", so a readable file uses none. */
  predicate Dense(ino: Inode)
    requires |ino.words| == SLOTS + 1
  {
    forall j :: 0 <= j < SLOTS && j * BLOCK < ino.length ==> ino.words[j] != 0
  }

  lemma BlockIndex(k: nat, length: nat)
    requires k < length <= SLOTS * BLOCK
    ensures 0 <= k / BLOCK < SLOTS && k / BLOCK * BLOCK <= k < length
  {
  }

  function FileByte(img: Image, i: nat, k: nat): byte
    requires ValidImage(img) && i < |img.inodes| && k < img.inodes[i].length
  {
    BlockIndex(k, img.inodes[i].length);
    assert ValidInode(img, img.inodes[i]);
    img.blocks[img.inodes[i].words[k / BLOCK]][k % BLOCK]
  }

  /** The file as a flat byte sequence. */
  function File(img: Image, i: nat): (f: seq<byte>)
    requires ValidImage(img) && i < |img.inodes|
  {
    seq(img.inodes[i].length, k requires 0 <= k < img.inodes[i].length => FileByte(img, i, k))
  }

  /** The first `n` blocks of a file, one after the other. */
  function Blocks(img: Image, i: nat, n: nat): (r: seq<byte>)
    requires ValidImage(img) && i < |img.inodes| && n <= SLOTS && (n > 0 ==> (n - 1) * BLOCK < img.inodes[i].length)
    ensures |r| == n * BLOCK
  {
    if n == 0 then [] else
      assert ValidInode(img, img.inodes[i]);
      Blocks(img, i, n - 1) + img.blocks[img.inodes[i].words[n - 1]]
  }

  lemma {:induction false} BlocksHold(img: Image, i: nat, n: nat, k: nat)
    requires ValidImage(img) && i < |img.inodes| && n <= SLOTS && (n > 0 ==> (n - 1) * BLOCK < img.inodes[i].length)
    requires k < n * BLOCK && k < img.inodes[i].length
    ensures Blocks(img, i, n)[k] == FileByte(img, i, k)
    decreases n
  {
    if k < (n - 1) * BLOCK {
      BlocksHold(img, i, n - 1, k);
    } else {
      assert k / BLOCK == n - 1 && k % BLOCK == k - (n - 1) * BLOCK;
    }
  }

  /** The file is its blocks in the order of the inode, cut to its length. */
  lemma FileIsItsBlocks(img: Image, i: nat)
    requires ValidImage(img) && i < |img.inodes|
    ensures var n := (img.inodes[i].length + BLOCK - 1) / BLOCK;
            && n <= SLOTS && (n > 0 ==> (n - 1) * BLOCK < img.inodes[i].length) && img.inodes[i].length <= n * BLOCK
            && File(img, i) == Blocks(img, i, n)[..img.inodes[i].length]
  {
    var length := img.inodes[i].length;
    assert ValidInode(img, img.inodes[i]);
    var n := (length + BLOCK - 1) / BLOCK;
    forall k | 0 <= k < length
      ensures File(img, i)[k] == Blocks(img, i, n)[k]
    {
      BlocksHold(img, i, n, k);
    }
  }

  // ----- read_data

  /** Number of leading nonzero words from `start`, at most `limit`. */
  function LiveBlocks(words: seq<nat>, start: nat, limit: nat): (m: nat)
    requires start + limit <= |words|
    ensures m <= limit
    ensures forall j :: start <= j < start + m ==> words[j] != 0
    ensures m < limit ==> words[start + m] == 0
    decreases limit
  {
    if limit == 0 || words[start] == 0 then 0 else 1 + LiveBlocks(words, start + 1, limit - 1)
  }

  /** Bytes in the buffer after `k` blocks. */
  function AfterBlocks(offset: nat, k: nat, len: nat): nat {
    if k == 0 then 0 else Min(len, k * BLOCK - offset % BLOCK)
  }

  function StartIn(offset: nat, k: nat): nat {
    if k == 0 then offset % BLOCK else 0
  }

  lemma SlotBound(offset: nat, n: nat, length: nat)
    requires offset + n <= length <= SLOTS * BLOCK
    ensures offset / BLOCK + n / BLOCK + 1 <= SLOTS + 1
  {
  }

  /** What read_data returns: -1 for a bad inode or offset, otherwise the number of bytes copied. */
  function ReadResult(img: Image, i: nat, offset: nat, length: nat): (r: int)
    requires ValidImage(img)
    ensures r >= 0 ==> i < |img.inodes| && offset + r <= img.inodes[i].length && r <= length
    ensures r < 0 <==> i >= |img.inodes| || offset > img.inodes[i].length
  {
    if i >= |img.inodes| || offset > img.inodes[i].length then -1
    else if offset == img.inodes[i].length || length == 0 then 0
    else
      var ino := img.inodes[i];
      var n := Min(length, ino.length - offset);
      assert ValidInode(img, ino);
      SlotBound(offset, n, ino.length);
      var live := LiveBlocks(ino.words, offset / BLOCK, n / BLOCK + 1);
      AfterBlocks(offset, live, n)
  }

  /** The exact count on a readable file: the request, the rest of the file, or the end of the
      last block the loop allows itself, whichever is least; short reads are possible, empty ones not. */
  lemma DenseReadResult(img: Image, i: nat, offset: nat, length: nat)
    requires ValidImage(img) && i < |img.inodes| && Dense(img.inodes[i])
    requires offset < img.inodes[i].length && length > 0
    ensures
      var n := Min(length, img.inodes[i].length - offset);
      ReadResult(img, i, offset, length) == Min(n, (n / BLOCK + 1) * BLOCK - offset % BLOCK) >= 1
  {
  }

  /** At offset 0 nothing is ever cut short: program loading is complete. */
  lemma ReadFromStartIsFull(img: Image, i: nat, length: nat)
    requires ValidImage(img) && i < |img.inodes| && Dense(img.inodes[i])
    ensures ReadResult(img, i, 0, length) == Min(length, img.inodes[i].length)
  {
  }

  /** read_data's inner loop: copy one block from `off` on, until `len` bytes are in the buffer.
      The block is not touched when all bytes are already there. */
  method CopyBlock(img: Image, block: nat, off: nat, buf: array<byte>, at: nat, len: nat, ghost want: seq<byte>)
      returns (copied: nat, done: bool)
    requires at < len ==> block < |img.blocks| && |img.blocks[block]| == BLOCK
    requires off < BLOCK && at <= len == |want| && Min(len, at + BLOCK - off) <= buf.Length
    requires at < len ==> forall j :: off <= j < BLOCK && at + j - off < len ==>
               img.blocks[block][j] == want[at + j - off]
    requires buf[..at] == want[..at]
    modifies buf
    ensures copied == Min(len, at + BLOCK - off)
    ensures done ==> copied == len
    ensures buf[..copied] == want[..copied] && buf[copied..] == old(buf[copied..])
  {
    copied := at;
    var j := off;
    while j < BLOCK
      invariant off <= j <= BLOCK && copied == at + j - off <= len
      invariant buf[..copied] == want[..copied] && buf[copied..] == old(buf[copied..])
    {
      if copied == len {
        return copied, true;
      }
      buf[copied] := img.blocks[block][j];
      copied := copied + 1;
      j := j + 1;
    }
    return copied, false;
  }

  lemma NextBlock(offset: nat, k: nat, len: nat)
    ensures var at := AfterBlocks(offset, k, len);
            && at <= len && StartIn(offset, k) < BLOCK
            && AfterBlocks(offset, k + 1, len) == Min(len, at + BLOCK - StartIn(offset, k))
            && (at < len ==> (offset + at) / BLOCK == offset / BLOCK + k && (offset + at) % BLOCK == StartIn(offset, k))
  {
  }

  /** The block that holds byte `offset + at` of the file holds the bytes that follow it too. */
  lemma BlockHoldsFile(img: Image, i: nat, offset: nat, k: nat, len: nat)
    requires ValidImage(img) && i < |img.inodes| && offset + len <= img.inodes[i].length
    requires AfterBlocks(offset, k, len) < len
    ensures offset / BLOCK + k < SLOTS && img.inodes[i].words[offset / BLOCK + k] < |img.blocks|
    ensures var at, off := AfterBlocks(offset, k, len), StartIn(offset, k);
            var block := img.blocks[img.inodes[i].words[offset / BLOCK + k]];
            forall j :: off <= j < BLOCK && at + j - off < len ==>
              block[j] == File(img, i)[offset..offset + len][at + j - off]
  {
  }

  /** One pass of read_data's outer loop: the `k`-th block, if it is needed at all. */
  method CopyNext(img: Image, i: nat, offset: nat, k: nat, buf: array<byte>, at: nat, len: nat, ghost want: seq<byte>)
      returns (copied: nat, done: bool)
    requires ValidImage(img) && i < |img.inodes| && offset + len <= img.inodes[i].length
    requires want == File(img, i)[offset..offset + len]
    requires offset / BLOCK + k < |img.inodes[i].words|
    requires at == AfterBlocks(offset, k, len) && AfterBlocks(offset, k + 1, len) <= buf.Length
    requires buf[..at] == want[..at]
    modifies buf
    ensures copied == AfterBlocks(offset, k + 1, len) && (done ==> copied == len)
    ensures buf[..copied] == want[..copied] && buf[copied..] == old(buf[copied..])
  {
    NextBlock(offset, k, len);
    if at < len {
      BlockHoldsFile(img, i, offset, k, len);
    }
    copied, done := CopyBlock(img, img.inodes[i].words[offset / BLOCK + k], StartIn(offset, k), buf, at, len, want);
  }

  lemma BlocksGrow(offset: nat, k: nat, m: nat, len: nat)
    requires k <= m
    ensures AfterBlocks(offset, k, len) <= AfterBlocks(offset, m, len) <= len
    ensures k < m && AfterBlocks(offset, k, len) == len ==> AfterBlocks(offset, m, len) == len
  {
  }

  /** read_data's outer loop: walk the blocks until one is missing or the count is reached. */
  method CopyBlocks(img: Image, i: nat, offset: nat, buf: array<byte>, len: nat, ghost live: nat, ghost want: seq<byte>)
      returns (copied: nat)
    requires ValidImage(img) && i < |img.inodes| && offset + len <= img.inodes[i].length
    requires want == File(img, i)[offset..offset + len]
    requires offset / BLOCK + len / BLOCK + 1 <= |img.inodes[i].words|
    requires live == LiveBlocks(img.inodes[i].words, offset / BLOCK, len / BLOCK + 1)
    requires AfterBlocks(offset, live, len) <= buf.Length
    modifies buf
    ensures copied == AfterBlocks(offset, live, len)
    ensures buf[..copied] == want[..copied] && buf[copied..] == old(buf[copied..])
  {
    var startBlock := offset / BLOCK;
    var blocksLeft := len / BLOCK + 1;
    copied := 0;
    var k := 0;
    while k < blocksLeft
      invariant k <= live && copied == AfterBlocks(offset, k, len)
      invariant buf[..copied] == want[..copied] && buf[copied..] == old(buf[copied..])
    {
      if img.inodes[i].words[startBlock + k] == 0 { break; }
      BlocksGrow(offset, k + 1, live, len);
      var done;
      copied, done := CopyNext(img, i, offset, k, buf, copied, len, want);
      if done { return; }
      k := k + 1;
    }
  }

  lemma SliceOfSlice(s: seq<byte>, at: nat, n: nat, m: nat)
    requires at + n <= |s| && m <= n
    ensures s[at..at + n][..m] == s[at..at + m]
  {
  }

  /** read_data past its range checks. */
  method ReadInside(img: Image, i: nat, offset: nat, buf: array<byte>, length: nat) returns (r: nat)
    requires ValidImage(img) && i < |img.inodes| && offset < img.inodes[i].length && length > 0
    requires ReadResult(img, i, offset, length) <= buf.Length
    modifies buf
    ensures r == ReadResult(img, i, offset, length)
    ensures buf[..r] == File(img, i)[offset..offset + r] && buf[r..] == old(buf[r..])
  {
    var ino := img.inodes[i];
    var len := if ino.length - offset < length then ino.length - offset else length;
    assert ValidInode(img, ino);
    SlotBound(offset, len, ino.length);
    ghost var live := LiveBlocks(ino.words, offset / BLOCK, len / BLOCK + 1);
    ghost var want := File(img, i)[offset..offset + len];
    r := CopyBlocks(img, i, offset, buf, len, live, want);
    SliceOfSlice(File(img, i), offset, len, r);
  }

  method ReadData(img: Image, i: nat, offset: nat, buf: array<byte>, length: nat) returns (r: int)
    requires ValidImage(img)
    requires ReadResult(img, i, offset, length) <= buf.Length
    modifies buf
    ensures r == ReadResult(img, i, offset, length)
    ensures r >= 0 ==> buf[..r] == File(img, i)[offset..offset + r] && buf[r..] == old(buf[r..])
    ensures r < 0 ==> buf[..] == old(buf[..])
  {
    if i >= |img.inodes| || offset > img.inodes[i].length { return -1; }
    if offset == img.inodes[i].length || length == 0 { return 0; }
    r := ReadInside(img, i, offset, buf, length);
  }

  // ----- reading a whole file

  /** No read crosses a missing block. */
  lemma ReadStopsAtHole(img: Image, i: nat, offset: nat, length: nat, hole: nat)
    requires ValidImage(img) && i < |img.inodes|
    requires hole < SLOTS && hole * BLOCK < img.inodes[i].length && img.inodes[i].words[hole] == 0
    requires offset <= hole * BLOCK
    ensures offset + ReadResult(img, i, offset, length) <= hole * BLOCK
  {
  }

  /** A read of `n` bytes at `pos` of a file of `size` bytes returns some, unless none are left. */
  ghost predicate ValidRead(size: nat, read: (nat, nat) -> nat) {
    forall pos: nat, n: nat :: pos <= size ==>
      read(pos, n) <= n && pos + read(pos, n) <= size && (read(pos, n) == 0 <==> n == 0 || pos == size)
  }

  /** This kernel's reads of one file. */
  function KernelRead(img: Image, i: nat): (nat, nat) -> nat
    requires ValidImage(img)
  {
    (pos, n) => var r := ReadResult(img, i, pos, n); if r < 0 then 0 else r
  }

  /** A positive read returns 0 at the end of the file and nowhere else. */
  lemma ZeroOnlyAtEnd(img: Image, i: nat, pos: nat, length: nat)
    requires ValidImage(img) && i < |img.inodes| && Dense(img.inodes[i]) && pos <= img.inodes[i].length && length > 0
    ensures ReadResult(img, i, pos, length) == 0 <==> pos == img.inodes[i].length
  {
  }

  lemma KernelReadsAreValid(img: Image, i: nat)
    requires ValidImage(img) && i < |img.inodes| && Dense(img.inodes[i])
    ensures ValidRead(|File(img, i)|, KernelRead(img, i))
  {
    forall pos: nat, n: nat | pos <= img.inodes[i].length
      ensures KernelRead(img, i)(pos, n) == 0 <==> n == 0 || pos == img.inodes[i].length
    {
      if n > 0 {
        ZeroOnlyAtEnd(img, i, pos, n);
      }
    }
  }

  /** The position after successive reads of the given sizes. */
  ghost function EndOf(size: nat, read: (nat, nat) -> nat, pos: nat, sizes: seq<nat>): (end: nat)
    requires ValidRead(size, read) && pos <= size
    ensures pos <= end <= size
    decreases |sizes|
  {
    if sizes == [] then pos else EndOf(size, read, pos + read(pos, sizes[0]), sizes[1..])
  }

  /** The bytes those reads deliver, one piece after the other. */
  ghost function Delivered(file: seq<byte>, read: (nat, nat) -> nat, pos: nat, sizes: seq<nat>): seq<byte>
    requires ValidRead(|file|, read) && pos <= |file|
    decreases |sizes|
  {
    if sizes == [] then [] else
      var next := pos + read(pos, sizes[0]);
      file[pos..next] + Delivered(file, read, next, sizes[1..])
  }

  /** Whatever positive sizes are requested, the pieces tile the file from `pos` without gap or
      overlap; each read short of the end makes progress, so the end is reached within as many
      reads as bytes are left. */
  lemma {:induction false} ReadsTile(file: seq<byte>, read: (nat, nat) -> nat, pos: nat, sizes: seq<nat>)
    requires ValidRead(|file|, read) && pos <= |file| && forall j :: 0 <= j < |sizes| ==> sizes[j] > 0
    ensures Delivered(file, read, pos, sizes) == file[pos..EndOf(|file|, read, pos, sizes)]
    ensures EndOf(|file|, read, pos, sizes) >= Min(|file|, pos + |sizes|)
    decreases |sizes|
  {
    if sizes != [] {
      var next := pos + read(pos, sizes[0]);
      ReadsTile(file, read, next, sizes[1..]);
      Join(file, pos, next, EndOf(|file|, read, next, sizes[1..]));
    }
  }

  /** The same on this kernel's own reads, short ones at block boundaries included. */
  lemma ReadsTileTheFile(img: Image, i: nat, pos: nat, sizes: seq<nat>)
    requires ValidImage(img) && i < |img.inodes| && Dense(img.inodes[i]) && pos <= |File(img, i)|
    requires forall j :: 0 <= j < |sizes| ==> sizes[j] > 0
    ensures var file, read := File(img, i), KernelRead(img, i);
            && ValidRead(|file|, read)
            && Delivered(file, read, pos, sizes) == file[pos..EndOf(|file|, read, pos, sizes)]
            && EndOf(|file|, read, pos, sizes) >= Min(|file|, pos + |sizes|)
  {
    KernelReadsAreValid(img, i);
    ReadsTile(File(img, i), KernelRead(img, i), pos, sizes);
  }

  const CAT_BUFFER := 1024

  /** No missing block lies before `pos`. */
  predicate NoHoleBefore(ino: Inode, pos: nat)
    requires |ino.words| == SLOTS + 1
  {
    forall h :: 0 <= h < SLOTS && h * BLOCK < ino.length && ino.words[h] == 0 ==> pos <= h * BLOCK
  }

  lemma ReadKeepsOffHoles(img: Image, i: nat, pos: nat, length: nat)
    requires ValidImage(img) && i < |img.inodes| && pos <= img.inodes[i].length && NoHoleBefore(img.inodes[i], pos)
    ensures NoHoleBefore(img.inodes[i], pos + ReadResult(img, i, pos, length))
  {
  }

  /** How much of a file can be read: up to its first missing block. */
  function Readable(ino: Inode): (n: nat)
    requires |ino.words| == SLOTS + 1
    ensures n <= ino.length
  {
    Min(ino.length, LiveBlocks(ino.words, 0, SLOTS) * BLOCK)
  }

  lemma ReadableExactly(img: Image, i: nat)
    requires ValidImage(img) && i < |img.inodes|
    ensures Readable(img.inodes[i]) == img.inodes[i].length <==> Dense(img.inodes[i])
  {
    assert ValidInode(img, img.inodes[i]);
  }

  /** Reads dry up at the end of the file, or at its first missing block. */
  lemma DryMeansRead(img: Image, i: nat, pos: nat, length: nat)
    requires ValidImage(img) && i < |img.inodes| && pos <= img.inodes[i].length && NoHoleBefore(img.inodes[i], pos)
    requires length > 0 && ReadResult(img, i, pos, length) == 0
    ensures pos == Readable(img.inodes[i])
  {
    var ino := img.inodes[i];
    assert ValidInode(img, ino);
    var live := LiveBlocks(ino.words, 0, SLOTS);
    if pos < ino.length {
      assert ino.words[pos / BLOCK] == 0;
    }
    if live < SLOTS && live * BLOCK < ino.length {
      assert ino.words[live] == 0;
    }
  }

  /** The next read of the `cat` loop, in terms of the flat file. */
  method ReadNext(img: Image, i: nat, pos: nat, buf: array<byte>) returns (cnt: nat)
    requires ValidImage(img) && i < |img.inodes| && pos <= |File(img, i)| && buf.Length == CAT_BUFFER
    requires NoHoleBefore(img.inodes[i], pos)
    modifies buf
    ensures cnt <= buf.Length && pos + cnt <= |File(img, i)| && buf[..cnt] == File(img, i)[pos..pos + cnt]
    ensures NoHoleBefore(img.inodes[i], pos + cnt)
    ensures cnt == 0 ==> pos == Readable(img.inodes[i])
  {
    var r := ReadData(img, i, pos, buf, CAT_BUFFER);
    ReadKeepsOffHoles(img, i, pos, CAT_BUFFER);
    if r == 0 {
      DryMeansRead(img, i, pos, CAT_BUFFER);
    }
    return r;
  }

  /** The loop of the `cat` program. */
  method CatLoop(img: Image, i: nat, buf: array<byte>) returns (out: seq<byte>)
    requires ValidImage(img) && i < |img.inodes| && buf.Length == CAT_BUFFER
    modifies buf
    ensures out == File(img, i)[..Readable(img.inodes[i])]
  {
    ghost var file := File(img, i);
    out := [];
    var pos: nat := 0;
    var cnt: nat := ReadNext(img, i, pos, buf);
    while cnt != 0
      invariant pos + cnt <= |file| && cnt <= buf.Length && out == file[..pos] && buf[..cnt] == file[pos..pos + cnt]
      invariant NoHoleBefore(img.inodes[i], pos + cnt)
      invariant cnt == 0 ==> pos == Readable(img.inodes[i])
      decreases |file| - pos
    {
      out := out + buf[..cnt];
      pos := pos + cnt;
      cnt := ReadNext(img, i, pos, buf);
    }
  }

  /** It copies the file up to its first missing block, so the whole file exactly when none is missing. */
  method Cat(img: Image, i: nat, buf: array<byte>) returns (out: seq<byte>)
    requires ValidImage(img) && i < |img.inodes| && buf.Length == CAT_BUFFER
    modifies buf
    ensures out == File(img, i)[..Readable(img.inodes[i])]
    ensures out == File(img, i) <==> Dense(img.inodes[i])
  {
    out := CatLoop(img, i, buf);
    ReadableExactly(img, i);
  }

  /** Two blocks long, but the second one's number is 0, which the image itself allows as a block. */
  function HoleImage(): Image {
    Image([], [Inode(2 * BLOCK, [1] + seq(SLOTS, _ => 0))], [seq<byte>(BLOCK, _ => 65), seq<byte>(BLOCK, _ => 66)])
  }

  /** There `cat` stops half way. */
  lemma CatStopsShort()
    ensures ValidImage(HoleImage()) && |File(HoleImage(), 0)| == 2 * BLOCK && Readable(HoleImage().inodes[0]) == BLOCK
  {
    var words := HoleImage().inodes[0].words;
    assert words[0] == 1 && words[1] == 0;
    assert ValidInode(HoleImage(), HoleImage().inodes[0]);
  }

  // ----- directory lookup

  predicate SameName(a: seq<byte>, b: seq<byte>) {
    Bounded(a, NAME_LENGTH) == Bounded(b, NAME_LENGTH)
  }

  /** An entry with an empty name ends the directory. */
  predicate EndMarker(d: Dentry) {
    Bounded(d.name, NAME_LENGTH) == []
  }

  lemma EndMarkerIs(d: Dentry)
    requires |d.name| == NAME_LENGTH
    ensures EndMarker(d) <==> d.name[0] == NUL
  {
    assert d.name[..NAME_LENGTH] == d.name;
  }

  /** A directory entry's name is compared as a string of at most 32 bytes. */
  lemma SameNameIs(entry: seq<byte>, name: seq<byte>)
    requires |entry| == 32 && NUL in name
    ensures SameName(entry, name) <==>
            CString(entry) == if |CString(name)| <= 32 then CString(name) else CString(name)[..32]
  {
    assert entry[..32] == entry;
    if |name| > 32 {
      if |CString(name)| <= 32 && |CString(name)| < |name| {
        CStringUnique(name[..32], Min(32, |CString(name)|));
      } else {
        CStringUnique(name[..32], 32);
      }
    } else {
      assert name[..|name|] == name;
    }
  }

  /** Entry `d` is the first with this name, and the directory does not end before it. */
  predicate Finds(dir: seq<Dentry>, name: seq<byte>, d: int) {
    && 0 <= d < |dir| && Bounded(name, NAME_LENGTH) != [] && SameName(dir[d].name, name)
    && forall e :: 0 <= e < d ==> !SameName(dir[e].name, name) && !EndMarker(dir[e])
  }

  function Lookup(dir: seq<Dentry>, name: seq<byte>): (r: Option<Dentry>) {
    if Bounded(name, NAME_LENGTH) == [] || dir == [] then None
    else if SameName(dir[0].name, name) then Some(dir[0])
    else if EndMarker(dir[0]) then None
    else Lookup(dir[1..], name)
  }

  /** The lookup returns an entry exactly when one carries the name, and it is the first. */
  lemma {:induction false} LookupFindsFirst(dir: seq<Dentry>, name: seq<byte>) returns (d: int)
    ensures Lookup(dir, name).Some? ==> Finds(dir, name, d) && Lookup(dir, name).value == dir[d]
    ensures Lookup(dir, name).None? ==> forall e :: !Finds(dir, name, e)
  {
    d := 0;
    if Bounded(name, NAME_LENGTH) != [] && dir != [] && !SameName(dir[0].name, name) && !EndMarker(dir[0]) {
      var rest := LookupFindsFirst(dir[1..], name);
      d := rest + 1;
      forall e | Finds(dir, name, e)
        ensures Finds(dir[1..], name, e - 1)
      {
        assert dir[1..][e - 1] == dir[e];
      }
    }
  }

  /** Only the bounded name matters. */
  lemma {:induction false} LookupSameName(dir: seq<Dentry>, a: seq<byte>, b: seq<byte>)
    requires SameName(a, b)
    ensures Lookup(dir, a) == Lookup(dir, b)
  {
    if dir != [] {
      LookupSameName(dir[1..], a, b);
    }
  }

  method ReadDentryByName(img: Image, name: seq<byte>) returns (r: Option<Dentry>)
    requires ValidImage(img) && Scannable(name, NAME_LENGTH)
    ensures r == Lookup(img.dentries, name)
  {
    var empty := StrNCmp(name, [NUL], NAME_LENGTH);
    if empty == 0 { return None; }
    var d := 0;
    while d < |img.dentries|
      invariant d <= |img.dentries| && Lookup(img.dentries, name) == Lookup(img.dentries[d..], name)
    {
      assert img.dentries[d..][0] == img.dentries[d] && img.dentries[d..][1..] == img.dentries[d + 1..];
      var diff := StrNCmp(img.dentries[d].name, name, NAME_LENGTH);
      if diff == 0 { return Some(img.dentries[d]); }
      var last := StrNCmp(img.dentries[d].name, [NUL], NAME_LENGTH);
      if last == 0 { return None; }
      d := d + 1;
    }
    return None;
  }
}
