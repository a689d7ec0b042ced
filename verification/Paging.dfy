/** Page directories and what user code can reach through them
    (32-bit paging, section 4.3 of the Intel SDM, volume 3A). */
module Paging {
  import opened Common

  const NUM_PROCESS := 6
  const ENTRIES := 1024
  const PAGE := 4096
  const FOUR_MB := 0x400000

  const READ_WRITE := 0x02
  const USER_PRESENT := 7
  const VIDEO := 0xB8000
  const VIDEO_ENTRY := 184
  const EMPTY_MEMORY := 0x2400000
  const KERNEL_ENTRY := 0x400183
  const SHELL_ENTRY := 0x800187

  const PROGRAM_START := 0x8000000
  const USER_INDEX := 32
  const VIDMAP_INDEX := 33
  const TERM_INDEX := 34

  /** The linker's addresses of the three shared page tables. */
  datatype Layout = Layout(low: int, term: int, vidmap: int)

  predicate Aligned(a: int) {
    0 <= a < 0x1_0000_0000 && a % PAGE == 0
  }

  predicate ValidLayout(l: Layout) {
    && Aligned(l.low) && Aligned(l.term) && Aligned(l.vidmap)
    && l.low != l.term && l.low != l.vidmap && l.term != l.vidmap
  }

  // ----- the hardware's reading of an entry

  predicate Present(e: int) { e % 2 == 1 }

  predicate UserBit(e: int) { e / 4 % 2 == 1 }

  predicate Large(e: int) { e / 128 % 2 == 1 }

  /** The physical address a user-mode access to `v` reaches, if any. */
  function UserAccess(tables: map<int, seq<int>>, dir: seq<int>, v: int): Option<int>
    requires |dir| == ENTRIES && 0 <= v < 0x1_0000_0000
    requires forall b :: b in tables ==> |tables[b]| == ENTRIES
  {
    var pde := dir[v / FOUR_MB];
    if !Present(pde) || !UserBit(pde) then None
    else if Large(pde) then Some(pde / FOUR_MB * FOUR_MB + v % FOUR_MB)
    else
      var base := pde / PAGE * PAGE;
      if base !in tables then None else TableAccess(tables[base], v)
  }

  function TableAccess(table: seq<int>, v: int): Option<int>
    requires |table| == ENTRIES && 0 <= v
  {
    var pte := table[v / PAGE % ENTRIES];
    if !Present(pte) || !UserBit(pte) then None else Some(pte / PAGE * PAGE + v % PAGE)
  }

  // ----- what the kernel writes

  predicate LowTable(t: seq<int>) {
    && |t| == ENTRIES
    && forall i :: 0 <= i < ENTRIES ==> t[i] == if i == VIDEO_ENTRY then VIDEO + USER_PRESENT else i * PAGE + READ_WRITE
  }

  predicate VidmapTable(t: seq<int>) {
    && |t| == ENTRIES
    && forall i :: 0 <= i < ENTRIES ==>
         t[i] == if i == 0 then VIDEO + USER_PRESENT else EMPTY_MEMORY + i * PAGE + READ_WRITE
  }

  predicate TermTable(t: seq<int>) {
    && |t| == ENTRIES
    && forall i :: 0 <= i < ENTRIES ==>
         t[i] == EMPTY_MEMORY + i * PAGE + if 1 <= i <= 3 then USER_PRESENT else READ_WRITE
  }

  predicate TablesOk(l: Layout, tables: map<int, seq<int>>) {
    && tables.Keys == {l.low, l.term, l.vidmap}
    && LowTable(tables[l.low]) && TermTable(tables[l.term]) && VidmapTable(tables[l.vidmap])
  }

  function UserEntry(pid: int): int {
    SHELL_ENTRY + pid * FOUR_MB
  }

  /** A directory as the kernel leaves it: only the program and vidmap entries ever change. */
  predicate DirOk(l: Layout, pid: int, dir: seq<int>) {
    && |dir| == ENTRIES
    && dir[0] == l.low + USER_PRESENT && dir[1] == KERNEL_ENTRY && dir[TERM_INDEX] == l.term + USER_PRESENT
    && dir[USER_INDEX] in {READ_WRITE, UserEntry(pid)}
    && dir[VIDMAP_INDEX] in {READ_WRITE, l.vidmap + USER_PRESENT}
    && forall i :: 2 <= i < ENTRIES && !(USER_INDEX <= i <= TERM_INDEX) ==> dir[i] == READ_WRITE
  }

  method FillTable(start: int) returns (table: array<int>)
    ensures fresh(table) && table.Length == ENTRIES
    ensures forall i :: 0 <= i < ENTRIES ==> table[i] == start + i * PAGE + READ_WRITE
  {
    table := new int[ENTRIES];
    var addr := start;
    for i := 0 to ENTRIES
      invariant addr == start + i * PAGE
      invariant forall j :: 0 <= j < i ==> table[j] == start + j * PAGE + READ_WRITE
    {
      table[i] := addr + READ_WRITE;
      addr := addr + PAGE;
    }
  }

  method InitializeTables(l: Layout) returns (tables: map<int, seq<int>>)
    requires ValidLayout(l)
    ensures TablesOk(l, tables)
  {
    var low := FillTable(0);
    low[VIDEO_ENTRY] := VIDEO + USER_PRESENT;
    var vidmap := FillTable(EMPTY_MEMORY);
    vidmap[0] := VIDEO + USER_PRESENT;
    var term := FillTable(EMPTY_MEMORY);
    term[1], term[2], term[3] := 0x2401000 + USER_PRESENT, 0x2402000 + USER_PRESENT, 0x2403000 + USER_PRESENT;
    tables := map[l.low := low[..], l.term := term[..], l.vidmap := vidmap[..]];
  }

  /** A directory before any program is loaded. */
  function EmptyDir(l: Layout): (dir: seq<int>)
    ensures forall pid :: DirOk(l, pid, dir)
  {
    seq(ENTRIES, _ => READ_WRITE)[0 := l.low + USER_PRESENT][1 := KERNEL_ENTRY][TERM_INDEX := l.term + USER_PRESENT]
  }

  method InitializeDirectories(l: Layout) returns (dirs: seq<seq<int>>)
    ensures |dirs| == NUM_PROCESS && forall p :: 0 <= p < NUM_PROCESS ==> dirs[p] == EmptyDir(l)
  {
    dirs := [];
    for p := 0 to NUM_PROCESS
      invariant |dirs| == p && forall q :: 0 <= q < p ==> dirs[q] == EmptyDir(l)
    {
      var dir := new int[ENTRIES](i => READ_WRITE);
      dir[0], dir[TERM_INDEX], dir[1] := l.low + USER_PRESENT, l.term + USER_PRESENT, KERNEL_ENTRY;
      dirs := dirs + [dir[..]];
    }
  }

  // ----- what a process can reach

  predicate InFrame(pid: int, a: int) {
    0x800000 + pid * FOUR_MB <= a < 0x800000 + (pid + 1) * FOUR_MB
  }

  predicate InKernel(a: int) {
    FOUR_MB <= a < 2 * FOUR_MB
  }

  predicate InVideo(a: int) {
    VIDEO <= a < VIDEO + PAGE
  }

  /** The backing page of terminal `t`. */
  predicate InBacking(t: int, a: int) {
    EMPTY_MEMORY + t * PAGE <= a < EMPTY_MEMORY + (t + 1) * PAGE
  }

  lemma UserPresentBits(q: int)
    ensures Present(4096 * q + 7) && UserBit(4096 * q + 7)
  {
    assert (4096 * q + 7) / 4 == 1024 * q + 1;
  }

  lemma NotLarge(q: int)
    ensures !Large(4096 * q + 7)
  {
    assert (4096 * q + 7) / 128 == 32 * q;
  }

  lemma TableEntryBits(base: int)
    requires Aligned(base)
    ensures Present(base + USER_PRESENT) && UserBit(base + USER_PRESENT) && !Large(base + USER_PRESENT)
    ensures (base + USER_PRESENT) / PAGE * PAGE == base
    ensures !Present(base + READ_WRITE)
  {
    var q := base / PAGE;
    assert base == 4096 * q;
    UserPresentBits(q);
    NotLarge(q);
  }

  /** An address user code of process `pid` may touch. */
  predicate Allowed(pid: int, a: int) {
    InFrame(pid, a) || InVideo(a) || exists t :: 1 <= t <= 3 && InBacking(t, a)
  }

  lemma TablesReach(table: seq<int>, pid: int, v: int)
    requires LowTable(table) || TermTable(table) || VidmapTable(table)
    requires 0 <= v
    ensures TableAccess(table, v).Some? ==> Allowed(pid, TableAccess(table, v).value)
  {
    var k := v / PAGE % ENTRIES;
    TableEntryBits(VIDEO);
    TableEntryBits(k * PAGE);
    TableEntryBits(EMPTY_MEMORY + k * PAGE);
    assert TermTable(table) && 1 <= k <= 3 ==> InBacking(k, EMPTY_MEMORY + k * PAGE + v % PAGE);
  }

  /** Isolation: user code of process `pid` reaches its own 4 MB frame, the video page and the
      terminals' backing pages, and nothing else. */
  lemma UserReach(l: Layout, tables: map<int, seq<int>>, pid: int, dir: seq<int>, v: int)
    requires ValidLayout(l) && TablesOk(l, tables) && DirOk(l, pid, dir)
    requires 0 <= pid < NUM_PROCESS && 0 <= v < 0x1_0000_0000
    ensures UserAccess(tables, dir, v).Some? ==> Allowed(pid, UserAccess(tables, dir, v).value)
  {
    TableEntryBits(l.low);
    TableEntryBits(l.term);
    TableEntryBits(l.vidmap);
    var base := dir[v / FOUR_MB] / PAGE * PAGE;
    if base in tables {
      TablesReach(tables[base], pid, v);
    }
  }

  // ----- exactly what is mapped

  /** What user mode reaches at `v`: video memory, the program in its frame if one is mapped, video memory again
      behind it after vidmap, and the backing pages of terminals 1 to 3. */
  function Mapped(pid: int, program: bool, vidmap: bool, v: int): Option<int> {
    if 0xB8000 <= v < 0xB9000 then Some(v)
    else if program && 0x8000000 <= v < 0x8400000 then Some(0x800000 + pid * 0x400000 + (v - 0x8000000))
    else if vidmap && 0x8400000 <= v < 0x8401000 then Some(0xB8000 + (v - 0x8400000))
    else if 0x8801000 <= v < 0x8804000 then Some(0x2401000 + (v - 0x8801000))
    else None
  }

  lemma LowTranslation(table: seq<int>, v: int)
    requires LowTable(table) && 0 <= v < FOUR_MB
    ensures TableAccess(table, v) == if 0xB8000 <= v < 0xB9000 then Some(v) else None
  {
    var k := v / PAGE;
    TableEntryBits(VIDEO);
    TableEntryBits(k * PAGE);
    assert k == VIDEO_ENTRY <==> 0xB8000 <= v < 0xB9000;
  }

  lemma VidmapTranslation(table: seq<int>, v: int)
    requires VidmapTable(table) && 0x8400000 <= v < 0x8800000
    ensures TableAccess(table, v) == if v < 0x8401000 then Some(0xB8000 + (v - 0x8400000)) else None
  {
    var k := v / PAGE % ENTRIES;
    TableEntryBits(VIDEO);
    TableEntryBits(EMPTY_MEMORY + k * PAGE);
    assert k == (v - 0x8400000) / PAGE;
  }

  lemma TermTranslation(table: seq<int>, v: int)
    requires TermTable(table) && 0x8800000 <= v < 0x8C00000
    ensures TableAccess(table, v) == if 0x8801000 <= v < 0x8804000 then Some(0x2401000 + (v - 0x8801000)) else None
  {
    var k := v / PAGE % ENTRIES;
    TableEntryBits(EMPTY_MEMORY + k * PAGE);
    assert k == (v - 0x8800000) / PAGE;
    assert 1 <= k <= 3 <==> 0x8801000 <= v < 0x8804000;
  }

  /** For every address, through any directory the kernel leaves. */
  lemma Translation(l: Layout, tables: map<int, seq<int>>, pid: int, dir: seq<int>, v: int)
    requires ValidLayout(l) && TablesOk(l, tables) && DirOk(l, pid, dir)
    requires 0 <= pid < NUM_PROCESS && 0 <= v < 0x1_0000_0000
    ensures UserAccess(tables, dir, v) ==
            Mapped(pid, dir[USER_INDEX] != READ_WRITE, dir[VIDMAP_INDEX] != READ_WRITE, v)
  {
    var i := v / FOUR_MB;
    TableEntryBits(l.low);
    TableEntryBits(l.term);
    TableEntryBits(l.vidmap);
    if i == 0 {
      LowTranslation(tables[l.low], v);
    } else if i == USER_INDEX {
      UserEntryBits(pid);
    } else if i == VIDMAP_INDEX {
      VidmapTranslation(tables[l.vidmap], v);
    } else if i == TERM_INDEX {
      TermTranslation(tables[l.term], v);
    }
  }

  lemma UserEntryBits(pid: int)
    requires 0 <= pid < NUM_PROCESS
    ensures Present(UserEntry(pid)) && UserBit(UserEntry(pid)) && Large(UserEntry(pid))
    ensures UserEntry(pid) / FOUR_MB * FOUR_MB == 0x800000 + pid * 0x400000
  {
  }

  /** The page at which the kernel keeps terminal `t` is a page of its own for each of the three. */
  lemma TerminalPage(l: Layout, tables: map<int, seq<int>>, pid: int, dir: seq<int>, t: int, v: int)
    requires ValidLayout(l) && TablesOk(l, tables) && DirOk(l, pid, dir) && 0 <= pid < NUM_PROCESS
    requires 1 <= t <= 3 && 0x8800000 + t * 4096 <= v < 0x8800000 + (t + 1) * 4096
    ensures UserAccess(tables, dir, v) == Some(0x2400000 + t * 4096 + v % 4096)
  {
    Translation(l, tables, pid, dir, v);
    assert v % 4096 == v - (0x8800000 + t * 4096);
  }

  /** What one process may touch lies outside the kernel page and outside every other frame. */
  lemma AllowedApart(p: int, q: int, a: int)
    requires 0 <= p < NUM_PROCESS && 0 <= q < NUM_PROCESS && Allowed(p, a)
    ensures !InKernel(a) && (p != q ==> !InFrame(q, a))
  {
  }

  /** The program area of a set-up directory is exactly that process's frame. */
  lemma ProgramArea(l: Layout, tables: map<int, seq<int>>, pid: int, dir: seq<int>, v: int)
    requires ValidLayout(l) && TablesOk(l, tables) && DirOk(l, pid, dir) && dir[USER_INDEX] == UserEntry(pid)
    requires 0 <= pid < NUM_PROCESS && PROGRAM_START <= v < PROGRAM_START + FOUR_MB
    ensures UserAccess(tables, dir, v) == Some(0x800000 + pid * FOUR_MB + v - PROGRAM_START)
  {
  }

  /** With its vidmap entry set, the page behind the program area is the video page. */
  lemma VidmapPage(l: Layout, tables: map<int, seq<int>>, dir: seq<int>, v: int)
    requires ValidLayout(l) && TablesOk(l, tables) && |dir| == ENTRIES && dir[VIDMAP_INDEX] == l.vidmap + USER_PRESENT
    requires PROGRAM_START + FOUR_MB <= v < PROGRAM_START + FOUR_MB + PAGE
    ensures UserAccess(tables, dir, v) == Some(VIDEO + v - (PROGRAM_START + FOUR_MB))
  {
    TableEntryBits(l.vidmap);
    assert v / FOUR_MB == VIDMAP_INDEX && v / PAGE % ENTRIES == 0;
  }
}
