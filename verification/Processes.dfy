/** The process table, the scheduler and the system calls that change them, as steps on values.
    Every system call, key event or timer tick is one atomic step. */
module Processes {
  import opened Common
  import opened Strings
  import opened FileSystem
  import opened Commands
  import opened Paging

  const MAX_OPEN_FILES := 8
  const NOBODY := -1
  const STACK_BASE := 0x800000
  const TASK_STACK := 8192
  const SHELL: seq<byte> := [115, 104, 101, 108, 108]
  const TERMINAL_NAME: seq<byte> := [116, 101, 114, 109, 105, 110, 97, 108]

  datatype Kind = RtcFile | DirFile | RegFile | TermFile
  datatype Flags = Closed | Open(kind: Kind)
  datatype Desc = Desc(flags: Flags, inode: nat, position: nat)

  /** `arguments` is the string that sys_execute left for sys_getargs. */
  datatype Pcb = Pcb(fds: seq<Desc>, terminal: int, child: int, pid: int, parent: int, arguments: seq<byte>)

  /** `cur` is the process the global `pcb` points at, `cursor` the scheduler's next slot, `shells` the
      terminals launched so far, `loaded` the process whose directory is in CR3. */
  datatype Kernel = Kernel(active: set<int>, pcbs: seq<Pcb>, cur: int, cursor: int, shells: set<int>, shown: int,
                           dirs: seq<seq<int>>, loaded: int, esp0: int)

  /** What stays fixed: the boot image and the link addresses of the page tables. */
  datatype Env = Env(img: Image, layout: Layout)

  predicate ValidEnv(env: Env) {
    ValidImage(env.img) && Installed(env.img, SHELL) && ValidLayout(env.layout)
  }

  predicate IsPid(p: int) {
    0 <= p < NUM_PROCESS
  }

  predicate Shape(k: Kernel) {
    && |k.pcbs| == NUM_PROCESS && |k.dirs| == NUM_PROCESS && IsPid(k.cur) && IsPid(k.cursor)
    && (forall p :: 0 <= p < NUM_PROCESS ==> |k.pcbs[p].fds| == MAX_OPEN_FILES && |k.dirs[p]| == ENTRIES)
    && IsPid(k.pcbs[k.cur].pid) && (k.pcbs[k.cur].parent == NOBODY || IsPid(k.pcbs[k.cur].parent))
  }

  predicate Leaf(k: Kernel, p: int) {
    IsPid(p) && |k.pcbs| == NUM_PROCESS && p in k.active && k.pcbs[p].child == NOBODY
  }

  function StackTop(p: int): int {
    STACK_BASE - p * TASK_STACK
  }

  // ----- sys_execute

  function FreeFrom(active: set<int>, p: int): (r: Option<int>)
    requires 0 <= p <= NUM_PROCESS
    ensures r.Some? ==> p <= r.value < NUM_PROCESS && r.value !in active
    ensures r.Some? ==> forall q :: p <= q < r.value ==> q in active
    ensures r.None? ==> forall q :: p <= q < NUM_PROCESS ==> q in active
    decreases NUM_PROCESS - p
  {
    if p == NUM_PROCESS then None else if p !in active then Some(p) else FreeFrom(active, p + 1)
  }

  /** The lowest free process number. */
  function LowestFree(active: set<int>): (r: Option<int>) {
    FreeFrom(active, 0)
  }

  /** Who asked for the program: the current process, with arguments, a terminal shown for the first
      time (`whichTerm`), or a root shell that halted (`attemptExit`). */
  datatype Origin = Child(args: seq<byte>) | Launch(terminal: int) | Respawn

  function OpenTerminal(fd: Desc): Desc {
    fd.(flags := Open(TermFile))
  }

  function MapProgram(k: Kernel, p: int): Kernel
    requires Shape(k) && IsPid(p)
  {
    k.(dirs := k.dirs[p := k.dirs[p][USER_INDEX := UserEntry(p)]], loaded := p)
  }

  predicate PcbsShape(pcbs: seq<Pcb>) {
    |pcbs| == NUM_PROCESS && forall p :: 0 <= p < NUM_PROCESS ==> |pcbs[p].fds| == MAX_OPEN_FILES
  }

  function NewPcb(pcbs: seq<Pcb>, cur: int, p: int, origin: Origin): Pcb
    requires PcbsShape(pcbs) && IsPid(cur) && IsPid(p)
  {
    var me := pcbs[cur];
    var fds := pcbs[p].fds;
    Pcb(fds[0 := OpenTerminal(fds[0])][1 := OpenTerminal(fds[1])],
        if origin.Launch? then origin.terminal else me.terminal,
        NOBODY, p, if origin.Child? then me.pid else NOBODY, if origin.Child? then origin.args else [])
  }

  /** Link slot `p` to its parent, if it has one. Descriptors 2 to 7 are left as they are. */
  function LinkedPcbs(pcbs: seq<Pcb>, cur: int, p: int, origin: Origin): seq<Pcb>
    requires PcbsShape(pcbs) && IsPid(cur) && IsPid(p)
  {
    var added := pcbs[p := NewPcb(pcbs, cur, p, origin)];
    if origin.Child? then added[cur := added[cur].(child := p)] else added
  }

  /** Put slot `p` into the table and make it current. */
  function Spawn(k: Kernel, p: int, origin: Origin): Kernel
    requires Shape(k) && IsPid(p)
  {
    k.(active := k.active + {p}, pcbs := LinkedPcbs(k.pcbs, k.cur, p, origin), cur := p, esp0 := StackTop(p))
  }

  /** Load program `name` into slot `p`. The directory is switched before the lookups that may fail. */
  function Start(k: Kernel, img: Image, name: seq<byte>, p: int, origin: Origin): (Kernel, bool)
    requires Shape(k) && ValidImage(img) && IsPid(p)
  {
    var mapped := MapProgram(k, p);
    var prog := Lookup(img.dentries, name);
    if prog.None? then (mapped, false)
    else if ReadResult(img, prog.value.inode, 0, PROGRAM_LIMIT) < 0 then (mapped, false)
    else (Spawn(mapped, p, origin), true)
  }

  /** The new state and whether the program starts. */
  function Execute(k: Kernel, env: Env, name: seq<byte>, stack: seq<byte>, origin: Origin): (Kernel, bool)
    requires Shape(k) && ValidEnv(env) && |stack| == 4
  {
    if !Executable(env.img, name, stack) then (k, false)
    else match LowestFree(k.active)
      case None => (k, false)
      case Some(p) => Start(k, env.img, name, p, origin)
  }

  /** It starts exactly when it passes the check and a slot is free; otherwise nothing at all changes,
      not even the loaded directory. */
  lemma ExecuteOutcome(k: Kernel, env: Env, name: seq<byte>, stack: seq<byte>, origin: Origin)
    requires Shape(k) && ValidEnv(env) && |stack| == 4
    ensures var (k', ok) := Execute(k, env, name, stack, origin);
            && (ok <==> Executable(env.img, name, stack) && exists p :: IsPid(p) && p !in k.active)
            && (!ok ==> k' == k)
            && (ok ==> LowestFree(k.active).Some? &&
                       k' == Spawn(MapProgram(k, LowestFree(k.active).value), LowestFree(k.active).value, origin))
  {
    if Executable(env.img, name, stack) {
      ExecutableLoads(env.img, name, stack);
    }
    if LowestFree(k.active).Some? {
      assert IsPid(LowestFree(k.active).value);
    }
  }

  // ----- sys_halt

  function CloseAll(pcb: Pcb): Pcb
  {
    pcb.(fds := seq(|pcb.fds|, i requires 0 <= i < |pcb.fds| => pcb.fds[i].(flags := Closed)))
  }

  /** Close the descriptors and free the number. */
  function Release(k: Kernel): Kernel
    requires Shape(k)
  {
    k.(pcbs := k.pcbs[k.cur := CloseAll(k.pcbs[k.cur])], active := k.active - {k.pcbs[k.cur].pid})
  }

  function Resume(k: Kernel, parent: int): Kernel
    requires Shape(k) && IsPid(parent)
  {
    k.(cur := parent, pcbs := k.pcbs[parent := k.pcbs[parent].(child := NOBODY)],
       loaded := k.pcbs[parent].pid, esp0 := StackTop(k.pcbs[parent].pid))
  }

  function Halt(k: Kernel, env: Env, stack: seq<byte>): Kernel
    requires Shape(k) && ValidEnv(env) && |stack| == 4
  {
    var freed := Release(k);
    if k.pcbs[k.cur].parent == NOBODY then Execute(freed, env, SHELL, stack, Respawn).0
    else Resume(freed, k.pcbs[k.cur].parent)
  }

  // ----- screenChange, as far as processes are concerned

  function Switch(k: Kernel, env: Env, t: int, stack: seq<byte>): Kernel
    requires Shape(k) && ValidEnv(env) && |stack| == 4
  {
    if t == k.shown then k
    else if t in k.shells then k.(shown := t)
    else if LowestFree(k.active).None? then k
    else Execute(k.(shells := k.shells + {t}, shown := t), env, SHELL, stack, Launch(t)).0
  }

  // ----- schedule

  function Succ(p: int): int {
    if p == NUM_PROCESS - 1 then 0 else p + 1
  }

  /** How many slots the cursor passes before it looks at `p`. */
  function Ahead(cursor: int, p: int): int {
    if p >= cursor then p - cursor else p - cursor + NUM_PROCESS
  }

  /** The first active leaf in cyclic order from the cursor. */
  ghost predicate NextUp(k: Kernel, q: int) {
    Leaf(k, q) && forall r :: Leaf(k, r) ==> Ahead(k.cursor, q) <= Ahead(k.cursor, r)
  }

  lemma LeafAhead(k: Kernel, c: int)
    requires Shape(k) && IsPid(c) && !Leaf(k, c) && exists r :: Leaf(k, r)
    requires forall r :: Leaf(k, r) ==> Ahead(k.cursor, c) <= Ahead(k.cursor, r)
    ensures Ahead(k.cursor, Succ(c)) == Ahead(k.cursor, c) + 1 < NUM_PROCESS
    ensures forall r :: Leaf(k, r) ==> Ahead(k.cursor, Succ(c)) <= Ahead(k.cursor, r)
  {
  }

  function SearchFrom(k: Kernel, c: int): (q: int)
    requires Shape(k) && IsPid(c) && exists r :: Leaf(k, r)
    requires forall r :: Leaf(k, r) ==> Ahead(k.cursor, c) <= Ahead(k.cursor, r)
    ensures NextUp(k, q)
    decreases NUM_PROCESS - Ahead(k.cursor, c)
  {
    if Leaf(k, c) then c else
      LeafAhead(k, c);
      SearchFrom(k, Succ(c))
  }

  lemma NextUpUnique(k: Kernel, q: int, r: int)
    requires IsPid(k.cursor) && NextUp(k, q) && NextUp(k, r)
    ensures q == r
  {
  }

  /** The scheduler runs `q` next; it reloads paging and the stack only when the process changes. */
  function RunNext(k: Kernel, q: int): Kernel
    requires Shape(k) && IsPid(q)
  {
    var moved := k.(cur := q, cursor := Succ(q));
    if q == k.cur then moved else moved.(loaded := k.pcbs[q].pid, esp0 := StackTop(k.pcbs[q].pid))
  }

  /** A timer tick; without any process the handler does not schedule. */
  function Tick(k: Kernel): Kernel
    requires Shape(k) && Leaf(k, k.cur)
  {
    RunNext(k, SearchFrom(k, k.cursor))
  }

  // ----- files

  function FreeFd(fds: seq<Desc>, i: int): (r: Option<int>)
    requires |fds| == MAX_OPEN_FILES && 2 <= i <= MAX_OPEN_FILES
    ensures r.Some? ==> i <= r.value < MAX_OPEN_FILES && fds[r.value].flags == Closed
    ensures r.Some? ==> forall j :: i <= j < r.value ==> fds[j].flags != Closed
    ensures r.None? ==> forall j :: i <= j < MAX_OPEN_FILES ==> fds[j].flags != Closed
    decreases MAX_OPEN_FILES - i
  {
    if i == MAX_OPEN_FILES then None else if fds[i].flags == Closed then Some(i) else FreeFd(fds, i + 1)
  }

  function SetFd(k: Kernel, fd: int, d: Desc): Kernel
    requires Shape(k) && 0 <= fd < MAX_OPEN_FILES
  {
    k.(pcbs := k.pcbs[k.cur := k.pcbs[k.cur].(fds := k.pcbs[k.cur].fds[fd := d])])
  }

  /** The descriptor an opened directory entry gets; an unknown type leaves it untouched. */
  function Opened(entry: Dentry, name: seq<byte>, was: Desc): Desc {
    if Bounded(name, 8) == TERMINAL_NAME || entry.kind == KIND_TERM then Desc(Open(TermFile), 0, 0)
    else if entry.kind == KIND_DIR then Desc(Open(DirFile), 0, 0)
    else if entry.kind == KIND_FILE then Desc(Open(RegFile), entry.inode, 0)
    else if entry.kind == KIND_RTC then Desc(Open(RtcFile), 0, 0)
    else was
  }

  /** sys_open: the state and the descriptor, or -1. */
  function OpenFile(k: Kernel, env: Env, name: seq<byte>): (Kernel, int)
    requires Shape(k) && ValidEnv(env)
  {
    var fds := k.pcbs[k.cur].fds;
    match FreeFd(fds, 2)
    case None => (k, -1)
    case Some(i) =>
      match Lookup(env.img.dentries, name)
      case None => (k, -1)
      case Some(entry) => (SetFd(k, i, Opened(entry, name, fds[i])), i)
  }

  function CloseFile(k: Kernel, fd: int): (Kernel, int)
    requires Shape(k)
  {
    if 2 <= fd < MAX_OPEN_FILES && k.pcbs[k.cur].fds[fd].flags.Open?
    then (SetFd(k, fd, k.pcbs[k.cur].fds[fd].(flags := Closed)), 0)
    else (k, -1)
  }

  /** sys_read on a regular file or a directory. Terminal and clock reads keep the process table as it
      is and return what their device says. */
  function ReadFile(k: Kernel, env: Env, fd: int, nbytes: nat, device: int): (Kernel, int)
    requires Shape(k) && ValidEnv(env)
  {
    if !(fd == 0 || 2 <= fd < MAX_OPEN_FILES) || k.pcbs[k.cur].fds[fd].flags == Closed then (k, -1)
    else
      var d := k.pcbs[k.cur].fds[fd];
      match d.flags.kind
      case RegFile =>
        var r := ReadResult(env.img, d.inode, d.position, nbytes);
        (if r > 0 then SetFd(k, fd, d.(position := d.position + r)) else k, r)
      case DirFile =>
        if nbytes == 0 || d.position >= |env.img.dentries| || EndMarker(env.img.dentries[d.position]) then (k, 0)
        else (SetFd(k, fd, d.(position := d.position + 1)), nbytes)
      case _ => (k, device)
  }

  /** What a read that returned `r` puts into the buffer: the file's bytes from the position on, or the
      entry's name, for which `following` is what stands behind its 32 bytes. */
  function BytesRead(img: Image, d: Desc, r: nat, following: seq<byte>): (bytes: seq<byte>)
    requires ValidImage(img)
  {
    if d.flags == Open(RegFile) && d.inode < |img.inodes| && d.position + r <= img.inodes[d.inode].length
    then File(img, d.inode)[d.position..d.position + r]
    else if d.flags == Open(DirFile) && d.position < |img.dentries| && r > 0
    then Padded(img.dentries[d.position].name + following, r)
    else []
  }

  /** vidmap: refused unless the pointer lies in the program area. */
  function Vidmap(k: Kernel, env: Env, pointer: int): (Kernel, int)
    requires Shape(k)
  {
    if PROGRAM_START <= pointer < PROGRAM_START + FOUR_MB then
      var p := k.pcbs[k.cur].pid;
      (k.(dirs := k.dirs[p := k.dirs[p][VIDMAP_INDEX := env.layout.vidmap + USER_PRESENT]], loaded := p), 0)
    else (k, -1)
  }

  // ----- the invariant

  /** `c` lists the processes of terminal `t` from the root shell to the one in front. */
  predicate IsChain(pcbs: seq<Pcb>, t: int, c: seq<int>) {
    && |pcbs| == NUM_PROCESS && c != []
    && (forall i :: 0 <= i < |c| ==> IsPid(c[i]))
    && (forall i, j :: 0 <= i < j < |c| ==> c[i] != c[j])
    && (forall i :: 0 <= i < |c| ==> pcbs[c[i]].pid == c[i] && pcbs[c[i]].terminal == t)
    && pcbs[c[0]].parent == NOBODY && pcbs[c[|c| - 1]].child == NOBODY
    && (forall i, j :: 0 <= i < |c| - 1 && j == i + 1 ==> pcbs[c[j]].parent == c[i] && pcbs[c[i]].child == c[j])
  }

  /** The active processes are exactly the disjoint union of one chain per launched terminal. */
  ghost predicate Chained(k: Kernel, chains: map<int, seq<int>>) {
    && |k.pcbs| == NUM_PROCESS && chains.Keys == k.shells && k.shells <= {1, 2, 3}
    && (forall t :: t in chains ==> IsChain(k.pcbs, t, chains[t]))
    && (forall p {:trigger p in k.active} :: p in k.active <==>
          IsPid(p) && k.pcbs[p].terminal in chains && p in chains[k.pcbs[p].terminal])
  }

  ghost predicate HasChains(k: Kernel) {
    exists chains :: Chained(k, chains)
  }

  /** A free slot has every descriptor closed; a used one has its terminal open on 0 and 1, and no
      regular file is positioned past its end. */
  predicate FdsOk(img: Image, used: bool, fds: seq<Desc>) {
    && |fds| == MAX_OPEN_FILES
    && (!used ==> forall i :: 0 <= i < MAX_OPEN_FILES ==> fds[i].flags == Closed)
    && (used ==> fds[0].flags == fds[1].flags == Open(TermFile))
    && (forall i :: 0 <= i < MAX_OPEN_FILES && fds[i].flags == Open(RegFile) ==>
          fds[i].inode < |img.inodes| && fds[i].position <= img.inodes[fds[i].inode].length)
  }

  predicate FilesOk(k: Kernel, img: Image) {
    |k.pcbs| == NUM_PROCESS && forall p :: 0 <= p < NUM_PROCESS ==> FdsOk(img, p in k.active, k.pcbs[p].fds)
  }

  /** Every active process has its own frame mapped. */
  predicate DirsOk(k: Kernel, l: Layout) {
    && |k.dirs| == NUM_PROCESS
    && (forall p :: 0 <= p < NUM_PROCESS ==> DirOk(l, p, k.dirs[p]))
    && (forall p :: 0 <= p < NUM_PROCESS && p in k.active ==> k.dirs[p][USER_INDEX] == UserEntry(p))
  }

  /** CR3 and the kernel stack belong to the current process. */
  predicate MemoryOk(k: Kernel, l: Layout) {
    DirsOk(k, l) && k.loaded == k.cur && k.esp0 == StackTop(k.cur)
  }

  ghost predicate Inv(k: Kernel, env: Env) {
    && IsPid(k.cursor) && Leaf(k, k.cur) && k.shown in k.shells
    && FilesOk(k, env.img) && MemoryOk(k, env.layout)
    && HasChains(k)
  }

  lemma InvShape(k: Kernel, env: Env)
    requires Inv(k, env)
    ensures Shape(k)
  {
    var chains :| Chained(k, chains);
    var c := chains[k.pcbs[k.cur].terminal];
    var i :| 0 <= i < |c| && c[i] == k.cur;
    assert i > 0 ==> IsPid(c[i - 1]);
  }

  /** The current process stands at the end of its terminal's chain. */
  lemma CurrentIsLast(k: Kernel, chains: map<int, seq<int>>)
    requires Chained(k, chains) && Leaf(k, k.cur)
    ensures var t := k.pcbs[k.cur].terminal;
            t in chains && chains[t][|chains[t]| - 1] == k.cur && k.pcbs[k.cur].pid == k.cur
  {
    var c := chains[k.pcbs[k.cur].terminal];
    var i :| 0 <= i < |c| && c[i] == k.cur;
    assert i < |c| - 1 ==> IsPid(c[i + 1]);
  }

  /** A chain only depends on its members' links. */
  lemma ChainFrame(pcbs: seq<Pcb>, pcbs': seq<Pcb>, t: int, c: seq<int>)
    requires IsChain(pcbs, t, c) && |pcbs'| == NUM_PROCESS
    requires forall i :: 0 <= i < |c| ==> pcbs'[c[i]].(fds := pcbs[c[i]].fds) == pcbs[c[i]]
    ensures IsChain(pcbs', t, c)
  {
  }

  lemma ChainPush(pcbs: seq<Pcb>, t: int, c: seq<int>, p: int, pcbs': seq<Pcb>)
    requires IsChain(pcbs, t, c) && IsPid(p) && p !in c && |pcbs'| == NUM_PROCESS
    requires forall i :: 0 <= i < |c| - 1 ==> pcbs'[c[i]] == pcbs[c[i]]
    requires pcbs'[c[|c| - 1]] == pcbs[c[|c| - 1]].(child := p)
    requires pcbs'[p].pid == p && pcbs'[p].terminal == t && pcbs'[p].child == NOBODY && pcbs'[p].parent == c[|c| - 1]
    ensures IsChain(pcbs', t, c + [p])
  {
  }

  lemma ChainPop(pcbs: seq<Pcb>, t: int, c: seq<int>, pcbs': seq<Pcb>)
    requires IsChain(pcbs, t, c) && |c| > 1 && |pcbs'| == NUM_PROCESS
    requires forall i :: 0 <= i < |c| - 2 ==> pcbs'[c[i]] == pcbs[c[i]]
    requires pcbs'[c[|c| - 2]] == pcbs[c[|c| - 2]].(child := NOBODY)
    ensures IsChain(pcbs', t, c[..|c| - 1])
  {
  }

  // ----- runs

  /** `stack` is the uninitialised header buffer of the program check, `device` what a terminal or
      clock read returns. */
  datatype Event =
    | DoExecute(command: seq<byte>, stack: seq<byte>)
    | DoHalt(stack: seq<byte>)
    | DoTick
    | DoSwitch(terminal: int, stack: seq<byte>)
    | DoOpen(name: seq<byte>)
    | DoClose(fd: int)
    | DoRead(fd: int, nbytes: nat, device: int)
    | DoVidmap(pointer: int)

  /** Strings are terminated, and a command's first word fits the buffer it is copied to. */
  predicate ValidEvent(e: Event) {
    match e
    case DoExecute(command, stack) => |stack| == 4 && Ends(command) && |Token(command)| < CMD_SIZE
    case DoHalt(stack) => |stack| == 4
    case DoSwitch(t, stack) => |stack| == 4 && t in {1, 2, 3}
    case DoOpen(name) => NUL in name
    case _ => true
  }

  function Step(k: Kernel, env: Env, e: Event): Kernel
    requires Shape(k) && Leaf(k, k.cur) && ValidEnv(env) && ValidEvent(e)
  {
    match e
    case DoExecute(command, stack) => Execute(k, env, Token(command), stack, Child(Arguments(command))).0
    case DoHalt(stack) => Halt(k, env, stack)
    case DoTick => Tick(k)
    case DoSwitch(t, stack) => Switch(k, env, t, stack)
    case DoOpen(name) => OpenFile(k, env, name).0
    case DoClose(fd) => CloseFile(k, fd).0
    case DoRead(fd, nbytes, device) => ReadFile(k, env, fd, nbytes, device).0
    case DoVidmap(pointer) => Vidmap(k, env, pointer).0
  }

  const ZERO_PCB := Pcb(seq(MAX_OPEN_FILES, _ => Desc(Closed, 0, 0)), 0, 0, 0, 0, [])

  /** The state once the first shell runs on terminal 1; process memory starts out zero. */
  function Boot(env: Env): Kernel {
    var blank := Kernel({}, seq(NUM_PROCESS, _ => ZERO_PCB), 0, 0, {1}, 1,
                        seq(NUM_PROCESS, _ => EmptyDir(env.layout)), 0, 0);
    Spawn(MapProgram(blank, 0), 0, Launch(1))
  }
}
