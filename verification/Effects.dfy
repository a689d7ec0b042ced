/** What each system call, key and tick changes in a reachable state, field by field, and that it changes
    nothing else. */
module Effects {
  import opened Common
  import opened Strings
  import opened FileSystem
  import opened Commands
  import opened Paging
  import opened Processes
  import opened ProcessRuns
  import opened Histories

  lemma Facts(k: Kernel, env: Env, e: Event)
    requires ValidEnv(env) && ValidEvent(e) && Reachable(k, env)
    ensures Shape(k) && Leaf(k, k.cur) && k.pcbs[k.cur].pid == k.cur && Next(k, env, e) == Step(k, env, e)
    ensures k.loaded == k.cur && k.esp0 == 0x800000 - 8192 * k.cur
  {
    assert k.cur in k.active && k.loaded == k.cur && k.esp0 == StackTop(k.cur) by { ReachableInv(k, env); }
    ReachableStep(k, env, e, k.cur);
  }

  // ----- boot

  lemma BootState(env: Env)
    ensures var k := Boot(env);
            && k.active == {0} && k.cur == 0 && k.cursor == 0 && k.shells == {1} && k.shown == 1
            && k.loaded == 0 && k.esp0 == 0x800000 && |k.pcbs| == NUM_PROCESS
            && k.pcbs[0].pid == 0 && k.pcbs[0].parent == -1 && k.pcbs[0].child == -1 && k.pcbs[0].terminal == 1
            && k.pcbs[0].arguments == []
  {
  }

  // ----- new processes

  /** `p` is the lowest number not in use. */
  predicate Lowest(active: set<int>, p: int) {
    0 <= p < 6 && p !in active && forall q :: 0 <= q < p ==> q in active
  }

  /** From `k`, whose numbers in use are then `active`, the kernel goes to `k'` by starting process `k'.cur`. */
  predicate Begins(k: Kernel, active: set<int>, k': Kernel, parent: int, terminal: int, args: seq<byte>) {
    && |k.pcbs| == |k'.pcbs| == |k.dirs| == |k'.dirs| == 6
    && Lowest(active, k'.cur) && k'.active == active + {k'.cur}
    && (var mine := k'.pcbs[k'.cur];
        && mine.pid == k'.cur && mine.child == -1 && mine.parent == parent
        && mine.terminal == terminal && mine.arguments == args)
    && k'.cursor == k.cursor && k'.loaded == k'.cur && k'.esp0 == 0x800000 - 8192 * k'.cur
    && forall q :: 0 <= q < 6 && q != k'.cur ==> k'.dirs[q] == k.dirs[q]
  }

  /** sys_execute: a recognised program starts as a child at the end of its terminal's chain whenever a number is
      free; otherwise nothing changes. */
  lemma ExecuteEffect(k: Kernel, env: Env, command: seq<byte>, stack: seq<byte>)
    requires ValidEnv(env) && ValidEvent(DoExecute(command, stack)) && Reachable(k, env)
    ensures var k' := Next(k, env, DoExecute(command, stack));
            && |k.pcbs| == 6 && 0 <= k.cur < 6
            && if Recognised(env.img, Token(command), stack) && exists p :: 0 <= p < 6 && p !in k.active then
                 && Begins(k, k.active, k', k.cur, k.pcbs[k.cur].terminal, Arguments(command))
                 && k'.pcbs[k.cur] == k.pcbs[k.cur].(child := k'.cur)
                 && (forall q :: 0 <= q < 6 && q != k.cur && q != k'.cur ==> k'.pcbs[q] == k.pcbs[q])
                 && k'.shells == k.shells && k'.shown == k.shown
               else k' == k
  {
    Facts(k, env, DoExecute(command, stack));
    RecognisedExactly(env.img, Token(command), stack);
    ExecuteOutcome(k, env, Token(command), stack, Child(Arguments(command)));
    LowestIs(k.active);
    if LowestFree(k.active).Some? {
      SpawnBegins(k, LowestFree(k.active).value, Child(Arguments(command)));
    }
  }

  lemma LowestIs(active: set<int>)
    ensures var free := LowestFree(active);
            if free.Some? then Lowest(active, free.value) && exists p :: 0 <= p < 6 && p !in active
            else forall p :: 0 <= p < 6 ==> p in active
  {
    if LowestFree(active).Some? {
      assert 0 <= LowestFree(active).value < 6;
    }
  }

  lemma SpawnBegins(k: Kernel, p: int, origin: Origin)
    requires Shape(k) && IsPid(p) && Lowest(k.active, p) && k.pcbs[k.cur].pid == k.cur && (origin.Child? ==> p != k.cur)
    ensures var k' := Spawn(MapProgram(k, p), p, origin);
            && k'.cur == p && k'.shells == k.shells && k'.shown == k.shown
            && Begins(k, k.active, k', if origin.Child? then k.cur else -1,
                      if origin.Launch? then origin.terminal else k.pcbs[k.cur].terminal,
                      if origin.Child? then origin.args else [])
            && (origin.Child? ==> k'.pcbs[k.cur] == k.pcbs[k.cur].(child := p))
            && forall q :: 0 <= q < 6 && q != p && !(origin.Child? && q == k.cur) ==> k'.pcbs[q] == k.pcbs[q]
  {
  }

  /** A terminal switch: shown, refused, or launched with a shell of its own; a launch leaves every other process
      as it is, the interrupted one included. */
  lemma SwitchEffect(k: Kernel, env: Env, t: int, stack: seq<byte>)
    requires ValidEnv(env) && ValidEvent(DoSwitch(t, stack)) && Reachable(k, env)
    ensures var k' := Next(k, env, DoSwitch(t, stack));
            if t in k.shells then k' == k.(shown := t)
            else if forall p :: 0 <= p < 6 ==> p in k.active then k' == k
            else
              && Begins(k, k.active, k', -1, t, [])
              && (forall q :: 0 <= q < 6 && q != k'.cur ==> k'.pcbs[q] == k.pcbs[q])
              && k'.shells == k.shells + {t} && k'.shown == t
  {
    Facts(k, env, DoSwitch(t, stack));
    assert k.shown in k.shells by { ReachableInv(k, env); }
    LowestIs(k.active);
    if t !in k.shells && LowestFree(k.active).Some? {
      SwitchOutcome(k, env, t, stack);
      SpawnBegins(k.(shells := k.shells + {t}, shown := t), LowestFree(k.active).value, Launch(t));
    }
  }

  // ----- sys_halt

  /** From `k` to `k'` the current process ends and `parent` runs on; no other process changes. */
  predicate HandsBack(k: Kernel, k': Kernel, parent: int) {
    && |k.pcbs| == |k'.pcbs| == 6 && 0 <= k.cur < 6 && 0 <= parent < 6
    && k'.cur == parent && k'.active == k.active - {k.cur}
    && k'.pcbs[parent] == k.pcbs[parent].(child := -1)
    && (forall q :: 0 <= q < 6 && q != parent && q != k.cur ==> k'.pcbs[q] == k.pcbs[q])
    && (forall i :: 0 <= i < |k'.pcbs[k.cur].fds| ==> k'.pcbs[k.cur].fds[i].flags == Closed)
    && k'.loaded == parent && k'.esp0 == 0x800000 - 8192 * parent
    && k'.dirs == k.dirs && k'.cursor == k.cursor && k'.shells == k.shells && k'.shown == k.shown
  }

  lemma ResumeHandsBack(k: Kernel, parent: int)
    requires Shape(k) && k.pcbs[k.cur].pid == k.cur && IsPid(parent) && parent != k.cur && k.pcbs[parent].pid == parent
    ensures Shape(Release(k)) && HandsBack(k, Resume(Release(k), parent), parent)
  {
  }

  /** The chain loses its last element. */
  lemma HandsBackChain(k: Kernel, k': Kernel, chains: map<int, seq<int>>, t: int, parent: int)
    requires Chained(k, chains) && t in chains && |chains[t]| > 1
    requires chains[t][|chains[t]| - 1] == k.cur && chains[t][|chains[t]| - 2] == parent && HandsBack(k, k', parent)
    ensures Chained(k', chains[t := chains[t][..|chains[t]| - 1]])
  {
    PopChained(k, k', chains, t);
  }

  /** The element before the last one started it. */
  lemma ParentInChain(k: Kernel, chains: map<int, seq<int>>, parent: int)
    requires Chained(k, chains) && Leaf(k, k.cur) && parent == k.pcbs[k.cur].parent != -1
    ensures var t := k.pcbs[k.cur].terminal;
            && t in chains && |chains[t]| > 1
            && chains[t][|chains[t]| - 1] == k.cur && chains[t][|chains[t]| - 2] == parent
    ensures IsPid(parent) && parent != k.cur && k.pcbs[parent].pid == parent
  {
    CurrentIsLast(k, chains);
    ParentBefore(k.pcbs, k.pcbs[k.cur].terminal, chains[k.pcbs[k.cur].terminal]);
  }

  /** Halting a child gives control back to the process that started it: the chain loses exactly its last element,
      and no other process changes. */
  lemma HaltChildEffect(k: Kernel, env: Env, stack: seq<byte>, chains: map<int, seq<int>>)
    requires ValidEnv(env) && |stack| == 4 && Reachable(k, env) && Chained(k, chains)
    requires 0 <= k.cur < 6 && k.pcbs[k.cur].parent != -1
    ensures var k' := Next(k, env, DoHalt(stack));
            var parent, t := k.pcbs[k.cur].parent, k.pcbs[k.cur].terminal;
            && HandsBack(k, k', parent)
            && t in chains && |chains[t]| > 1
            && chains[t][|chains[t]| - 1] == k.cur && chains[t][|chains[t]| - 2] == parent
            && Chained(k', chains[t := chains[t][..|chains[t]| - 1]])
  {
    Facts(k, env, DoHalt(stack));
    var parent := k.pcbs[k.cur].parent;
    ParentInChain(k, chains, parent);
    ResumeHandsBack(k, parent);
    HandsBackChain(k, Next(k, env, DoHalt(stack)), chains, k.pcbs[k.cur].terminal, parent);
  }

  /** Halting a root shell starts another one on its terminal. */
  lemma HaltRootEffect(k: Kernel, env: Env, stack: seq<byte>)
    requires ValidEnv(env) && |stack| == 4 && Reachable(k, env) && 0 <= k.cur < |k.pcbs| && k.pcbs[k.cur].parent == -1
    ensures var k' := Next(k, env, DoHalt(stack));
            && Begins(k, k.active - {k.cur}, k', -1, k.pcbs[k.cur].terminal, [])
            && (forall q :: 0 <= q < 6 && q != k.cur && q != k'.cur ==> k'.pcbs[q] == k.pcbs[q])
            && k'.shells == k.shells && k'.shown == k.shown
  {
    Facts(k, env, DoHalt(stack));
    HaltOutcome(k, env, stack);
    LowestIs(Release(k).active);
    SpawnBegins(Release(k), LowestFree(Release(k).active).value, Respawn);
  }

  // ----- the timer

  predicate Waiting(k: Kernel, p: int) {
    0 <= p < |k.pcbs| && p in k.active && k.pcbs[p].child == -1
  }

  /** The `e`-th number from `cursor` on, around the six. */
  function InTurn(cursor: int, e: int): int {
    (cursor + e) % 6
  }

  lemma InTurnAhead(cursor: int, e: int)
    requires IsPid(cursor) && 0 <= e < 6
    ensures IsPid(InTurn(cursor, e)) && Ahead(cursor, InTurn(cursor, e)) == e
  {
  }

  lemma TurnOf(cursor: int, q: int)
    requires IsPid(cursor) && IsPid(q)
    ensures 0 <= Ahead(cursor, q) < 6 && InTurn(cursor, Ahead(cursor, q)) == q && Succ(q) == (q + 1) % 6
  {
  }

  lemma FirstInTurn(k: Kernel, q: int)
    requires IsPid(k.cursor) && |k.pcbs| == NUM_PROCESS && NextUp(k, q)
    ensures forall e :: 0 <= e < Ahead(k.cursor, q) ==> !Waiting(k, InTurn(k.cursor, e))
  {
    forall e | 0 <= e < Ahead(k.cursor, q)
      ensures !Waiting(k, InTurn(k.cursor, e))
    {
      InTurnAhead(k.cursor, e);
      assert Waiting(k, InTurn(k.cursor, e)) ==> Leaf(k, InTurn(k.cursor, e));
    }
  }

  /** From `k` to `k'` the `d`-th number from the cursor on is selected, the first whose process waits. */
  predicate Selects(k: Kernel, k': Kernel, d: int) {
    && 0 <= d < 6 && k'.cur == InTurn(k.cursor, d) && Waiting(k, k'.cur)
    && (forall e :: 0 <= e < d ==> !Waiting(k, InTurn(k.cursor, e)))
    && k' == k.(cur := k'.cur, cursor := (k'.cur + 1) % 6, loaded := k'.cur, esp0 := 0x800000 - 8192 * k'.cur)
  }

  lemma TickSelects(k: Kernel, q: int)
    requires Shape(k) && NextUp(k, q) && k.pcbs[q].pid == q && k.loaded == k.cur && k.esp0 == 0x800000 - 8192 * k.cur
    ensures Selects(k, RunNext(k, q), Ahead(k.cursor, q))
  {
    TurnOf(k.cursor, q);
    FirstInTurn(k, q);
    TickIs(k, q);
  }

  /** A tick selects the first active process without a child, counting from the cursor around the six numbers, and
      moves the cursor behind it. */
  lemma TickEffect(k: Kernel, env: Env) returns (d: int)
    requires ValidEnv(env) && Reachable(k, env)
    ensures Selects(k, Next(k, env, DoTick), d)
  {
    Facts(k, env, DoTick);
    var q := SearchFrom(k, k.cursor);
    assert k.pcbs[q].pid == q by { ReachableProcess(k, env, q); }
    d := Ahead(k.cursor, q);
    TickSelects(k, q);
  }

  lemma TickIs(k: Kernel, q: int)
    requires Shape(k) && IsPid(q) && k.pcbs[q].pid == q && k.loaded == k.cur && k.esp0 == 0x800000 - 8192 * k.cur
    ensures RunNext(k, q) == k.(cur := q, cursor := (q + 1) % 6, loaded := q, esp0 := 0x800000 - 8192 * q)
  {
  }

  // ----- descriptors

  /** `k'` differs from `k` in descriptor `fd` of the current process at most, which is `d`. */
  predicate OnlyFd(k: Kernel, k': Kernel, fd: int, d: Desc) {
    && 0 <= k.cur < |k.pcbs| == |k'.pcbs| && 0 <= fd < |k.pcbs[k.cur].fds|
    && k' == k.(pcbs := k'.pcbs)
    && (forall q :: 0 <= q < |k.pcbs| && q != k.cur ==> k'.pcbs[q] == k.pcbs[q])
    && k'.pcbs[k.cur] == k.pcbs[k.cur].(fds := k'.pcbs[k.cur].fds)
    && |k'.pcbs[k.cur].fds| == |k.pcbs[k.cur].fds| && k'.pcbs[k.cur].fds[fd] == d
    && forall i :: 0 <= i < |k.pcbs[k.cur].fds| && i != fd ==> k'.pcbs[k.cur].fds[i] == k.pcbs[k.cur].fds[i]
  }

  /** The current process's descriptor. */
  function Fd(k: Kernel, fd: int): Desc
    requires 0 <= k.cur < |k.pcbs| && 0 <= fd < |k.pcbs[k.cur].fds|
  {
    k.pcbs[k.cur].fds[fd]
  }

  /** "terminal" */
  predicate NamesTerminal(name: seq<byte>) {
    |name| >= 8 && name[..8] == [116, 101, 114, 109, 105, 110, 97, 108]
  }

  lemma NamesTerminalIs(name: seq<byte>)
    requires NUL in name
    ensures Bounded(name, 8) == TERMINAL_NAME <==> NamesTerminal(name)
  {
    if NamesTerminal(name) {
      CStringUnique(name[..8], 8);
    }
  }

  lemma OpenedIs(entry: Dentry, name: seq<byte>, before: Desc)
    requires NUL in name
    ensures Opened(entry, name, before) ==
            if NamesTerminal(name) || entry.kind == 4 then Desc(Open(TermFile), 0, 0)
            else if entry.kind == 0 then Desc(Open(RtcFile), 0, 0)
            else if entry.kind == 1 then Desc(Open(DirFile), 0, 0)
            else if entry.kind == 2 then Desc(Open(RegFile), entry.inode, 0)
            else before
  {
    NamesTerminalIs(name);
  }

  /** sys_open takes the lowest closed descriptor from 2 on, and fails exactly when there is none or the name is not
      found. What it becomes depends on the entry's type: 0 a clock, 1 a directory, 2 a regular file at its start,
      4 or a name that starts with "terminal" a terminal; another type leaves it as it is. */
  lemma OpenEffect(k: Kernel, env: Env, name: seq<byte>)
    requires ValidEnv(env) && NUL in name && Reachable(k, env)
    ensures Shape(k)
    ensures var (k', r) := OpenFile(k, env, name);
            var found := Lookup(env.img.dentries, name);
            && k' == Next(k, env, DoOpen(name))
            && if found.None? || forall i :: 2 <= i < 8 ==> Fd(k, i).flags != Closed then r == -1 && k' == k
               else
                 && 2 <= r < 8 && Fd(k, r).flags == Closed && (forall i :: 2 <= i < r ==> Fd(k, i).flags != Closed)
                 && OnlyFd(k, k', r,
                           if NamesTerminal(name) || found.value.kind == 4 then Desc(Open(TermFile), 0, 0)
                           else if found.value.kind == 0 then Desc(Open(RtcFile), 0, 0)
                           else if found.value.kind == 1 then Desc(Open(DirFile), 0, 0)
                           else if found.value.kind == 2 then Desc(Open(RegFile), found.value.inode, 0)
                           else Fd(k, r))
  {
    Facts(k, env, DoOpen(name));
    LowestClosed(k);
    var free := FreeFd(k.pcbs[k.cur].fds, 2);
    if Lookup(env.img.dentries, name).Some? && free.Some? {
      OpenedIs(Lookup(env.img.dentries, name).value, name, Fd(k, free.value));
      SetOnlyFd(k, free.value, Opened(Lookup(env.img.dentries, name).value, name, Fd(k, free.value)));
    }
  }

  lemma SetOnlyFd(k: Kernel, fd: int, d: Desc)
    requires Shape(k) && 0 <= fd < 8
    ensures OnlyFd(k, SetFd(k, fd, d), fd, d)
  {
  }

  lemma LowestClosed(k: Kernel)
    requires Shape(k)
    ensures var free := FreeFd(k.pcbs[k.cur].fds, 2);
            if free.None? then forall i :: 2 <= i < 8 ==> Fd(k, i).flags != Closed
            else
              && 2 <= free.value < 8 && Fd(k, free.value).flags == Closed
              && forall i :: 2 <= i < free.value ==> Fd(k, i).flags != Closed
  {
  }

  /** sys_close succeeds exactly on an open descriptor from 2 to 7, which is then closed, so that the next sys_open
      finds a descriptor no higher. */
  lemma CloseEffect(k: Kernel, env: Env, fd: int)
    requires ValidEnv(env) && Reachable(k, env)
    ensures Shape(k)
    ensures var (k', r) := CloseFile(k, fd);
            && k' == Next(k, env, DoClose(fd))
            && if 2 <= fd < 8 && Fd(k, fd).flags.Open? then
                 && r == 0 && OnlyFd(k, k', fd, Fd(k, fd).(flags := Closed))
                 && FreeFd(k'.pcbs[k.cur].fds, 2).Some? && FreeFd(k'.pcbs[k.cur].fds, 2).value <= fd
               else r == -1 && k' == k
  {
    Facts(k, env, DoClose(fd));
  }

  /** What is asked for, what is left, or the end of the last block the loop allows itself, whichever is least. */
  function ReadCount(length: nat, position: nat, nbytes: nat): int {
    var n := Min(nbytes, length - position);
    Min(n, (n / 4096 + 1) * 4096 - position % 4096)
  }

  /** sys_read of a regular file without missing blocks: the exact count, 0 exactly at the end, and the position moves
      by it. */
  lemma ReadFileEffect(k: Kernel, env: Env, fd: int, nbytes: nat, device: int)
    requires ValidEnv(env) && Reachable(k, env) && Shape(k) && (fd == 0 || 2 <= fd < 8)
    requires Fd(k, fd).flags == Open(RegFile)
    ensures var (k', r) := ReadFile(k, env, fd, nbytes, device);
            var d := Fd(k, fd);
            && k' == Next(k, env, DoRead(fd, nbytes, device))
            && d.inode < |env.img.inodes| && d.position <= |File(env.img, d.inode)| && r >= 0
            && OnlyFd(k, k', fd, d.(position := d.position + r))
            && (Dense(env.img.inodes[d.inode]) ==>
                  && r == ReadCount(|File(env.img, d.inode)|, d.position, nbytes)
                  && (r == 0 <==> nbytes == 0 || d.position == |File(env.img, d.inode)|))
  {
    Facts(k, env, DoRead(fd, nbytes, device));
    var d := Fd(k, fd);
    assert d.inode < |env.img.inodes| && d.position <= |File(env.img, d.inode)| by { ReachableProcess(k, env, k.cur); }
    FileReadMoves(k, env, fd, nbytes, device, d);
    if Dense(env.img.inodes[d.inode]) {
      DenseCount(env.img, d.inode, d.position, nbytes);
    }
  }

  lemma FileReadMoves(k: Kernel, env: Env, fd: int, nbytes: nat, device: int, d: Desc)
    requires Shape(k) && ValidEnv(env) && (fd == 0 || 2 <= fd < 8) && d == Fd(k, fd) && d.flags == Open(RegFile)
    requires d.inode < |env.img.inodes| && d.position <= env.img.inodes[d.inode].length
    ensures var (k', r) := ReadFile(k, env, fd, nbytes, device);
            && r == ReadResult(env.img, d.inode, d.position, nbytes) >= 0
            && OnlyFd(k, k', fd, d.(position := d.position + r))
  {
  }

  lemma DenseCount(img: Image, i: nat, position: nat, nbytes: nat)
    requires ValidImage(img) && i < |img.inodes| && Dense(img.inodes[i]) && position <= img.inodes[i].length
    ensures var r := ReadResult(img, i, position, nbytes);
            && r == ReadCount(img.inodes[i].length, position, nbytes)
            && (r == 0 <==> nbytes == 0 || position == img.inodes[i].length)
  {
    if position < img.inodes[i].length && nbytes > 0 {
      DenseReadResult(img, i, position, nbytes);
    }
  }

  /** sys_read of a directory moves on by one entry and returns the request, until an entry with an empty name. */
  lemma ReadDirectoryEffect(k: Kernel, env: Env, fd: int, nbytes: nat, device: int)
    requires ValidEnv(env) && Reachable(k, env) && Shape(k) && (fd == 0 || 2 <= fd < 8)
    requires Fd(k, fd).flags == Open(DirFile)
    ensures var (k', r) := ReadFile(k, env, fd, nbytes, device);
            var d := Fd(k, fd);
            && k' == Next(k, env, DoRead(fd, nbytes, device))
            && if nbytes > 0 && d.position < |env.img.dentries| && env.img.dentries[d.position].name[0] != NUL
               then r == nbytes && OnlyFd(k, k', fd, d.(position := d.position + 1))
               else r == 0 && k' == k
  {
    Facts(k, env, DoRead(fd, nbytes, device));
    DirectoryReadIs(k, env, fd, nbytes, device, Fd(k, fd));
  }

  lemma DirectoryReadIs(k: Kernel, env: Env, fd: int, nbytes: nat, device: int, d: Desc)
    requires Shape(k) && ValidEnv(env) && (fd == 0 || 2 <= fd < 8) && d == Fd(k, fd) && d.flags == Open(DirFile)
    ensures var (k', r) := ReadFile(k, env, fd, nbytes, device);
            if nbytes > 0 && d.position < |env.img.dentries| && env.img.dentries[d.position].name[0] != NUL
            then r == nbytes && OnlyFd(k, k', fd, d.(position := d.position + 1))
            else r == 0 && k' == k
  {
    if d.position < |env.img.dentries| {
      EndMarkerIs(env.img.dentries[d.position]);
    }
  }

  /** Any other sys_read changes nothing: it fails on a descriptor that is not open, or on 1 and out of range, and
      otherwise returns what the device says. */
  lemma ReadOtherEffect(k: Kernel, env: Env, fd: int, nbytes: nat, device: int)
    requires ValidEnv(env) && Reachable(k, env) && Shape(k)
    requires (fd == 0 || 2 <= fd < 8) ==> Fd(k, fd).flags !in {Open(RegFile), Open(DirFile)}
    ensures var (k', r) := ReadFile(k, env, fd, nbytes, device);
            && k' == k == Next(k, env, DoRead(fd, nbytes, device))
            && r == if (fd == 0 || 2 <= fd < 8) && Fd(k, fd).flags.Open? then device else -1
  {
    Facts(k, env, DoRead(fd, nbytes, device));
  }

  /** vidmap: refused outside the program area without a change; otherwise only entry 33 of the current directory
      changes. */
  lemma VidmapEffect(k: Kernel, env: Env, pointer: int)
    requires ValidEnv(env) && Reachable(k, env)
    ensures Shape(k)
    ensures var (k', r) := Vidmap(k, env, pointer);
            && k' == Next(k, env, DoVidmap(pointer))
            && if 0x8000000 <= pointer < 0x8400000 then
                 r == 0 && k' == k.(dirs := k.dirs[k.cur := k.dirs[k.cur][33 := env.layout.vidmap + 7]])
               else r == -1 && k' == k
  {
    Facts(k, env, DoVidmap(pointer));
    VidmapIs(k, env, pointer);
  }

  lemma VidmapIs(k: Kernel, env: Env, pointer: int)
    requires Shape(k) && k.pcbs[k.cur].pid == k.cur == k.loaded
    ensures Vidmap(k, env, pointer) ==
            if 0x8000000 <= pointer < 0x8400000
            then (k.(dirs := k.dirs[k.cur := k.dirs[k.cur][33 := env.layout.vidmap + 7]]), 0) else (k, -1)
  {
  }

  // ----- what an active process reaches

  /** Every address: the video page, the program area, the page behind it once vidmap was called, the three backing
      pages, and nothing else. */
  lemma ReachableTranslation(k: Kernel, env: Env, tables: map<int, seq<int>>, p: int, v: int)
    requires ValidEnv(env) && Reachable(k, env) && TablesOk(env.layout, tables)
    requires p in k.active && 0 <= v < 0x1_0000_0000
    ensures IsPid(p) && |k.dirs| == 6 && |k.dirs[p]| == 1024
    ensures UserAccess(tables, k.dirs[p], v) == Mapped(p, true, k.dirs[p][33] != READ_WRITE, v)
  {
    ReachableProcess(k, env, p);
    Translation(env.layout, tables, p, k.dirs[p], v);
  }
}
