/** What every run of the process model keeps, and how long a process waits. */
module ProcessRuns {
  import opened Common
  import opened FileSystem
  import opened Strings
  import opened Commands
  import opened Paging
  import opened Processes

  // ----- chains

  /** Replace one chain; the others and their members stay. */
  lemma UpdateChain(k: Kernel, k': Kernel, chains: map<int, seq<int>>, t: int, c: seq<int>)
    requires Chained(k, chains) && t in {1, 2, 3} && k'.shells == k.shells + {t}
    requires IsChain(k'.pcbs, t, c) && forall i :: 0 <= i < |c| ==> c[i] in k'.active
    requires forall p :: p in k.active && k.pcbs[p].terminal != t ==>
               p in k'.active && k'.pcbs[p].(fds := k.pcbs[p].fds) == k.pcbs[p]
    requires forall p :: p in k'.active ==> p in c || (p in k.active && k.pcbs[p].terminal != t)
    ensures Chained(k', chains[t := c])
  {
    var chains' := chains[t := c];
    forall u | u in chains'
      ensures IsChain(k'.pcbs, u, chains'[u])
    {
      if u != t {
        OtherChain(k, k', chains, t, u);
      }
    }
    forall p {:trigger p in k'.active}
      ensures p in k'.active <==> IsPid(p) && k'.pcbs[p].terminal in chains' && p in chains'[k'.pcbs[p].terminal]
    {
      Member(k, k', chains, t, c, p);
    }
  }

  lemma OtherChain(k: Kernel, k': Kernel, chains: map<int, seq<int>>, t: int, u: int)
    requires Chained(k, chains) && u in chains && u != t && |k'.pcbs| == NUM_PROCESS
    requires forall p :: p in k.active && k.pcbs[p].terminal != t ==>
               p in k'.active && k'.pcbs[p].(fds := k.pcbs[p].fds) == k.pcbs[p]
    ensures IsChain(k'.pcbs, u, chains[u]) && forall p :: p in chains[u] ==> p in k'.active
  {
    var c := chains[u];
    assert forall i :: 0 <= i < |c| ==> c[i] in k.active && k.pcbs[c[i]].terminal == u;
    ChainFrame(k.pcbs, k'.pcbs, u, c);
  }

  lemma Member(k: Kernel, k': Kernel, chains: map<int, seq<int>>, t: int, c: seq<int>, p: int)
    requires Chained(k, chains) && IsChain(k'.pcbs, t, c) && forall i :: 0 <= i < |c| ==> c[i] in k'.active
    requires forall p :: p in k.active && k.pcbs[p].terminal != t ==>
               p in k'.active && k'.pcbs[p].(fds := k.pcbs[p].fds) == k.pcbs[p]
    requires forall p :: p in k'.active ==> p in c || (p in k.active && k.pcbs[p].terminal != t)
    ensures var chains' := chains[t := c];
            p in k'.active <==> IsPid(p) && k'.pcbs[p].terminal in chains' && p in chains'[k'.pcbs[p].terminal]
  {
    if p in c {
      var i :| 0 <= i < |c| && c[i] == p;
    } else if IsPid(p) && k'.pcbs[p].terminal in chains && k'.pcbs[p].terminal != t {
      OtherChain(k, k', chains, t, k'.pcbs[p].terminal);
    }
  }

  /** Every process of a terminal but the last of its chain is in the rest of the chain. */
  lemma AllButLast(k: Kernel, chains: map<int, seq<int>>, t: int)
    requires Chained(k, chains) && t in chains
    ensures var c := chains[t];
            forall p :: p in k.active && k.pcbs[p].terminal == t && p != c[|c| - 1] ==> p in c[..|c| - 1]
  {
  }

  /** Adding a process at the end of a chain. */
  lemma PushChained(k: Kernel, k': Kernel, chains: map<int, seq<int>>, t: int, p: int)
    requires Chained(k, chains) && t in chains && IsPid(p) && p !in k.active
    requires |k'.pcbs| == NUM_PROCESS && k'.shells == k.shells && k'.active == k.active + {p}
    requires var last := chains[t][|chains[t]| - 1];
             && k'.pcbs[last] == k.pcbs[last].(child := p)
             && k'.pcbs[p].pid == p && k'.pcbs[p].terminal == t
             && k'.pcbs[p].child == NOBODY && k'.pcbs[p].parent == last
             && forall q :: IsPid(q) && q != last && q != p ==> k'.pcbs[q] == k.pcbs[q]
    ensures Chained(k', chains[t := chains[t] + [p]])
  {
    var c := chains[t];
    ChainPush(k.pcbs, t, c, p, k'.pcbs);
    forall q | q in k'.active
      ensures q in c + [p] || (q in k.active && k.pcbs[q].terminal != t)
    {
      if q != p && k.pcbs[q].terminal == t {
        assert q in c;
      }
    }
    UpdateChain(k, k', chains, t, c + [p]);
  }

  lemma ChildChained(k: Kernel, p: int, args: seq<byte>, chains: map<int, seq<int>>)
    requires Shape(k) && Leaf(k, k.cur) && Chained(k, chains) && IsPid(p) && p !in k.active
    ensures HasChains(Spawn(MapProgram(k, p), p, Child(args)))
  {
    CurrentIsLast(k, chains);
    PushChained(k, Spawn(MapProgram(k, p), p, Child(args)), chains, k.pcbs[k.cur].terminal, p);
  }

  lemma LaunchChained(k: Kernel, t: int, p: int, chains: map<int, seq<int>>)
    requires Shape(k) && Chained(k, chains) && IsPid(p) && p !in k.active
    requires t in {1, 2, 3} && t !in k.shells
    ensures HasChains(Spawn(MapProgram(k.(shells := k.shells + {t}, shown := t), p), p, Launch(t)))
  {
    UpdateChain(k, Spawn(MapProgram(k.(shells := k.shells + {t}, shown := t), p), p, Launch(t)), chains, t, [p]);
  }

  /** A root shell that halts is replaced by a root shell on the same terminal. */
  lemma RespawnChained(k: Kernel, p: int, chains: map<int, seq<int>>)
    requires Shape(k) && Leaf(k, k.cur) && Chained(k, chains) && k.pcbs[k.cur].parent == NOBODY
    requires IsPid(p) && p !in Release(k).active && Shape(Release(k))
    ensures HasChains(Spawn(MapProgram(Release(k), p), p, Respawn))
  {
    CurrentIsLast(k, chains);
    var t := k.pcbs[k.cur].terminal;
    var c := chains[t];
    ParentBefore(k.pcbs, t, c);
    AllButLast(k, chains, t);
    UpdateChain(k, Spawn(MapProgram(Release(k), p), p, Respawn), chains, t, [p]);
  }

  lemma ParentBefore(pcbs: seq<Pcb>, t: int, c: seq<int>)
    requires IsChain(pcbs, t, c)
    ensures pcbs[c[|c| - 1]].parent == if |c| == 1 then NOBODY else c[|c| - 2]
    ensures |c| > 1 ==> IsPid(c[|c| - 2])
  {
  }

  /** Dropping the last process of a chain. */
  lemma PopChained(k: Kernel, k': Kernel, chains: map<int, seq<int>>, t: int)
    requires Chained(k, chains) && t in chains && |chains[t]| > 1
    requires |k'.pcbs| == NUM_PROCESS && k'.shells == k.shells
    requires var c := chains[t];
             && k'.active == k.active - {c[|c| - 1]}
             && k'.pcbs[c[|c| - 2]] == k.pcbs[c[|c| - 2]].(child := NOBODY)
             && forall p :: IsPid(p) && p != c[|c| - 1] && p != c[|c| - 2] ==> k'.pcbs[p] == k.pcbs[p]
    ensures Chained(k', chains[t := chains[t][..|chains[t]| - 1]])
  {
    var c := chains[t];
    ChainPop(k.pcbs, t, c, k'.pcbs);
    AllButLast(k, chains, t);
    UpdateChain(k, k', chains, t, c[..|c| - 1]);
  }

  lemma ResumeChained(k: Kernel, chains: map<int, seq<int>>)
    requires Shape(k) && Leaf(k, k.cur) && Chained(k, chains) && k.pcbs[k.cur].parent != NOBODY && Shape(Release(k))
    ensures var k' := Resume(Release(k), k.pcbs[k.cur].parent);
            Leaf(k', k'.cur) && HasChains(k')
  {
    CurrentIsLast(k, chains);
    var t := k.pcbs[k.cur].terminal;
    ParentBefore(k.pcbs, t, chains[t]);
    PopChained(k, Resume(Release(k), k.pcbs[k.cur].parent), chains, t);
  }

  // ----- descriptors and memory

  lemma SpawnFiles(k: Kernel, img: Image, p: int, origin: Origin)
    requires Shape(k) && IsPid(p) && p !in k.active && FilesOk(k, img)
    ensures FilesOk(Spawn(MapProgram(k, p), p, origin), img)
  {
    assert FdsOk(img, false, k.pcbs[p].fds);
  }

  lemma SpawnMemory(k: Kernel, l: Layout, p: int, origin: Origin)
    requires Shape(k) && IsPid(p) && DirsOk(k, l)
    ensures MemoryOk(Spawn(MapProgram(k, p), p, origin), l)
  {
  }

  lemma ReleaseKeeps(k: Kernel, env: Env)
    requires Shape(k) && k.pcbs[k.cur].pid == k.cur && FilesOk(k, env.img) && DirsOk(k, env.layout)
    ensures Shape(Release(k)) && FilesOk(Release(k), env.img) && DirsOk(Release(k), env.layout)
  {
  }

  /** Chains do not depend on descriptors, paging or who is current. */
  lemma SameLinks(k: Kernel, k': Kernel)
    requires HasChains(k) && |k'.pcbs| == NUM_PROCESS && k'.active == k.active && k'.shells == k.shells
    requires forall p :: IsPid(p) ==> k'.pcbs[p].(fds := k.pcbs[p].fds) == k.pcbs[p]
    ensures HasChains(k')
  {
    var chains :| Chained(k, chains);
    forall t | t in chains
      ensures IsChain(k'.pcbs, t, chains[t])
    {
      ChainFrame(k.pcbs, k'.pcbs, t, chains[t]);
    }
    assert Chained(k', chains);
  }

  lemma SetFdFiles(k: Kernel, img: Image, fd: int, d: Desc)
    requires Shape(k) && k.cur in k.active && FilesOk(k, img) && 0 <= fd < MAX_OPEN_FILES
    requires fd < 2 ==> d.flags == Open(TermFile)
    requires d.flags == Open(RegFile) ==> d.inode < |img.inodes| && d.position <= img.inodes[d.inode].length
    ensures FilesOk(SetFd(k, fd, d), img)
  {
  }

  // ----- one step, invariant by invariant

  /** The active processes form chains and the current one is a leaf. */
  ghost predicate Ordered(k: Kernel) {
    HasChains(k) && Leaf(k, k.cur)
  }

  lemma SpawnLeaf(k: Kernel, p: int, origin: Origin)
    requires Shape(k) && IsPid(p) && (origin.Child? ==> p != k.cur)
    ensures var k' := Spawn(MapProgram(k, p), p, origin);
            k'.cur == p && Leaf(k', p)
  {
  }

  /** Halting never fails: a root shell finds a free number, its own at worst. */
  lemma HaltOutcome(k: Kernel, env: Env, stack: seq<byte>)
    requires Shape(k) && k.pcbs[k.cur].pid == k.cur && ValidEnv(env) && |stack| == 4
    ensures Shape(Release(k))
    ensures k.pcbs[k.cur].parent == NOBODY ==>
      LowestFree(Release(k).active).Some? &&
      var p := LowestFree(Release(k).active).value;
      Halt(k, env, stack) == Spawn(MapProgram(Release(k), p), p, Respawn)
  {
    InstalledIsExecutable(env.img, SHELL, stack);
    if k.pcbs[k.cur].parent == NOBODY {
      assert IsPid(k.cur) && k.cur !in Release(k).active;
      ExecuteOutcome(Release(k), env, SHELL, stack, Respawn);
    }
  }

  lemma HaltChains(k: Kernel, env: Env, stack: seq<byte>, k': Kernel)
    requires Shape(k) && Leaf(k, k.cur) && ValidEnv(env) && |stack| == 4 && HasChains(k)
    requires k' == Halt(k, env, stack)
    ensures Ordered(k')
  {
    var chains :| Chained(k, chains);
    CurrentIsLast(k, chains);
    HaltOutcome(k, env, stack);
    if k.pcbs[k.cur].parent == NOBODY {
      SpawnLeaf(Release(k), LowestFree(Release(k).active).value, Respawn);
      RespawnChained(k, LowestFree(Release(k).active).value, chains);
    } else {
      ResumeChained(k, chains);
    }
  }

  lemma SwitchOutcome(k: Kernel, env: Env, t: int, stack: seq<byte>)
    requires Shape(k) && ValidEnv(env) && |stack| == 4
    requires t != k.shown && t !in k.shells && LowestFree(k.active).Some?
    ensures var p := LowestFree(k.active).value;
            Switch(k, env, t, stack) == Spawn(MapProgram(k.(shells := k.shells + {t}, shown := t), p), p, Launch(t))
  {
    InstalledIsExecutable(env.img, SHELL, stack);
    assert IsPid(LowestFree(k.active).value);
    ExecuteOutcome(k.(shells := k.shells + {t}, shown := t), env, SHELL, stack, Launch(t));
  }

  lemma SwitchChains(k: Kernel, env: Env, t: int, stack: seq<byte>, k': Kernel)
    requires Shape(k) && Leaf(k, k.cur) && ValidEnv(env) && |stack| == 4 && t in {1, 2, 3} && HasChains(k)
    requires k' == Switch(k, env, t, stack)
    ensures Ordered(k')
  {
    if t != k.shown && t !in k.shells && LowestFree(k.active).Some? {
      SwitchOutcome(k, env, t, stack);
      SpawnLeaf(k.(shells := k.shells + {t}, shown := t), LowestFree(k.active).value, Launch(t));
      var chains :| Chained(k, chains);
      LaunchChained(k, t, LowestFree(k.active).value, chains);
    } else {
      SameLinks(k, k');
    }
  }

  lemma ExecuteChains(k: Kernel, env: Env, command: seq<byte>, stack: seq<byte>, k': Kernel)
    requires Shape(k) && Leaf(k, k.cur) && ValidEnv(env) && |stack| == 4 && HasChains(k)
    requires k' == Execute(k, env, Token(command), stack, Child(Arguments(command))).0
    ensures Ordered(k')
  {
    var args := Arguments(command);
    ExecuteOutcome(k, env, Token(command), stack, Child(args));
    if LowestFree(k.active).Some? {
      SpawnLeaf(k, LowestFree(k.active).value, Child(args));
      var chains :| Chained(k, chains);
      ChildChained(k, LowestFree(k.active).value, args, chains);
    }
  }

  /** Events that only touch the current process's descriptors or the paging. */
  predicate IsFileEvent(e: Event) {
    e.DoOpen? || e.DoClose? || e.DoRead? || e.DoVidmap?
  }

  /** `k'` differs from `k` in descriptors and paging at most. */
  ghost predicate SameTable(k: Kernel, k': Kernel) {
    && k' == k.(pcbs := k'.pcbs, dirs := k'.dirs, loaded := k'.loaded)
    && |k'.pcbs| == |k.pcbs| == NUM_PROCESS
    && forall p :: IsPid(p) ==> k'.pcbs[p].(fds := k.pcbs[p].fds) == k.pcbs[p]
  }

  lemma SetFdFrame(k: Kernel, fd: int, d: Desc)
    requires Shape(k) && 0 <= fd < MAX_OPEN_FILES
    ensures SameTable(k, SetFd(k, fd, d))
  {
  }

  lemma FileEventFrame(k: Kernel, env: Env, e: Event)
    requires Shape(k) && Leaf(k, k.cur) && ValidEnv(env) && ValidEvent(e) && IsFileEvent(e)
    ensures SameTable(k, Step(k, env, e))
  {
    match e
    case DoOpen(name) =>
      var i := OpenFile(k, env, name).1;
      if i >= 0 {
        SetFdFrame(k, i, Step(k, env, e).pcbs[k.cur].fds[i]);
      }
    case DoClose(fd) =>
      if CloseFile(k, fd).1 == 0 {
        SetFdFrame(k, fd, k.pcbs[k.cur].fds[fd].(flags := Closed));
      }
    case DoRead(fd, nbytes, device) =>
      var k' := ReadFile(k, env, fd, nbytes, device).0;
      if k' != k {
        SetFdFrame(k, fd, k'.pcbs[k.cur].fds[fd]);
      }
    case DoVidmap(_) =>
  }

  lemma SameTableChains(k: Kernel, k': Kernel)
    requires HasChains(k) && Leaf(k, k.cur) && SameTable(k, k')
    ensures Ordered(k')
  {
    SameLinks(k, k');
  }

  lemma TickChains(k: Kernel, k': Kernel)
    requires Shape(k) && Leaf(k, k.cur) && HasChains(k) && k' == Tick(k)
    ensures Ordered(k')
  {
    SameLinks(k, k');
  }

  lemma StepChains(k: Kernel, env: Env, e: Event, k': Kernel)
    requires Shape(k) && Leaf(k, k.cur) && ValidEnv(env) && ValidEvent(e) && HasChains(k)
    requires k' == Step(k, env, e)
    ensures Ordered(k')
  {
    if IsFileEvent(e) {
      FileEventChains(k, env, e, k');
    } else if e.DoExecute? {
      assert k' == Execute(k, env, Token(e.command), e.stack, Child(Arguments(e.command))).0;
      ExecuteChains(k, env, e.command, e.stack, k');
    } else if e.DoHalt? {
      assert k' == Halt(k, env, e.stack);
      HaltChains(k, env, e.stack, k');
    } else if e.DoSwitch? {
      assert k' == Switch(k, env, e.terminal, e.stack);
      SwitchChains(k, env, e.terminal, e.stack, k');
    } else {
      assert k' == Tick(k);
      TickChains(k, k');
    }
  }

  lemma FileEventChains(k: Kernel, env: Env, e: Event, k': Kernel)
    requires Shape(k) && Leaf(k, k.cur) && ValidEnv(env) && ValidEvent(e) && HasChains(k) && IsFileEvent(e)
    requires k' == Step(k, env, e)
    ensures Ordered(k')
  {
    FileEventFrame(k, env, e);
    SameTableChains(k, k');
  }

  /** What the chains say about one process. */
  lemma ChainPids(k: Kernel, p: int)
    requires HasChains(k) && p in k.active
    ensures IsPid(p) && k.pcbs[p].pid == p && (k.pcbs[p].parent == NOBODY || k.pcbs[p].parent in k.active)
  {
    var chains :| Chained(k, chains);
    var c := chains[k.pcbs[p].terminal];
    var i :| 0 <= i < |c| && c[i] == p;
    assert i > 0 ==> c[i - 1] in k.active;
  }

  lemma StepFiles(k: Kernel, env: Env, e: Event)
    requires Shape(k) && Leaf(k, k.cur) && ValidEnv(env) && ValidEvent(e)
    requires FilesOk(k, env.img) && DirsOk(k, env.layout) && k.pcbs[k.cur].pid == k.cur
    ensures FilesOk(Step(k, env, e), env.img)
  {
    match e
    case DoExecute(command, stack) =>
      ExecuteOutcome(k, env, Token(command), stack, Child(Arguments(command)));
      if LowestFree(k.active).Some? {
        SpawnFiles(k, env.img, LowestFree(k.active).value, Child(Arguments(command)));
      }
    case DoHalt(stack) =>
      ReleaseKeeps(k, env);
      HaltOutcome(k, env, stack);
      if k.pcbs[k.cur].parent == NOBODY {
        SpawnFiles(Release(k), env.img, LowestFree(Release(k).active).value, Respawn);
      }
    case DoSwitch(t, stack) =>
      if t != k.shown && t !in k.shells && LowestFree(k.active).Some? {
        SwitchOutcome(k, env, t, stack);
        SpawnFiles(k.(shells := k.shells + {t}, shown := t), env.img, LowestFree(k.active).value, Launch(t));
      }
    case DoTick =>
    case _ => FileEventFiles(k, env, e);
  }

  lemma FileEventFiles(k: Kernel, env: Env, e: Event)
    requires Shape(k) && Leaf(k, k.cur) && ValidEnv(env) && ValidEvent(e) && IsFileEvent(e) && FilesOk(k, env.img)
    ensures FilesOk(Step(k, env, e), env.img)
  {
    assert FdsOk(env.img, true, k.pcbs[k.cur].fds);
    match e
    case DoOpen(name) => OpenFiles(k, env, name);
    case DoClose(fd) =>
      if CloseFile(k, fd).1 == 0 {
        SetFdFiles(k, env.img, fd, k.pcbs[k.cur].fds[fd].(flags := Closed));
      }
    case DoRead(fd, nbytes, device) => ReadFiles(k, env, fd, nbytes, device);
    case DoVidmap(_) =>
  }

  lemma OpenFiles(k: Kernel, env: Env, name: seq<byte>)
    requires Shape(k) && k.cur in k.active && ValidEnv(env) && FilesOk(k, env.img)
    ensures FilesOk(OpenFile(k, env, name).0, env.img)
  {
    var i := OpenFile(k, env, name).1;
    if i >= 0 {
      OpenedIs(k, env, name, i);
      OpenedInside(env.img, name, k.pcbs[k.cur].fds[i]);
      SetFdFiles(k, env.img, i, Opened(Lookup(env.img.dentries, name).value, name, k.pcbs[k.cur].fds[i]));
    }
  }

  lemma OpenedInside(img: Image, name: seq<byte>, was: Desc)
    requires ValidImage(img) && Lookup(img.dentries, name).Some? && was.flags == Closed
    ensures var d := Opened(Lookup(img.dentries, name).value, name, was);
            d.flags == Open(RegFile) ==> d.inode < |img.inodes| && d.position == 0
  {
    var d := LookupFindsFirst(img.dentries, name);
  }

  /** What a successful sys_open does. */
  lemma OpenedIs(k: Kernel, env: Env, name: seq<byte>, i: int)
    requires Shape(k) && ValidEnv(env) && i == OpenFile(k, env, name).1 >= 0
    ensures 2 <= i < MAX_OPEN_FILES && k.pcbs[k.cur].fds[i].flags == Closed && Lookup(env.img.dentries, name).Some?
    ensures var d := Opened(Lookup(env.img.dentries, name).value, name, k.pcbs[k.cur].fds[i]);
            OpenFile(k, env, name).0 == SetFd(k, i, d)
  {
  }

  lemma ReadFiles(k: Kernel, env: Env, fd: int, nbytes: nat, device: int)
    requires Shape(k) && k.cur in k.active && ValidEnv(env) && FilesOk(k, env.img)
    ensures FilesOk(ReadFile(k, env, fd, nbytes, device).0, env.img)
  {
    assert FdsOk(env.img, true, k.pcbs[k.cur].fds);
    var k' := ReadFile(k, env, fd, nbytes, device).0;
    if k' != k {
      SetFdFiles(k, env.img, fd, k'.pcbs[k.cur].fds[fd]);
    }
  }

  lemma HaltMemory(k: Kernel, env: Env, stack: seq<byte>)
    requires Shape(k) && ValidEnv(env) && |stack| == 4 && k.pcbs[k.cur].pid == k.cur
    requires FilesOk(k, env.img) && DirsOk(k, env.layout)
    requires k.pcbs[k.cur].parent == NOBODY || k.pcbs[k.pcbs[k.cur].parent].pid == k.pcbs[k.cur].parent
    ensures MemoryOk(Halt(k, env, stack), env.layout)
  {
    ReleaseKeeps(k, env);
    HaltOutcome(k, env, stack);
    if k.pcbs[k.cur].parent == NOBODY {
      SpawnMemory(Release(k), env.layout, LowestFree(Release(k).active).value, Respawn);
    }
  }

  lemma TickMemory(k: Kernel, l: Layout)
    requires Shape(k) && Leaf(k, k.cur) && MemoryOk(k, l) && k.pcbs[Tick(k).cur].pid == Tick(k).cur
    ensures MemoryOk(Tick(k), l)
  {
  }

  lemma FileEventMemory(k: Kernel, env: Env, e: Event)
    requires Shape(k) && Leaf(k, k.cur) && ValidEnv(env) && ValidEvent(e) && IsFileEvent(e)
    requires MemoryOk(k, env.layout) && k.pcbs[k.cur].pid == k.cur
    ensures MemoryOk(Step(k, env, e), env.layout)
  {
    FileEventFrame(k, env, e);
  }

  lemma StepMemory(k: Kernel, env: Env, e: Event)
    requires Shape(k) && Leaf(k, k.cur) && ValidEnv(env) && ValidEvent(e)
    requires FilesOk(k, env.img) && MemoryOk(k, env.layout)
    requires forall p :: p in k.active ==> IsPid(p) && k.pcbs[p].pid == p
    requires k.pcbs[k.cur].parent == NOBODY || k.pcbs[k.cur].parent in k.active
    ensures MemoryOk(Step(k, env, e), env.layout)
  {
    match e
    case DoExecute(command, stack) =>
      ExecuteOutcome(k, env, Token(command), stack, Child(Arguments(command)));
      if LowestFree(k.active).Some? {
        SpawnMemory(k, env.layout, LowestFree(k.active).value, Child(Arguments(command)));
      }
    case DoHalt(stack) => HaltMemory(k, env, stack);
    case DoSwitch(t, stack) =>
      if t != k.shown && t !in k.shells && LowestFree(k.active).Some? {
        SwitchOutcome(k, env, t, stack);
        SpawnMemory(k.(shells := k.shells + {t}, shown := t), env.layout, LowestFree(k.active).value, Launch(t));
      }
    case DoTick => TickMemory(k, env.layout);
    case _ => FileEventMemory(k, env, e);
  }

  /** What an event does to the cursor and the displayed terminal. */
  lemma StepRest(k: Kernel, env: Env, e: Event)
    requires Shape(k) && Leaf(k, k.cur) && ValidEnv(env) && ValidEvent(e)
    requires k.shown in k.shells && k.pcbs[k.cur].pid == k.cur
    ensures var k' := Step(k, env, e);
            && k'.shown in k'.shells && (!e.DoSwitch? ==> k'.shown == k.shown)
            && (if e.DoTick? then k'.cursor == Succ(k'.cur) else k'.cursor == k.cursor)
  {
    match e
    case DoExecute(command, stack) => ExecuteOutcome(k, env, Token(command), stack, Child(Arguments(command)));
    case DoHalt(stack) => HaltOutcome(k, env, stack);
    case DoSwitch(t, stack) =>
      if t != k.shown && t !in k.shells && LowestFree(k.active).Some? {
        SwitchOutcome(k, env, t, stack);
      }
    case DoTick =>
    case _ => FileEventFrame(k, env, e);
  }

  /** Active numbers are their own processes' numbers, and the current process's parent is active. */
  predicate PidsOk(k: Kernel) {
    && IsPid(k.cur) && |k.pcbs| == NUM_PROCESS && k.cur in k.active
    && (forall p :: p in k.active ==> IsPid(p) && k.pcbs[p].pid == p)
    && (k.pcbs[k.cur].parent == NOBODY || k.pcbs[k.cur].parent in k.active)
  }

  lemma AllPids(k: Kernel)
    requires HasChains(k) && k.cur in k.active
    ensures PidsOk(k)
  {
    forall p | p in k.active
      ensures IsPid(p) && k.pcbs[p].pid == p
    {
      ChainPids(k, p);
    }
    ChainPids(k, k.cur);
  }

  /** Everything but the chains. */
  lemma StepKeepsRest(k: Kernel, env: Env, e: Event, k': Kernel)
    requires Shape(k) && Leaf(k, k.cur) && ValidEnv(env) && ValidEvent(e) && PidsOk(k) && k' == Step(k, env, e)
    requires FilesOk(k, env.img) && MemoryOk(k, env.layout) && k.shown in k.shells && IsPid(k'.cur)
    ensures FilesOk(k', env.img) && MemoryOk(k', env.layout) && IsPid(k'.cursor) && k'.shown in k'.shells
  {
    StepFiles(k, env, e);
    StepMemory(k, env, e);
    StepRest(k, env, e);
  }

  lemma StepKeepsInv(k: Kernel, env: Env, e: Event, k': Kernel)
    requires Inv(k, env) && Shape(k) && ValidEnv(env) && ValidEvent(e) && k' == Step(k, env, e)
    ensures Inv(k', env)
  {
    assert Ordered(k') by { StepChains(k, env, e, k'); }
    AllPids(k);
    StepKeepsRest(k, env, e, k');
  }

  lemma StepKeeps(k: Kernel, env: Env, e: Event)
    requires Inv(k, env) && ValidEnv(env) && ValidEvent(e)
    ensures Shape(k) && Inv(Step(k, env, e), env)
  {
    InvShape(k, env);
    StepKeepsInv(k, env, e, Step(k, env, e));
  }

  // ----- whole runs

  predicate Ready(k: Kernel, env: Env, e: Event) {
    Shape(k) && Leaf(k, k.cur) && ValidEnv(env) && ValidEvent(e)
  }

  /** The next state; `AlwaysReady` shows that the other branch is never taken. */
  function Next(k: Kernel, env: Env, e: Event): Kernel {
    if Ready(k, env, e) then Step(k, env, e) else k
  }

  function Run(k: Kernel, env: Env, events: seq<Event>): Kernel {
    if events == [] then k else Next(Run(k, env, events[..|events| - 1]), env, events[|events| - 1])
  }

  predicate ValidEvents(events: seq<Event>) {
    forall i :: 0 <= i < |events| ==> ValidEvent(events[i])
  }

  ghost predicate Reachable(k: Kernel, env: Env) {
    exists events :: ValidEvents(events) && k == Run(Boot(env), env, events)
  }

  lemma BootChained(env: Env)
    ensures Boot(env).active == {0} && Chained(Boot(env), map[1 := [0]])
  {
    var k := Boot(env);
    assert k.active == {0} && k.pcbs[0].child == NOBODY;
    assert IsChain(k.pcbs, 1, [0]);
  }

  lemma BootRest(env: Env)
    requires ValidEnv(env)
    ensures FilesOk(Boot(env), env.img) && MemoryOk(Boot(env), env.layout)
  {
  }

  lemma BootKeeps(env: Env)
    requires ValidEnv(env)
    ensures Inv(Boot(env), env)
  {
    BootChained(env);
    BootRest(env);
  }

  lemma NextKeeps(k: Kernel, env: Env, e: Event)
    requires Inv(k, env) && ValidEnv(env) && ValidEvent(e)
    ensures Inv(Next(k, env, e), env)
  {
    StepKeeps(k, env, e);
    assert Next(k, env, e) == Step(k, env, e);
  }

  lemma {:induction false} RunKeeps(env: Env, events: seq<Event>)
    requires ValidEnv(env) && ValidEvents(events)
    ensures Inv(Run(Boot(env), env, events), env)
  {
    if events == [] {
      BootKeeps(env);
    } else {
      var before := events[..|events| - 1];
      RunKeeps(env, before);
      NextKeeps(Run(Boot(env), env, before), env, events[|events| - 1]);
    }
  }

  /** The invariant holds in every reachable state. */
  lemma ReachableInv(k: Kernel, env: Env)
    requires ValidEnv(env) && Reachable(k, env)
    ensures Inv(k, env)
  {
    var events :| ValidEvents(events) && k == Run(Boot(env), env, events);
    RunKeeps(env, events);
  }

  /** In every reachable state the active processes form one chain per launched terminal, the current
      one is an active leaf, and paging and the kernel stack are its own. */
  lemma Safety(k: Kernel, env: Env)
    requires ValidEnv(env) && Reachable(k, env)
    ensures HasChains(k) && Leaf(k, k.cur) && k.loaded == k.cur && k.esp0 == StackTop(k.cur)
  {
    ReachableInv(k, env);
  }

  lemma AlwaysReady(k: Kernel, env: Env, e: Event)
    requires ValidEnv(env) && ValidEvent(e) && Reachable(k, env)
    ensures Ready(k, env, e) && Next(k, env, e) == Step(k, env, e) && Reachable(Next(k, env, e), env)
  {
    ReachableInv(k, env);
    InvShape(k, env);
    ReachableNext(k, env, e);
  }

  lemma RunExtends(k: Kernel, env: Env, events: seq<Event>, e: Event)
    ensures Run(k, env, events + [e]) == Next(Run(k, env, events), env, e)
  {
  }

  lemma ReachableNext(k: Kernel, env: Env, e: Event)
    requires ValidEvent(e) && Reachable(k, env)
    ensures Reachable(Next(k, env, e), env)
  {
    var events :| ValidEvents(events) && k == Run(Boot(env), env, events);
    RunExtends(Boot(env), env, events, e);
    assert ValidEvents(events + [e]);
  }

  lemma ReachableProcess(k: Kernel, env: Env, p: int)
    requires ValidEnv(env) && Reachable(k, env) && p in k.active
    ensures Shape(k) && IsPid(p) && k.pcbs[p].pid == p && FdsOk(env.img, true, k.pcbs[p].fds)
    ensures DirOk(env.layout, p, k.dirs[p]) && k.dirs[p][USER_INDEX] == UserEntry(p)
  {
    ReachableInv(k, env);
    InvShape(k, env);
    ChainPids(k, p);
  }

  lemma ChainTerminal(k: Kernel, p: int)
    requires HasChains(k) && p in k.active
    ensures IsPid(p) && k.pcbs[p].terminal in k.shells && k.shells <= {1, 2, 3}
  {
  }

  /** The running process belongs to a launched terminal. */
  lemma ReachableTerminal(k: Kernel, env: Env)
    requires ValidEnv(env) && Reachable(k, env)
    ensures Shape(k) && k.cur in k.active && k.pcbs[k.cur].terminal in k.shells && k.shells <= {1, 2, 3}
  {
    ReachableInv(k, env);
    InvShape(k, env);
    ChainTerminal(k, k.cur);
  }

  /** In every reachable state, user code of an active process reaches neither the kernel page nor any
      other process's frame, and its program area is its own frame. */
  lemma Isolation(k: Kernel, env: Env, tables: map<int, seq<int>>, p: int, q: int, v: int)
    requires ValidEnv(env) && Reachable(k, env) && TablesOk(env.layout, tables)
    requires p in k.active && IsPid(q) && 0 <= v < 0x1_0000_0000
    ensures IsPid(p) && |k.dirs| == NUM_PROCESS && |k.dirs[p]| == ENTRIES
    ensures var access := UserAccess(tables, k.dirs[p], v);
            && (access.Some? ==>
                  Allowed(p, access.value) && !InKernel(access.value) && (p != q ==> !InFrame(q, access.value)))
            && (PROGRAM_START <= v < PROGRAM_START + FOUR_MB ==> access.Some? && InFrame(p, access.value))
  {
    ReachableProcess(k, env, p);
    UserReach(env.layout, tables, p, k.dirs[p], v);
    var access := UserAccess(tables, k.dirs[p], v);
    if access.Some? {
      AllowedApart(p, q, access.value);
    }
    if PROGRAM_START <= v < PROGRAM_START + FOUR_MB {
      ProgramArea(env.layout, tables, p, k.dirs[p], v);
    }
  }

  /** A free slot of a reachable state has no open descriptor. */
  lemma ReachableFreeSlot(k: Kernel, env: Env, p: int)
    requires ValidEnv(env) && Reachable(k, env) && IsPid(p) && p !in k.active
    ensures Shape(k) && FdsOk(env.img, false, k.pcbs[p].fds)
  {
    ReachableInv(k, env);
    InvShape(k, env);
  }

  /** A started program begins with exactly descriptors 0 and 1 open, in a slot that was free. */
  lemma FreshDescriptors(k: Kernel, env: Env, name: seq<byte>, stack: seq<byte>, args: seq<byte>)
    requires ValidEnv(env) && Reachable(k, env) && |stack| == 4
    requires Shape(k) && Execute(k, env, name, stack, Child(args)).1
    ensures var k' := Execute(k, env, name, stack, Child(args)).0;
            && IsPid(k'.cur) && k'.cur !in k.active && |k'.pcbs| == NUM_PROCESS
            && |k'.pcbs[k'.cur].fds| == MAX_OPEN_FILES
            && forall i :: 0 <= i < MAX_OPEN_FILES ==> (k'.pcbs[k'.cur].fds[i].flags.Open? <==> i < 2)
  {
    ExecuteOutcome(k, env, name, stack, Child(args));
    ReachableFreeSlot(k, env, LowestFree(k.active).value);
    assert k.cur in k.active by { ReachableInv(k, env); }
    SpawnedFds(k, LowestFree(k.active).value, Child(args));
  }

  lemma SpawnedFds(k: Kernel, p: int, origin: Origin)
    requires Shape(k) && IsPid(p) && p != k.cur
    ensures var k' := Spawn(MapProgram(k, p), p, origin);
            k'.cur == p && forall i :: 0 <= i < MAX_OPEN_FILES ==>
              k'.pcbs[p].fds[i].flags == if i < 2 then Open(TermFile) else k.pcbs[p].fds[i].flags
  {
  }

  /** Reading an open regular file never fails. */
  lemma OpenReadsSucceed(k: Kernel, env: Env, fd: int, nbytes: nat, device: int)
    requires ValidEnv(env) && Reachable(k, env) && Shape(k) && (fd == 0 || 2 <= fd < MAX_OPEN_FILES)
    requires k.pcbs[k.cur].fds[fd].flags == Open(RegFile)
    ensures ReadFile(k, env, fd, nbytes, device).1 >= 0
  {
    assert k.cur in k.active by { ReachableInv(k, env); }
    ReachableProcess(k, env, k.cur);
  }

  /** Halting a root shell leaves a root shell running on the same terminal, and no other process changes. */
  lemma RootRespawns(k: Kernel, env: Env, stack: seq<byte>)
    requires ValidEnv(env) && Reachable(k, env) && |stack| == 4 && Shape(k) && k.pcbs[k.cur].parent == NOBODY
    ensures var k' := Halt(k, env, stack);
            && Leaf(k', k'.cur) && k'.pcbs[k'.cur].parent == NOBODY
            && k'.pcbs[k'.cur].terminal == k.pcbs[k.cur].terminal
            && k'.active == k.active - {k.cur} + {k'.cur}
            && forall p :: IsPid(p) && p in k.active && p != k.cur ==> k'.pcbs[p] == k.pcbs[p]
  {
    assert k.cur in k.active by { ReachableInv(k, env); }
    ReachableProcess(k, env, k.cur);
    HaltOutcome(k, env, stack);
    SpawnLeaf(Release(k), LowestFree(Release(k).active).value, Respawn);
  }

  /** Opening a regular file gives a descriptor that was closed, at the start of that very file, and
      touches no other. */
  lemma OpenedAtStart(k: Kernel, env: Env, name: seq<byte>)
    requires ValidEnv(env) && Shape(k) && OpenFile(k, env, name).1 >= 0
    ensures var (k', fd) := OpenFile(k, env, name);
            var entry := Lookup(env.img.dentries, name).value;
            && 2 <= fd < MAX_OPEN_FILES && k.pcbs[k.cur].fds[fd].flags == Closed
            && (forall i :: 0 <= i < MAX_OPEN_FILES && i != fd ==> k'.pcbs[k.cur].fds[i] == k.pcbs[k.cur].fds[i])
            && (entry.kind == KIND_FILE && !(TERMINAL_NAME <= name) ==>
                  k'.pcbs[k.cur].fds[fd] == Desc(Open(RegFile), entry.inode, 0))
  {
    OpenedIs(k, env, name, OpenFile(k, env, name).1);
    assert Bounded(name, 8) == TERMINAL_NAME ==> TERMINAL_NAME <= name;
  }

  /** After vidmap the page behind the program area is the video page. */
  lemma VidmapShowsVideo(k: Kernel, env: Env, tables: map<int, seq<int>>, pointer: int, v: int)
    requires ValidEnv(env) && Reachable(k, env) && TablesOk(env.layout, tables) && Shape(k)
    requires PROGRAM_START <= pointer < PROGRAM_START + FOUR_MB
    requires PROGRAM_START + FOUR_MB <= v < PROGRAM_START + FOUR_MB + PAGE
    ensures var k' := Vidmap(k, env, pointer).0;
            |k'.dirs[k'.loaded]| == ENTRIES && k'.loaded == k.cur
            && UserAccess(tables, k'.dirs[k'.loaded], v) == Some(VIDEO + v - (PROGRAM_START + FOUR_MB))
  {
    assert k.cur in k.active by { ReachableInv(k, env); }
    ReachableProcess(k, env, k.cur);
    VidmapPage(env.layout, tables, Vidmap(k, env, pointer).0.dirs[k.cur], v);
  }

  // ----- bounded waiting

  ghost predicate StaysLeaf(k: Kernel, env: Env, events: seq<Event>, p: int)
    decreases |events|
  {
    Leaf(k, p) && (events != [] ==> StaysLeaf(Next(k, env, events[0]), env, events[1..], p))
  }

  /** Some tick of the run selects `p`. */
  ghost predicate Selected(k: Kernel, env: Env, events: seq<Event>, p: int)
    decreases |events|
  {
    events != [] &&
    var k' := Next(k, env, events[0]);
    (events[0].DoTick? && k'.cur == p) || Selected(k', env, events[1..], p)
  }

  function Ticks(events: seq<Event>): nat {
    if events == [] then 0 else (if events[0].DoTick? then 1 else 0) + Ticks(events[1..])
  }

  lemma CursorNeverPasses(k: Kernel, p: int)
    requires Shape(k) && Leaf(k, k.cur) && Leaf(k, p) && Tick(k).cur != p
    ensures Ahead(Tick(k).cursor, p) < Ahead(k.cursor, p)
  {
  }

  lemma AheadInRange(k: Kernel, env: Env, p: int)
    requires ValidEnv(env) && Reachable(k, env) && Leaf(k, p)
    ensures 0 <= Ahead(k.cursor, p) < NUM_PROCESS
  {
    assert IsPid(k.cursor) by { ReachableInv(k, env); }
  }

  lemma WaitStep(k: Kernel, env: Env, e: Event, p: int)
    requires ValidEnv(env) && ValidEvent(e) && Reachable(k, env) && Leaf(k, p)
    ensures Reachable(Next(k, env, e), env)
    ensures !e.DoTick? ==> Next(k, env, e).cursor == k.cursor
    ensures e.DoTick? && Next(k, env, e).cur != p ==> Ahead(Next(k, env, e).cursor, p) < Ahead(k.cursor, p)
  {
    AlwaysReady(k, env, e);
    assert k.shown in k.shells && k.cur in k.active by { ReachableInv(k, env); }
    ReachableProcess(k, env, k.cur);
    StepRest(k, env, e);
    if e.DoTick? && Tick(k).cur != p {
      CursorNeverPasses(k, p);
    }
  }

  /** A process that stays an active leaf is selected once the run has more ticks than slots lie
      between the cursor and it, so after six ticks at the latest, whatever happens in between. */
  lemma {:induction false} BoundedWaiting(k: Kernel, env: Env, events: seq<Event>, p: int)
    requires ValidEnv(env) && ValidEvents(events) && Reachable(k, env) && StaysLeaf(k, env, events, p)
    requires Ticks(events) > Ahead(k.cursor, p)
    ensures Ahead(k.cursor, p) < NUM_PROCESS && Selected(k, env, events, p)
    decreases |events|
  {
    AheadInRange(k, env, p);
    if events != [] {
      WaitStep(k, env, events[0], p);
      if !(events[0].DoTick? && Next(k, env, events[0]).cur == p) {
        BoundedWaiting(Next(k, env, events[0]), env, events[1..], p);
      }
    }
  }
}
