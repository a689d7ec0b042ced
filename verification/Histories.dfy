/** What one process keeps over a run, whatever the others do: its arguments and its place in its files. */
module Histories {
  import opened Common
  import opened Strings
  import opened FileSystem
  import opened Commands
  import opened Paging
  import opened Processes
  import opened ProcessRuns

  lemma {:induction false} RunReachable(k: Kernel, env: Env, events: seq<Event>)
    requires ValidEnv(env) && Reachable(k, env) && ValidEvents(events)
    ensures Reachable(Run(k, env, events), env)
  {
    if events != [] {
      var before := events[..|events| - 1];
      RunReachable(k, env, before);
      ReachableNext(Run(k, env, before), env, events[|events| - 1]);
    }
  }

  // ----- one event and one process

  /** `k'` has the same process in slot `p`, with the same arguments and descriptors. */
  predicate SameProcess(k: Kernel, k': Kernel, p: int) {
    && IsPid(p) && |k.pcbs| == |k'.pcbs| == NUM_PROCESS && p in k'.active
    && k'.pcbs[p].arguments == k.pcbs[p].arguments && k'.pcbs[p].fds == k.pcbs[p].fds
  }

  lemma SpawnSame(k: Kernel, q: int, origin: Origin, p: int)
    requires Shape(k) && IsPid(q) && IsPid(p) && p in k.active && p != q
    ensures SameProcess(k, Spawn(MapProgram(k, q), q, origin), p)
  {
  }

  lemma HaltSame(k: Kernel, env: Env, stack: seq<byte>, p: int)
    requires Shape(k) && k.pcbs[k.cur].pid == k.cur && ValidEnv(env) && |stack| == 4
    requires IsPid(p) && p in k.active && p != k.cur
    ensures SameProcess(k, Halt(k, env, stack), p)
  {
    HaltOutcome(k, env, stack);
    if k.pcbs[k.cur].parent == NOBODY {
      SpawnSame(Release(k), LowestFree(Release(k).active).value, Respawn, p);
    }
  }

  lemma SwitchSame(k: Kernel, env: Env, t: int, stack: seq<byte>, p: int)
    requires Shape(k) && ValidEnv(env) && |stack| == 4 && IsPid(p) && p in k.active
    ensures SameProcess(k, Switch(k, env, t, stack), p)
  {
    if t != k.shown && t !in k.shells && LowestFree(k.active).Some? {
      SwitchOutcome(k, env, t, stack);
      SpawnSame(k.(shells := k.shells + {t}, shown := t), LowestFree(k.active).value, Launch(t), p);
    }
  }

  /** An event that is not the process's own file call or halt leaves it alone. */
  lemma StepSame(k: Kernel, env: Env, e: Event, p: int)
    requires Shape(k) && Leaf(k, k.cur) && k.pcbs[k.cur].pid == k.cur && ValidEnv(env) && ValidEvent(e)
    requires IsPid(p) && p in k.active && (k.cur == p ==> !IsFileEvent(e) && !e.DoHalt?)
    ensures SameProcess(k, Step(k, env, e), p)
  {
    match e
    case DoExecute(command, stack) =>
      ExecuteOutcome(k, env, Token(command), stack, Child(Arguments(command)));
      if LowestFree(k.active).Some? {
        SpawnSame(k, LowestFree(k.active).value, Child(Arguments(command)), p);
      }
    case DoHalt(stack) => HaltSame(k, env, stack, p);
    case DoSwitch(t, stack) => SwitchSame(k, env, t, stack, p);
    case DoTick =>
    case _ => FileEventOnlyCurrent(k, env, e, p);
  }

  lemma FileEventOnlyCurrent(k: Kernel, env: Env, e: Event, p: int)
    requires Shape(k) && Leaf(k, k.cur) && ValidEnv(env) && ValidEvent(e) && IsFileEvent(e)
    requires IsPid(p) && p in k.active && p != k.cur
    ensures SameProcess(k, Step(k, env, e), p)
  {
    FileEventFrame(k, env, e);
  }

  /** The process does not halt. */
  predicate Survives(k: Kernel, e: Event, p: int) {
    !(e.DoHalt? && k.cur == p)
  }

  lemma ReachableStep(k: Kernel, env: Env, e: Event, p: int)
    requires ValidEnv(env) && ValidEvent(e) && Reachable(k, env) && p in k.active
    ensures Shape(k) && Leaf(k, k.cur) && k.pcbs[k.cur].pid == k.cur && IsPid(p) && Next(k, env, e) == Step(k, env, e)
  {
    AlwaysReady(k, env, e);
    ReachableProcess(k, env, k.cur);
    ReachableProcess(k, env, p);
  }

  lemma ArgumentsStep(k: Kernel, env: Env, e: Event, p: int)
    requires ValidEnv(env) && ValidEvent(e) && Reachable(k, env) && p in k.active && Survives(k, e, p)
    ensures var k' := Next(k, env, e);
            && IsPid(p) && |k.pcbs| == |k'.pcbs| == NUM_PROCESS && p in k'.active
            && k'.pcbs[p].arguments == k.pcbs[p].arguments
  {
    ReachableStep(k, env, e, p);
    if k.cur == p && IsFileEvent(e) {
      FileEventFrame(k, env, e);
    } else {
      StepSame(k, env, e, p);
    }
  }

  // ----- arguments over a run

  /** The process is active and does not halt during the run. */
  ghost predicate Lives(k: Kernel, env: Env, events: seq<Event>, p: int) {
    if events == [] then p in k.active
    else
      var before := events[..|events| - 1];
      Lives(k, env, before, p) && Survives(Run(k, env, before), events[|events| - 1], p)
  }

  lemma {:induction false} ArgumentsKept(k: Kernel, env: Env, events: seq<Event>, p: int)
    requires ValidEnv(env) && ValidEvents(events) && Reachable(k, env) && Lives(k, env, events, p)
    ensures var k' := Run(k, env, events);
            && IsPid(p) && |k.pcbs| == |k'.pcbs| == NUM_PROCESS && p in k'.active
            && k'.pcbs[p].arguments == k.pcbs[p].arguments
  {
    if events == [] {
      ReachableProcess(k, env, p);
    } else {
      var before := events[..|events| - 1];
      ArgumentsKept(k, env, before, p);
      RunReachable(k, env, before);
      ArgumentsStep(Run(k, env, before), env, events[|events| - 1], p);
    }
  }

  /** The new process finds the arguments of the command line. */
  lemma StartedWith(k: Kernel, env: Env, command: seq<byte>, stack: seq<byte>)
    requires ValidEnv(env) && Reachable(k, env) && ValidEvent(DoExecute(command, stack)) && Shape(k)
    requires Executable(env.img, Token(command), stack) && LowestFree(k.active).Some?
    ensures var k' := Next(k, env, DoExecute(command, stack));
            && Reachable(k', env) && IsPid(k'.cur) && |k'.pcbs| == NUM_PROCESS && k'.cur in k'.active
            && k'.pcbs[k'.cur].arguments == Arguments(command)
  {
    AlwaysReady(k, env, DoExecute(command, stack));
    assert IsPid(LowestFree(k.active).value);
    ExecuteOutcome(k, env, Token(command), stack, Child(Arguments(command)));
    SpawnedWith(k, LowestFree(k.active).value, Arguments(command));
  }

  lemma SpawnedWith(k: Kernel, p: int, args: seq<byte>)
    requires Shape(k) && IsPid(p) && p !in k.active && k.cur in k.active
    ensures var k' := Spawn(MapProgram(k, p), p, Child(args));
            k'.cur == p && p in k'.active && |k'.pcbs| == NUM_PROCESS && k'.pcbs[p].arguments == args
  {
  }

  /** "token args" is executed, then anything happens but the new process's own halt: its sys_getargs
      returns the first 31 bytes of `args` if there are any and they fit the request, and -1 otherwise. */
  lemma ArgumentsRoundTrip(k: Kernel, env: Env, token: seq<byte>, args: seq<byte>, tail: seq<byte>, stack: seq<byte>,
                           events: seq<Event>, buf: seq<byte>, nbytes: int)
    requires ValidEnv(env) && ValidEvents(events) && Reachable(k, env) && |stack| == 4 && Shape(k)
    requires |token| < CMD_SIZE && forall j :: 0 <= j < |token| ==> token[j] !in TOKEN_ENDS
    requires (forall j :: 0 <= j < |args| ==> args[j] !in LINE_ENDS) && tail != [] && tail[0] in LINE_ENDS
    requires Executable(env.img, token, stack) && LowestFree(k.active).Some? && 0 <= nbytes <= |buf|
    requires var k' := Next(k, env, DoExecute(token + [SPACE] + args + tail, stack));
             Lives(k', env, events, k'.cur)
    ensures var k' := Next(k, env, DoExecute(token + [SPACE] + args + tail, stack));
            && IsPid(k'.cur) && |Run(k', env, events).pcbs| == NUM_PROCESS
            && var (saved, n) := (Run(k', env, events).pcbs[k'.cur].arguments, Min(|args|, ARG_SIZE - 1));
            && (|saved| <= Unsigned(nbytes) ==> |saved| <= |buf|)
            && var (out, r) := GotArgs(saved, buf, nbytes);
            && (r == 0 <==> 1 <= n <= nbytes) && (r != 0 ==> r == -1)
            && (r == 0 ==> out[..n] == args[..n])
  {
    var command := token + [SPACE] + args + tail;
    SplitRoundTrip(token, args, tail);
    StartedWith(k, env, command, stack);
    var k' := Next(k, env, DoExecute(command, stack));
    ArgumentsKept(k', env, events, k'.cur);
  }

  // ----- stored arguments are strings

  predicate CleanArguments(k: Kernel) {
    forall p :: 0 <= p < |k.pcbs| ==> NUL !in k.pcbs[p].arguments && |k.pcbs[p].arguments| < ARG_SIZE
  }

  lemma SpawnClean(k: Kernel, p: int, origin: Origin)
    requires Shape(k) && IsPid(p) && CleanArguments(k)
    requires origin.Child? ==> NUL !in origin.args && |origin.args| < ARG_SIZE
    ensures CleanArguments(Spawn(MapProgram(k, p), p, origin))
  {
  }

  lemma HaltClean(k: Kernel, env: Env, stack: seq<byte>)
    requires Shape(k) && k.pcbs[k.cur].pid == k.cur && ValidEnv(env) && |stack| == 4 && CleanArguments(k)
    ensures CleanArguments(Halt(k, env, stack))
  {
    HaltOutcome(k, env, stack);
    if k.pcbs[k.cur].parent == NOBODY {
      SpawnClean(Release(k), LowestFree(Release(k).active).value, Respawn);
    }
  }

  lemma StepClean(k: Kernel, env: Env, e: Event)
    requires Shape(k) && Leaf(k, k.cur) && k.pcbs[k.cur].pid == k.cur && ValidEnv(env) && ValidEvent(e)
    requires CleanArguments(k)
    ensures CleanArguments(Step(k, env, e))
  {
    match e
    case DoExecute(command, stack) =>
      ExecuteOutcome(k, env, Token(command), stack, Child(Arguments(command)));
      if LowestFree(k.active).Some? {
        SpawnClean(k, LowestFree(k.active).value, Child(Arguments(command)));
      }
    case DoHalt(stack) => HaltClean(k, env, stack);
    case DoSwitch(t, stack) =>
      if t != k.shown && t !in k.shells && LowestFree(k.active).Some? {
        SwitchOutcome(k, env, t, stack);
        SpawnClean(k.(shells := k.shells + {t}, shown := t), LowestFree(k.active).value, Launch(t));
      }
    case DoTick =>
    case _ => FileEventFrame(k, env, e);
  }

  /** In every reachable state each process's arguments are a string of at most 31 bytes. */
  lemma {:induction false} RunClean(env: Env, events: seq<Event>)
    requires ValidEnv(env) && ValidEvents(events)
    ensures CleanArguments(Run(Boot(env), env, events))
  {
    if events != [] {
      var before, e := events[..|events| - 1], events[|events| - 1];
      var k := Run(Boot(env), env, before);
      RunClean(env, before);
      assert Reachable(k, env);
      assert k.cur in k.active by { ReachableInv(k, env); }
      ReachableStep(k, env, e, k.cur);
      StepClean(k, env, e);
    }
  }

  lemma ReachableArguments(k: Kernel, env: Env)
    requires ValidEnv(env) && Reachable(k, env)
    ensures CleanArguments(k)
  {
    var events :| ValidEvents(events) && k == Run(Boot(env), env, events);
    RunClean(env, events);
  }

  // ----- files over a run

  /** The process neither halts nor closes `fd`. */
  predicate Holds(k: Kernel, e: Event, p: int, fd: int) {
    Survives(k, e, p) && !(e == DoClose(fd) && k.cur == p)
  }

  ghost predicate Keeps(k: Kernel, env: Env, events: seq<Event>, p: int, fd: int) {
    if events == [] then p in k.active
    else
      var before := events[..|events| - 1];
      Keeps(k, env, before, p, fd) && Holds(Run(k, env, before), events[|events| - 1], p, fd)
  }

  /** The bytes the event delivers to process `p` on descriptor `fd`. */
  function Delivery(k: Kernel, env: Env, e: Event, p: int, fd: int): seq<byte>
  {
    if Ready(k, env, e) && e.DoRead? && e.fd == fd && k.cur == p && ReadFile(k, env, fd, e.nbytes, e.device).1 >= 0
       && 0 <= fd < MAX_OPEN_FILES
    then BytesRead(env.img, k.pcbs[p].fds[fd], ReadFile(k, env, fd, e.nbytes, e.device).1, [])
    else []
  }

  /** All bytes the run delivers to `p` on `fd`, in order. */
  function Got(k: Kernel, env: Env, events: seq<Event>, p: int, fd: int): seq<byte> {
    if events == [] then []
    else
      var before := events[..|events| - 1];
      Got(k, env, before, p, fd) + Delivery(Run(k, env, before), env, events[|events| - 1], p, fd)
  }

  /** Descriptor `fd` of `p` is open on regular file `i`, positioned inside it. */
  predicate Reading(k: Kernel, img: Image, p: int, fd: int, i: nat) {
    && IsPid(p) && |k.pcbs| == NUM_PROCESS && p in k.active && 2 <= fd < MAX_OPEN_FILES
    && |k.pcbs[p].fds| == MAX_OPEN_FILES && i < |img.inodes|
    && k.pcbs[p].fds[fd].flags == Open(RegFile) && k.pcbs[p].fds[fd].inode == i
    && k.pcbs[p].fds[fd].position <= img.inodes[i].length
  }

  /** From `k` to `k'` the process gets `bytes` and its position moves past them. */
  predicate Moves(k: Kernel, k': Kernel, img: Image, p: int, fd: int, i: nat, bytes: seq<byte>)
    requires ValidImage(img) && Reading(k, img, p, fd, i)
  {
    && Reading(k', img, p, fd, i) && k'.pcbs[p].fds[fd].position >= k.pcbs[p].fds[fd].position
    && bytes == File(img, i)[k.pcbs[p].fds[fd].position..k'.pcbs[p].fds[fd].position]
  }

  lemma StandsStill(k: Kernel, k': Kernel, img: Image, p: int, fd: int, i: nat)
    requires ValidImage(img) && Reading(k, img, p, fd, i)
    requires |k'.pcbs| == NUM_PROCESS && p in k'.active && |k'.pcbs[p].fds| == MAX_OPEN_FILES
    requires k'.pcbs[p].fds[fd] == k.pcbs[p].fds[fd]
    ensures Moves(k, k', img, p, fd, i, [])
  {
  }

  lemma OwnRead(k: Kernel, env: Env, nbytes: nat, device: int, fd: int, i: nat)
    requires Shape(k) && ValidEnv(env) && Reading(k, env.img, k.cur, fd, i)
    ensures var (k', r) := ReadFile(k, env, fd, nbytes, device);
            r >= 0 && Moves(k, k', env.img, k.cur, fd, i, BytesRead(env.img, k.pcbs[k.cur].fds[fd], r, []))
  {
  }

  lemma OtherRead(k: Kernel, env: Env, other: int, nbytes: nat, device: int, fd: int, i: nat)
    requires Shape(k) && ValidEnv(env) && Reading(k, env.img, k.cur, fd, i) && other != fd
    ensures Moves(k, ReadFile(k, env, other, nbytes, device).0, env.img, k.cur, fd, i, [])
  {
    StandsStill(k, ReadFile(k, env, other, nbytes, device).0, env.img, k.cur, fd, i);
  }

  lemma OwnOpenOrClose(k: Kernel, env: Env, e: Event, fd: int, i: nat)
    requires Ready(k, env, e) && (e.DoOpen? || e.DoClose? || e.DoVidmap?) && e != DoClose(fd)
    requires Reading(k, env.img, k.cur, fd, i)
    ensures Moves(k, Step(k, env, e), env.img, k.cur, fd, i, [])
  {
    FileEventFrame(k, env, e);
    StandsStill(k, Step(k, env, e), env.img, k.cur, fd, i);
  }

  lemma ReadingStep(k: Kernel, env: Env, e: Event, p: int, fd: int, i: nat)
    requires ValidEnv(env) && ValidEvent(e) && Reachable(k, env) && Reading(k, env.img, p, fd, i) && Holds(k, e, p, fd)
    ensures Moves(k, Next(k, env, e), env.img, p, fd, i, Delivery(k, env, e, p, fd))
  {
    ReachableStep(k, env, e, p);
    if k.cur == p && e.DoRead? {
      if e.fd == fd {
        OwnRead(k, env, e.nbytes, e.device, fd, i);
      } else {
        OtherRead(k, env, e.fd, e.nbytes, e.device, fd, i);
      }
    } else if k.cur == p && IsFileEvent(e) {
      OwnOpenOrClose(k, env, e, fd, i);
    } else {
      StepSame(k, env, e, p);
      StandsStill(k, Step(k, env, e), env.img, p, fd, i);
    }
  }

  /** Over any run in which the process does not halt or close the descriptor, whatever the others do, the
      bytes it gets there are the file from the first position to the last, without gap or overlap. */
  lemma {:induction false} ReadsInOrder(k: Kernel, env: Env, events: seq<Event>, p: int, fd: int, i: nat)
    requires ValidEnv(env) && ValidEvents(events) && Reachable(k, env)
    requires Reading(k, env.img, p, fd, i) && Keeps(k, env, events, p, fd)
    ensures Moves(k, Run(k, env, events), env.img, p, fd, i, Got(k, env, events, p, fd))
  {
    if events != [] {
      var before, e := events[..|events| - 1], events[|events| - 1];
      var mid := Run(k, env, before);
      ReadsInOrder(k, env, before, p, fd, i);
      RunReachable(k, env, before);
      ReadingStep(mid, env, e, p, fd, i);
      Join(File(env.img, i), k.pcbs[p].fds[fd].position, mid.pcbs[p].fds[fd].position,
           Run(k, env, events).pcbs[p].fds[fd].position);
    }
  }

  /** In particular from sys_open on: what a process has read is the file up to its position. */
  lemma ReadsFromOpen(k: Kernel, env: Env, name: seq<byte>, events: seq<Event>)
    requires ValidEnv(env) && ValidEvents(events) && Reachable(k, env) && Shape(k)
    requires NUL in name && OpenFile(k, env, name).1 >= 0
    requires Lookup(env.img.dentries, name).value.kind == KIND_FILE && !(TERMINAL_NAME <= name)
    requires Keeps(Next(k, env, DoOpen(name)), env, events, k.cur, OpenFile(k, env, name).1)
    ensures var (_, fd) := OpenFile(k, env, name);
            var k', i := Next(k, env, DoOpen(name)), Lookup(env.img.dentries, name).value.inode;
            && Reading(Run(k', env, events), env.img, k.cur, fd, i)
            && Got(k', env, events, k.cur, fd) ==
               File(env.img, i)[..Run(k', env, events).pcbs[k.cur].fds[fd].position]
  {
    var (_, fd) := OpenFile(k, env, name);
    var k', i := Next(k, env, DoOpen(name)), Lookup(env.img.dentries, name).value.inode;
    AlwaysReady(k, env, DoOpen(name));
    OpenedAtStart(k, env, name);
    var d := LookupFindsFirst(env.img.dentries, name);
    FileEventFrame(k, env, DoOpen(name));
    ReadsInOrder(k', env, events, k.cur, fd, i);
  }

  // ----- reading to the end

  /** The event is a read of the process on that descriptor, of at least one byte. */
  predicate IsRead(k: Kernel, e: Event, p: int, fd: int) {
    e.DoRead? && e.fd == fd && e.nbytes > 0 && k.cur == p
  }

  /** How many of them a run has. */
  function ReadsOf(k: Kernel, env: Env, events: seq<Event>, p: int, fd: int): nat {
    if events == [] then 0
    else
      var before := events[..|events| - 1];
      ReadsOf(k, env, before, p, fd) + ReadsIn(Run(k, env, before), events[|events| - 1], p, fd)
  }

  lemma ReadAdvances(k: Kernel, env: Env, e: Event, p: int, fd: int, i: nat)
    requires ValidEnv(env) && ValidEvent(e) && Reachable(k, env) && Reading(k, env.img, p, fd, i) && IsRead(k, e, p, fd)
    requires Dense(env.img.inodes[i]) && k.pcbs[p].fds[fd].position < env.img.inodes[i].length
    requires Reading(Next(k, env, e), env.img, p, fd, i)
    ensures Next(k, env, e).pcbs[p].fds[fd].position > k.pcbs[p].fds[fd].position
  {
    ReachableStep(k, env, e, p);
    DenseReadResult(env.img, i, k.pcbs[p].fds[fd].position, e.nbytes);
  }

  /** From `k` to `k'` at least `n` bytes are read, or all that are left. */
  predicate Advances(k: Kernel, k': Kernel, img: Image, p: int, fd: int, i: nat, n: nat)
    requires Reading(k, img, p, fd, i)
  {
    && Reading(k', img, p, fd, i)
    && k'.pcbs[p].fds[fd].position >= Min(img.inodes[i].length, k.pcbs[p].fds[fd].position + n)
  }

  lemma AdvancesJoin(k: Kernel, mid: Kernel, k': Kernel, img: Image, p: int, fd: int, i: nat, a: nat, b: nat)
    requires Reading(k, img, p, fd, i) && Advances(k, mid, img, p, fd, i, a) && Advances(mid, k', img, p, fd, i, b)
    ensures Advances(k, k', img, p, fd, i, a + b)
  {
  }

  /** One event, as far as the descriptor is concerned. */
  function ReadsIn(k: Kernel, e: Event, p: int, fd: int): nat {
    if IsRead(k, e, p, fd) then 1 else 0
  }

  lemma PositionStep(k: Kernel, env: Env, e: Event, p: int, fd: int, i: nat)
    requires ValidEnv(env) && ValidEvent(e) && Reachable(k, env) && Reading(k, env.img, p, fd, i) && Holds(k, e, p, fd)
    requires Dense(env.img.inodes[i])
    ensures Advances(k, Next(k, env, e), env.img, p, fd, i, ReadsIn(k, e, p, fd))
  {
    assert Moves(k, Next(k, env, e), env.img, p, fd, i, Delivery(k, env, e, p, fd)) by {
      ReadingStep(k, env, e, p, fd, i);
    }
    if IsRead(k, e, p, fd) && k.pcbs[p].fds[fd].position < env.img.inodes[i].length {
      ReadAdvances(k, env, e, p, fd, i);
    }
  }

  /** On a file without missing blocks every read gets on, so the end is reached within as many reads as bytes are
      left, whatever happens in between. */
  lemma {:induction false} ReadsReachEnd(k: Kernel, env: Env, events: seq<Event>, p: int, fd: int, i: nat)
    requires ValidEnv(env) && ValidEvents(events) && Reachable(k, env)
    requires Reading(k, env.img, p, fd, i) && Keeps(k, env, events, p, fd) && Dense(env.img.inodes[i])
    ensures Advances(k, Run(k, env, events), env.img, p, fd, i, ReadsOf(k, env, events, p, fd))
  {
    if events != [] {
      var before, e := events[..|events| - 1], events[|events| - 1];
      var mid := Run(k, env, before);
      ReadsReachEnd(k, env, before, p, fd, i);
      assert Reachable(mid, env) by { RunReachable(k, env, before); }
      PositionStep(mid, env, e, p, fd, i);
      AdvancesJoin(k, mid, Next(mid, env, e), env.img, p, fd, i,
                   ReadsOf(k, env, before, p, fd), ReadsIn(mid, e, p, fd));
    }
  }

  // ----- listing a directory

  /** How many entries come before one with an empty name. */
  function Entries(dir: seq<Dentry>): (n: nat)
    requires forall d :: 0 <= d < |dir| ==> |dir[d].name| == NAME_LENGTH
    ensures n <= |dir| && (forall d :: 0 <= d < n ==> dir[d].name[0] != NUL) && (n < |dir| ==> dir[n].name[0] == NUL)
  {
    if dir == [] || dir[0].name[0] == NUL then 0 else 1 + Entries(dir[1..])
  }

  /** The names of entries `a` to `b`, each as 32 bytes. */
  function Names(dir: seq<Dentry>, a: nat, b: nat): seq<seq<byte>>
    requires a <= b <= |dir|
  {
    seq(b - a, j requires 0 <= j < b - a => Padded(dir[a + j].name, 32))
  }

  /** Descriptor `fd` of `p` is open on the directory, not past its end. */
  predicate Listing(k: Kernel, img: Image, p: int, fd: int)
    requires ValidImage(img)
  {
    && IsPid(p) && |k.pcbs| == NUM_PROCESS && p in k.active && 2 <= fd < MAX_OPEN_FILES
    && |k.pcbs[p].fds| == MAX_OPEN_FILES && k.pcbs[p].fds[fd].flags == Open(DirFile)
    && k.pcbs[p].fds[fd].position <= Entries(img.dentries)
  }

  /** What the event puts into the process's buffer on that descriptor, if anything. */
  function Listed(k: Kernel, env: Env, e: Event, p: int, fd: int): seq<seq<byte>> {
    var bytes := Delivery(k, env, e, p, fd);
    if bytes == [] then [] else [bytes]
  }

  function AllListed(k: Kernel, env: Env, events: seq<Event>, p: int, fd: int): seq<seq<byte>> {
    if events == [] then []
    else
      var before := events[..|events| - 1];
      AllListed(k, env, before, p, fd) + Listed(Run(k, env, before), env, events[|events| - 1], p, fd)
  }

  /** From `k` to `k'` the process gets `names`, the next `n` or all that are left, and moves past them. */
  predicate Lists(k: Kernel, k': Kernel, img: Image, p: int, fd: int, names: seq<seq<byte>>, n: nat)
    requires ValidImage(img) && Listing(k, img, p, fd)
  {
    && Listing(k', img, p, fd)
    && k'.pcbs[p].fds[fd].position == Min(Entries(img.dentries), k.pcbs[p].fds[fd].position + n)
    && names == Names(img.dentries, k.pcbs[p].fds[fd].position, k'.pcbs[p].fds[fd].position)
  }

  lemma ListsNothing(k: Kernel, k': Kernel, img: Image, p: int, fd: int)
    requires ValidImage(img) && Listing(k, img, p, fd)
    requires |k'.pcbs| == NUM_PROCESS && p in k'.active && |k'.pcbs[p].fds| == MAX_OPEN_FILES
    requires k'.pcbs[p].fds[fd] == k.pcbs[p].fds[fd]
    ensures Lists(k, k', img, p, fd, [], 0)
  {
  }

  lemma OwnListing(k: Kernel, env: Env, device: int, fd: int)
    requires Shape(k) && ValidEnv(env) && Leaf(k, k.cur) && Listing(k, env.img, k.cur, fd)
    ensures var e := DoRead(fd, 32, device);
            Lists(k, Step(k, env, e), env.img, k.cur, fd, Listed(k, env, e, k.cur, fd), 1)
  {
    var d := k.pcbs[k.cur].fds[fd];
    var k' := Step(k, env, DoRead(fd, 32, device));
    DirectoryMoves(k, env, device, fd, d);
    DirectoryDelivery(k, env, device, fd, d);
    if d.position < Entries(env.img.dentries) {
      ListsOne(k, k', env.img, fd, d);
    } else {
      ListsAtEnd(k, env.img, k.cur, fd);
    }
  }

  lemma DirectoryMoves(k: Kernel, env: Env, device: int, fd: int, d: Desc)
    requires Shape(k) && ValidEnv(env) && Leaf(k, k.cur) && Listing(k, env.img, k.cur, fd) && d == k.pcbs[k.cur].fds[fd]
    ensures Step(k, env, DoRead(fd, 32, device)) ==
            if d.position < Entries(env.img.dentries) then SetFd(k, fd, d.(position := d.position + 1)) else k
  {
    NextEntry(env.img, d.position);
  }

  lemma ListsOne(k: Kernel, k': Kernel, img: Image, fd: int, d: Desc)
    requires Shape(k) && ValidImage(img) && Listing(k, img, k.cur, fd) && d == k.pcbs[k.cur].fds[fd]
    requires d.position < Entries(img.dentries) && k' == SetFd(k, fd, d.(position := d.position + 1))
    ensures Lists(k, k', img, k.cur, fd, [Padded(img.dentries[d.position].name, 32)], 1)
  {
  }

  lemma ListsAtEnd(k: Kernel, img: Image, p: int, fd: int)
    requires ValidImage(img) && Listing(k, img, p, fd) && k.pcbs[p].fds[fd].position == Entries(img.dentries)
    ensures Lists(k, k, img, p, fd, [], 1)
  {
  }

  lemma DirectoryDelivery(k: Kernel, env: Env, device: int, fd: int, d: Desc)
    requires Shape(k) && ValidEnv(env) && Leaf(k, k.cur) && Listing(k, env.img, k.cur, fd) && d == k.pcbs[k.cur].fds[fd]
    ensures var e := DoRead(fd, 32, device);
            Listed(k, env, e, k.cur, fd) ==
            if d.position < Entries(env.img.dentries) then [Padded(env.img.dentries[d.position].name, 32)] else []
  {
    NextEntry(env.img, d.position);
    DirectoryResult(k, env, device, fd, d);
    assert Delivery(k, env, DoRead(fd, 32, device), k.cur, fd) ==
           BytesRead(env.img, d, ReadFile(k, env, fd, 32, device).1, []);
  }

  lemma DirectoryResult(k: Kernel, env: Env, device: int, fd: int, d: Desc)
    requires Shape(k) && ValidEnv(env) && Listing(k, env.img, k.cur, fd) && d == k.pcbs[k.cur].fds[fd]
    ensures ReadFile(k, env, fd, 32, device).1 == if d.position < Entries(env.img.dentries) then 32 else 0
  {
    NextEntry(env.img, d.position);
  }

  /** What a directory read looks at. */
  lemma NextEntry(img: Image, position: nat)
    requires ValidImage(img) && position <= Entries(img.dentries)
    ensures position < Entries(img.dentries) <==> position < |img.dentries| && !EndMarker(img.dentries[position])
    ensures position < |img.dentries| ==>
              Padded(img.dentries[position].name + [], 32) == Padded(img.dentries[position].name, 32)
  {
    if position < |img.dentries| {
      EndMarkerIs(img.dentries[position]);
      assert img.dentries[position].name + [] == img.dentries[position].name;
    }
  }

  lemma OtherFileEvent(k: Kernel, env: Env, e: Event, fd: int)
    requires Ready(k, env, e) && IsFileEvent(e) && e != DoClose(fd) && !(e.DoRead? && e.fd == fd)
    requires Listing(k, env.img, k.cur, fd)
    ensures Lists(k, Step(k, env, e), env.img, k.cur, fd, [], 0)
  {
    OtherDescriptor(k, env, e, fd);
    ListsNothing(k, Step(k, env, e), env.img, k.cur, fd);
  }

  /** A file call on another descriptor leaves an open one alone. */
  lemma OtherDescriptor(k: Kernel, env: Env, e: Event, fd: int)
    requires Ready(k, env, e) && IsFileEvent(e) && e != DoClose(fd) && !(e.DoRead? && e.fd == fd)
    requires 2 <= fd < MAX_OPEN_FILES && k.pcbs[k.cur].fds[fd].flags.Open?
    ensures var k' := Step(k, env, e);
            && |k'.pcbs| == NUM_PROCESS && k'.active == k.active && |k'.pcbs[k.cur].fds| == MAX_OPEN_FILES
            && k'.pcbs[k.cur].fds[fd] == k.pcbs[k.cur].fds[fd]
  {
    FileEventFrame(k, env, e);
    if e.DoOpen? && OpenFile(k, env, e.name).1 >= 0 {
      OpenedIs(k, env, e.name, OpenFile(k, env, e.name).1);
    }
  }

  lemma ListingStep(k: Kernel, env: Env, e: Event, p: int, fd: int)
    requires ValidEnv(env) && ValidEvent(e) && Reachable(k, env) && Listing(k, env.img, p, fd) && Holds(k, e, p, fd)
    requires e.DoRead? && e.fd == fd ==> e.nbytes == 32
    ensures Lists(k, Next(k, env, e), env.img, p, fd, Listed(k, env, e, p, fd), ReadsIn(k, e, p, fd))
  {
    ReachableStep(k, env, e, p);
    if IsRead(k, e, p, fd) {
      OwnListing(k, env, e.device, fd);
    } else if k.cur == p && IsFileEvent(e) {
      OtherFileEvent(k, env, e, fd);
    } else {
      StepSame(k, env, e, p);
      ListsNothing(k, Step(k, env, e), env.img, p, fd);
    }
  }

  /** Every read on the descriptor asks for 32 bytes. */
  predicate AsksForNames(events: seq<Event>, fd: int) {
    forall j :: 0 <= j < |events| && events[j].DoRead? && events[j].fd == fd ==> events[j].nbytes == 32
  }

  lemma ListsJoin(k: Kernel, mid: Kernel, k': Kernel, img: Image, p: int, fd: int, a: seq<seq<byte>>, n: nat,
                  b: seq<seq<byte>>, m: nat)
    requires ValidImage(img) && Listing(k, img, p, fd)
    requires Lists(k, mid, img, p, fd, a, n) && Lists(mid, k', img, p, fd, b, m)
    ensures Lists(k, k', img, p, fd, a + b, n + m)
  {
    NamesJoin(img.dentries, k.pcbs[p].fds[fd].position, mid.pcbs[p].fds[fd].position, k'.pcbs[p].fds[fd].position);
  }

  lemma NamesJoin(dir: seq<Dentry>, a: nat, b: nat, c: nat)
    requires a <= b <= c <= |dir|
    ensures Names(dir, a, b) + Names(dir, b, c) == Names(dir, a, c)
  {
  }

  /** Reads of 32 bytes on an open directory, interleaved with anything: each gives the next name, until there is
      none. */
  lemma {:induction false} ListedInOrder(k: Kernel, env: Env, events: seq<Event>, p: int, fd: int)
    requires ValidEnv(env) && ValidEvents(events) && Reachable(k, env)
    requires Listing(k, env.img, p, fd) && Keeps(k, env, events, p, fd)
    requires AsksForNames(events, fd)
    ensures Lists(k, Run(k, env, events), env.img, p, fd, AllListed(k, env, events, p, fd),
                  ReadsOf(k, env, events, p, fd))
  {
    if events != [] {
      var before, e := events[..|events| - 1], events[|events| - 1];
      var mid := Run(k, env, before);
      ListedInOrder(k, env, before, p, fd);
      assert Reachable(mid, env) by { RunReachable(k, env, before); }
      ListingStep(mid, env, e, p, fd);
      ListsJoin(k, mid, Next(mid, env, e), env.img, p, fd, AllListed(k, env, before, p, fd),
                ReadsOf(k, env, before, p, fd), Listed(mid, env, e, p, fd), ReadsIn(mid, e, p, fd));
    }
  }

  /** So from sys_open of a directory on, `n` such reads give its first `n` names, or all of them. */
  lemma ListedFromOpen(k: Kernel, env: Env, name: seq<byte>, events: seq<Event>)
    requires ValidEnv(env) && ValidEvents(events) && Reachable(k, env) && Shape(k)
    requires NUL in name && OpenFile(k, env, name).1 >= 0
    requires Lookup(env.img.dentries, name).value.kind == 1 && !(TERMINAL_NAME <= name)
    requires var fd := OpenFile(k, env, name).1;
             Keeps(Next(k, env, DoOpen(name)), env, events, k.cur, fd) && AsksForNames(events, fd)
    ensures var (_, fd) := OpenFile(k, env, name);
            var k' := Next(k, env, DoOpen(name));
            AllListed(k', env, events, k.cur, fd) ==
            Names(env.img.dentries, 0, Min(Entries(env.img.dentries), ReadsOf(k', env, events, k.cur, fd)))
  {
    var (_, fd) := OpenFile(k, env, name);
    AlwaysReady(k, env, DoOpen(name));
    OpenedListing(k, env, name, fd);
    ListedFromStart(Next(k, env, DoOpen(name)), env, events, k.cur, fd);
  }

  lemma ListedFromStart(k: Kernel, env: Env, events: seq<Event>, p: int, fd: int)
    requires ValidEnv(env) && ValidEvents(events) && Reachable(k, env)
    requires Listing(k, env.img, p, fd) && k.pcbs[p].fds[fd].position == 0
    requires Keeps(k, env, events, p, fd) && AsksForNames(events, fd)
    ensures AllListed(k, env, events, p, fd) ==
            Names(env.img.dentries, 0, Min(Entries(env.img.dentries), ReadsOf(k, env, events, p, fd)))
  {
    ListedInOrder(k, env, events, p, fd);
  }

  lemma OpenedListing(k: Kernel, env: Env, name: seq<byte>, fd: int)
    requires Shape(k) && ValidEnv(env) && Leaf(k, k.cur) && fd == OpenFile(k, env, name).1 >= 0
    requires Lookup(env.img.dentries, name).value.kind == 1 && !(TERMINAL_NAME <= name)
    ensures var k' := OpenFile(k, env, name).0;
            Listing(k', env.img, k.cur, fd) && k'.pcbs[k.cur].fds[fd].position == 0
  {
    OpenedIs(k, env, name, fd);
    assert Bounded(name, 8) == TERMINAL_NAME ==> TERMINAL_NAME <= name;
  }
}
