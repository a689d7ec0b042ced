/** The imperative kernel over whole runs: whatever happens, every method finds its precondition met. */
module KernelLoop {
  import opened Common
  import opened Commands
  import opened Processes
  import opened ProcessRuns
  import opened Histories
  import opened Machine

  ghost predicate Live(m: Machine)
    reads m
  {
    m.Valid() && m.Idle() && Reachable(m.Value(), m.env)
  }

  /** What the methods ask for holds in every live state. */
  lemma LiveState(m: Machine)
    requires Live(m)
    ensures Leaf(m.Value(), m.cur) && m.cur in ActiveOf(m.bitmap) && m.pcbs[m.cur].pid == m.cur
  {
    AlwaysReady(m.Value(), m.env, DoTick);
    ReachableProcess(m.Value(), m.env, m.cur);
  }

  method HandleFile(m: Machine, e: Event, buf: array<byte>, following: seq<byte>)
    requires m.Valid() && m.Idle() && Leaf(m.Value(), m.cur) && ValidEvent(e) && IsFileEvent(e)
    requires (e.DoRead? ==> e.nbytes <= buf.Length) && NUL in following
    modifies m, buf
    ensures m.Idle() && m.bitmap < 0x40 && m.Value() == Next(old(m.Value()), m.env, e)
  {
    match e
    case DoOpen(name) => var r := m.SysOpen(name);
    case DoClose(fd) => var r := m.SysClose(fd);
    case DoRead(fd, nbytes, device) => var r := m.SysRead(fd, buf, nbytes, device, following);
    case DoVidmap(pointer) => var r, stored := m.SysVidmap(pointer);
  }

  method HandleProcess(m: Machine, e: Event, cmdStack: byte)
    requires m.Valid() && m.Idle() && Leaf(m.Value(), m.cur) && m.pcbs[m.cur].pid == m.cur
    requires ValidEvent(e) && !IsFileEvent(e)
    modifies m
    ensures m.Idle() && m.bitmap < 0x40 && m.Value() == Next(old(m.Value()), m.env, e)
  {
    match e
    case DoExecute(command, stack) => var r := m.SysExecute(command, stack, cmdStack);
    case DoHalt(stack) => m.SysHalt(stack, cmdStack);
    case DoTick => m.Schedule();
    case DoSwitch(t, stack) => m.ScreenChange(t, stack, cmdStack);
  }

  /** One event, handled by the in-place kernel, is one step of the model and leads to a live state again. */
  method Handle(m: Machine, e: Event, buf: array<byte>, cmdStack: byte, following: seq<byte>)
    requires Live(m) && ValidEvent(e) && (e.DoRead? ==> e.nbytes <= buf.Length) && NUL in following
    modifies m, buf
    ensures Live(m) && m.Value() == Next(old(m.Value()), m.env, e)
  {
    LiveState(m);
    assert Reachable(Next(m.Value(), m.env, e), m.env) by { AlwaysReady(m.Value(), m.env, e); }
    if IsFileEvent(e) {
      HandleFile(m, e, buf, following);
    } else {
      HandleProcess(m, e, cmdStack);
    }
    assert Shape(m.Value()) by { AlwaysReady(m.Value(), m.env, DoTick); }
  }

  /** sys_getargs changes no state, and its precondition on the stored arguments holds in every live one. */
  method HandleGetArgs(m: Machine, buf: array<byte>, nbytes: nat) returns (r: int)
    requires Live(m) && NUL in buf[..] && nbytes <= buf.Length
    modifies buf
    ensures Live(m) && (buf[..], r) == GotArgs(m.pcbs[m.cur].arguments, old(buf[..]), nbytes)
  {
    ReachableArguments(m.Value(), m.env);
    r := m.SysGetArgs(buf, nbytes);
  }

  lemma RunPrefix(k: Kernel, env: Env, events: seq<Event>, i: nat)
    requires i < |events|
    ensures Run(k, env, events[..i + 1]) == Next(Run(k, env, events[..i]), env, events[i])
  {
    assert events[..i + 1] == events[..i] + [events[i]];
    RunExtends(k, env, events[..i], events[i]);
  }

  /** The kernel from boot, through any sequence of events. */
  method Serve(env: Env, events: seq<Event>, buf: array<byte>, cmdStack: byte, following: seq<byte>)
      returns (m: Machine)
    requires ValidEnv(env) && NUL in following && forall i :: 0 <= i < |events| ==> ValidEvent(events[i])
    requires forall i :: 0 <= i < |events| && events[i].DoRead? ==> events[i].nbytes <= buf.Length
    modifies buf
    ensures fresh(m) && Live(m) && m.env == env && m.Value() == Run(Boot(env), env, events)
  {
    m := new Machine(env);
    assert Reachable(Boot(env), env) by { assert Boot(env) == Run(Boot(env), env, []); }
    var i := 0;
    while i < |events|
      invariant i <= |events| && Live(m) && m.env == env && m.Value() == Run(Boot(env), env, events[..i])
    {
      RunPrefix(Boot(env), env, events, i);
      Handle(m, events[i], buf, cmdStack, following);
      i := i + 1;
    }
    assert events[..|events|] == events;
  }
}
