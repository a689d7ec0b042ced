/** Processes and screens together: what each terminal shows over a run of the whole system. */
module SystemRuns {
  import opened Common
  import opened Screen
  import P = Processes
  import R = ProcessRuns
  import D = Display
  import T = Typing
  import opened LineEditor

  /** Process events, output of the running process, and the keyboard handler's effects on the screen. */
  datatype Event = Process(e: P.Event) | Output(c: byte) | Echo(c: byte) | EraseKey | WipeKey

  predicate Valid(e: Event) {
    e.Process? ==> P.ValidEvent(e.e)
  }

  function Running(k: P.Kernel): int {
    if 0 <= k.cur < |k.pcbs| then k.pcbs[k.cur].terminal else 0
  }

  /** How screenChange treats a terminal that is not displayed. */
  function ModeOf(k: P.Kernel, t: int): D.ShowMode {
    if t in k.shells then D.Existing else if P.LowestFree(k.active).None? then D.Refused else D.FirstTime
  }

  /** "\nAlready in terminal N\n391OS> " */
  function AlreadyThere(t: int): seq<byte>
    requires 1 <= t <= 3
  {
    [10, 65, 108, 114, 101, 97, 100, 121, 32, 105, 110, 32, 116, 101, 114, 109, 105, 110, 97, 108, 32, 48 + t, 10,
     51, 57, 49, 79, 83, 62, 32]
  }

  /** What an event does to the screens. */
  function Screens(k: P.Kernel, e: Event): seq<D.Event>
    requires Valid(e)
  {
    match e
    case Output(c) => [D.Print(Running(k), false, c)]
    case Echo(c) => [D.Print(Running(k), true, c)]
    case EraseKey => [D.Erase]
    case WipeKey => [D.Wipe]
    case Process(p) =>
      if !p.DoSwitch? then []
      else if p.terminal == k.shown then D.Prints(Running(k), AlreadyThere(p.terminal))
      else [D.Switch(p.terminal, ModeOf(k, p.terminal))]
  }

  function Next(k: P.Kernel, env: P.Env, e: Event): P.Kernel {
    if e.Process? then R.Next(k, env, e.e) else k
  }

  function AllScreens(k: P.Kernel, env: P.Env, events: seq<Event>): seq<D.Event>
    requires forall i :: 0 <= i < |events| ==> Valid(events[i])
    decreases |events|
  {
    if events == [] then [] else Screens(k, events[0]) + AllScreens(Next(k, env, events[0]), env, events[1..])
  }

  function RunAll(k: P.Kernel, env: P.Env, events: seq<Event>): P.Kernel
    decreases |events|
  {
    if events == [] then k else RunAll(Next(k, env, events[0]), env, events[1..])
  }

  // ----- one event

  lemma NextReachable(k: P.Kernel, env: P.Env, e: Event)
    requires P.ValidEnv(env) && R.Reachable(k, env) && Valid(e)
    ensures R.Reachable(Next(k, env, e), env)
  {
    if e.Process? {
      R.AlwaysReady(k, env, e.e);
    }
  }

  /** Only switching terminals changes which one is displayed. */
  lemma ShownNext(k: P.Kernel, env: P.Env, e: P.Event)
    requires P.ValidEnv(env) && R.Reachable(k, env) && P.ValidEvent(e)
    ensures R.Next(k, env, e).shown ==
            if e.DoSwitch? && e.terminal != k.shown && ModeOf(k, e.terminal) != D.Refused then e.terminal else k.shown
  {
    R.AlwaysReady(k, env, e);
    assert k.shown in k.shells && k.cur in k.active by { R.ReachableInv(k, env); }
    R.ReachableProcess(k, env, k.cur);
    if !e.DoSwitch? {
      R.StepRest(k, env, e);
    } else if e.terminal != k.shown && ModeOf(k, e.terminal) == D.FirstTime {
      R.SwitchOutcome(k, env, e.terminal, e.stack);
    }
  }

  /** An echo that scrolls comes while a process of the displayed terminal runs. */
  predicate Benign(k: P.Kernel, m: D.Multi, e: Event)
    requires D.ValidMulti(m)
  {
    e.Echo? ==> D.Benign(m, D.Print(Running(k), true, e.c))
  }

  lemma EventRuns(k: P.Kernel, env: P.Env, m: D.Multi, e: Event)
    requires P.ValidEnv(env) && R.Reachable(k, env) && Valid(e)
    requires D.ValidMulti(m) && m.shown == k.shown && Benign(k, m, e)
    ensures D.ValidRun(m, Screens(k, e)) && D.Run(m, Screens(k, e)).shown == Next(k, env, e).shown
  {
    R.ReachableTerminal(k, env);
    assert Running(k) in {1, 2, 3};
    if e.Process? {
      ShownNext(k, env, e.e);
      if e.e.DoSwitch? && e.e.terminal == k.shown {
        D.PrintsRun(m, Running(k), AlreadyThere(k.shown));
      }
    }
  }

  ghost predicate AllBenign(k: P.Kernel, env: P.Env, m: D.Multi, events: seq<Event>)
    requires forall i :: 0 <= i < |events| ==> Valid(events[i])
    requires D.ValidMulti(m)
    decreases |events|
  {
    events != [] ==>
      && Benign(k, m, events[0])
      && (D.ValidRun(m, Screens(k, events[0])) ==>
            AllBenign(Next(k, env, events[0]), env, D.Run(m, Screens(k, events[0])), events[1..]))
  }

  // ----- where it shows

  /** Output of a process appears on that process's terminal, wherever it is displayed; keys on the displayed one. */
  lemma WhereItShows(k: P.Kernel, env: P.Env, m: D.Multi, e: Event, t: int)
    requires P.ValidEnv(env) && R.Reachable(k, env) && D.ValidMulti(m) && m.shown == k.shown && IsTerminal(t)
    requires !e.Process? && Benign(k, m, e)
    ensures |k.pcbs| == 6 && 0 <= k.cur < 6 && IsTerminal(k.pcbs[k.cur].terminal)
    ensures D.ValidRun(m, Screens(k, e))
    ensures D.View(D.Run(m, Screens(k, e)), t) ==
            var v := D.View(m, t);
            if e.Output? then (if t == k.pcbs[k.cur].terminal then PutC(v, e.c) else v)
            else if t != k.shown then v
            else if e.Echo? then PutC(v, e.c)
            else if e.EraseKey? then Backspace(v)
            else ClearScreen()
  {
    assert |k.pcbs| == 6 && 0 <= k.cur < 6 && IsTerminal(k.pcbs[k.cur].terminal) by { R.ReachableTerminal(k, env); }
    var shown := if e.Output? then D.Print(k.pcbs[k.cur].terminal, false, e.c)
                 else if e.Echo? then D.Print(k.pcbs[k.cur].terminal, true, e.c)
                 else if e.EraseKey? then D.Erase else D.Wipe;
    assert Screens(k, e) == [shown];
    D.RunOne(m, shown);
    D.WhereEventsGo(m, shown, t);
  }

  /** A terminal that has been launched is shown as it was; one that has not is cleared, when a process number is
      free, and otherwise the display stays. */
  lemma WhereSwitchShows(k: P.Kernel, env: P.Env, m: D.Multi, u: int, stack: seq<byte>, t: int)
    requires P.ValidEnv(env) && R.Reachable(k, env) && D.ValidMulti(m) && m.shown == k.shown
    requires IsTerminal(t) && IsTerminal(u) && u != k.shown && |stack| == 4
    ensures var screens := Screens(k, Process(P.DoSwitch(u, stack)));
            var launch := u !in k.shells && exists p :: 0 <= p < 6 && p !in k.active;
            && D.ValidRun(m, screens)
            && D.View(D.Run(m, screens), t) == (if launch && t == u then ClearScreen() else D.View(m, t))
            && D.Run(m, screens).shown == (if u in k.shells || launch then u else k.shown)
  {
    if P.LowestFree(k.active).Some? {
      assert 0 <= P.LowestFree(k.active).value < 6;
    }
    D.RunOne(m, D.Switch(u, ModeOf(k, u)));
    D.WhereEventsGo(m, D.Switch(u, ModeOf(k, u)), t);
  }

  // ----- whole runs

  lemma {:induction false} ScreensFollow(k: P.Kernel, env: P.Env, m: D.Multi, events: seq<Event>)
    requires P.ValidEnv(env) && R.Reachable(k, env) && D.ValidMulti(m) && m.shown == k.shown
    requires (forall i :: 0 <= i < |events| ==> Valid(events[i])) && AllBenign(k, env, m, events)
    ensures D.ValidRun(m, AllScreens(k, env, events))
    ensures D.Run(m, AllScreens(k, env, events)).shown == RunAll(k, env, events).shown
    decreases |events|
  {
    if events != [] {
      var e := events[0];
      EventRuns(k, env, m, e);
      NextReachable(k, env, e);
      ScreensFollow(Next(k, env, e), env, D.Run(m, Screens(k, e)), events[1..]);
      D.RunConcat(m, Screens(k, e), AllScreens(Next(k, env, e), env, events[1..]));
    }
  }

  /** Over any run of processes, keys and ticks in which no echo scrolls astray, each terminal shows exactly what
      its own processes printed, or the kernel printed while one of them ran, and what was typed or cleared
      while it was displayed, as a terminal of its own would. */
  lemma TerminalsAreSeparate(k: P.Kernel, env: P.Env, m: D.Multi, events: seq<Event>, t: int)
    requires P.ValidEnv(env) && R.Reachable(k, env) && D.ValidMulti(m) && m.shown == k.shown && IsTerminal(t)
    requires (forall i :: 0 <= i < |events| ==> Valid(events[i])) && AllBenign(k, env, m, events)
    ensures D.ValidRun(m, AllScreens(k, env, events))
    ensures D.View(D.Run(m, AllScreens(k, env, events)), t) ==
            ApplyAll(D.View(m, t), D.Feed(k.shown, AllScreens(k, env, events), t))
  {
    ScreensFollow(k, env, m, events);
    D.ThreeTerminals(m, AllScreens(k, env, events), t);
  }

  /** "Already in terminal N" is printed on the terminal whose process runs: it reaches the displayed one, which
      it is about, exactly when that is the same. */
  lemma AlreadyThereReaches(k: P.Kernel, stack: seq<byte>, t: int)
    requires IsTerminal(k.shown) && |stack| == 4
    ensures var screens := Screens(k, Process(P.DoSwitch(k.shown, stack)));
            && D.Feed(k.shown, screens, t) == (if t == Running(k) then T.Puts(AlreadyThere(k.shown)) else [])
            && (D.Feed(k.shown, screens, k.shown) != [] <==> Running(k) == k.shown)
  {
    T.PrintsFeed(k.shown, Running(k), AlreadyThere(k.shown), t);
    T.PrintsFeed(k.shown, Running(k), AlreadyThere(k.shown), k.shown);
  }

  // ----- how an echo goes astray

  function EnterKeys(n: nat): seq<Event> {
    seq(n, _ => Echo(NEWLINE))
  }

  /** A letter printed by the running process, Ctrl-L, and Enter `n` times. */
  function Keys(n: nat): seq<Event> {
    [Output(65)] + ([WipeKey] + EnterKeys(n))
  }

  /** Alt-F2 and Alt-F1 first. */
  function Session(stack: seq<byte>, n: nat): seq<Event> {
    [Process(P.DoSwitch(2, stack))] + ([Process(P.DoSwitch(1, stack))] + Keys(n))
  }

  lemma {:induction false} EnterScreens(k: P.Kernel, env: P.Env, n: nat)
    requires Running(k) == 2
    ensures AllScreens(k, env, EnterKeys(n)) == D.Enters(n) && RunAll(k, env, EnterKeys(n)) == k
    decreases n
  {
    var keys := EnterKeys(n);
    if n > 0 {
      assert keys[1..] == EnterKeys(n - 1);
      EnterScreens(k, env, n - 1);
    }
  }

  /** Once terminal 2 is launched from boot, its shell runs; showing terminal 1 again does not change that. */
  lemma SecondShellRuns(env: P.Env, stack: seq<byte>)
    requires P.ValidEnv(env) && |stack| == 4
    ensures var a := R.Next(P.Boot(env), env, P.DoSwitch(2, stack));
            var b := R.Next(a, env, P.DoSwitch(1, stack));
            && ModeOf(P.Boot(env), 2) == D.FirstTime && P.Boot(env).shown == 1
            && a.shown == 2 && ModeOf(a, 1) == D.Existing && Running(b) == 2
  {
    var k := P.Boot(env);
    assert R.Reachable(k, env) by { assert k == R.Run(k, env, []); }
    R.AlwaysReady(k, env, P.DoSwitch(2, stack));
    assert k.active == {0} && k.shells == {1} && 1 !in k.active;
    R.SwitchOutcome(k, env, 2, stack);
    R.AlwaysReady(R.Next(k, env, P.DoSwitch(2, stack)), env, P.DoSwitch(1, stack));
  }

  lemma ScreensCons(k: P.Kernel, env: P.Env, e: Event, rest: seq<Event>)
    requires Valid(e) && forall i :: 0 <= i < |rest| ==> Valid(rest[i])
    ensures AllScreens(k, env, [e] + rest) == Screens(k, e) + AllScreens(Next(k, env, e), env, rest)
    ensures RunAll(k, env, [e] + rest) == RunAll(Next(k, env, e), env, rest)
  {
    assert ([e] + rest)[1..] == rest;
  }

  lemma KeyScreens(k: P.Kernel, env: P.Env, n: nat)
    requires Running(k) == 2
    ensures AllScreens(k, env, Keys(n)) == D.Letter(n) && RunAll(k, env, Keys(n)) == k
  {
    ScreensCons(k, env, Output(65), [WipeKey] + EnterKeys(n));
    ScreensCons(k, env, WipeKey, EnterKeys(n));
    EnterScreens(k, env, n);
  }

  /** The screen events of a session, given what its two switches do. */
  lemma SessionFrom(k: P.Kernel, a: P.Kernel, b: P.Kernel, env: P.Env, stack: seq<byte>, n: nat)
    requires |stack| == 4 && k.shown != 2 && ModeOf(k, 2) == D.FirstTime
    requires a == Next(k, env, Process(P.DoSwitch(2, stack))) && a.shown != 1 && ModeOf(a, 1) == D.Existing
    requires b == Next(a, env, Process(P.DoSwitch(1, stack))) && Running(b) == 2
    ensures AllScreens(k, env, Session(stack, n)) == D.Prelude(n) && RunAll(k, env, Session(stack, n)) == b
  {
    var back := Process(P.DoSwitch(1, stack));
    ScreensCons(k, env, Process(P.DoSwitch(2, stack)), [back] + Keys(n));
    ScreensCons(a, env, back, Keys(n));
    KeyScreens(b, env, n);
  }

  /** So from boot on, whatever memory held, a few keys lead to a state in which one more Enter, typed on
      terminal 1, scrolls terminal 2. */
  lemma EnterGoesAstray(env: P.Env, stack: seq<byte>, m: D.Multi)
    requires P.ValidEnv(env) && |stack| == 4 && D.ValidMulti(m) && m.shown == 1
    ensures var screens := AllScreens(P.Boot(env), env, Session(stack, ROWS - 1));
            && D.ValidRun(m, screens)
            && Running(RunAll(P.Boot(env), env, Session(stack, ROWS - 1))) == 2
            && !D.Faithful(D.Run(m, screens), D.Print(2, true, NEWLINE))
  {
    var k := P.Boot(env);
    var a := R.Next(k, env, P.DoSwitch(2, stack));
    SecondShellRuns(env, stack);
    SessionFrom(k, a, R.Next(a, env, P.DoSwitch(1, stack)), env, stack, ROWS - 1);
    D.EchoGoesAstray(m);
  }

  // ----- how a typed line goes astray

  function Outputs(text: seq<byte>): seq<Event> {
    seq(|text|, i requires 0 <= i < |text| => Output(text[i]))
  }

  lemma {:induction false} OutputScreens(k: P.Kernel, env: P.Env, text: seq<byte>, rest: seq<Event>)
    requires forall i :: 0 <= i < |rest| ==> Valid(rest[i])
    ensures AllScreens(k, env, Outputs(text) + rest) == D.Prints(Running(k), text) + AllScreens(k, env, rest)
    ensures RunAll(k, env, Outputs(text) + rest) == RunAll(k, env, rest)
    decreases |text|
  {
    if text == [] {
      assert Outputs(text) + rest == rest;
    } else {
      var later := text[1..];
      assert Outputs(text) + rest == [Output(text[0])] + (Outputs(later) + rest);
      ScreensCons(k, env, Output(text[0]), Outputs(later) + rest);
      OutputScreens(k, env, later, rest);
      PrintsCons(Running(k), text, AllScreens(k, env, rest));
    }
  }

  lemma PrintsCons(running: int, text: seq<byte>, rest: seq<D.Event>)
    requires text != []
    ensures [D.Print(running, false, text[0])] + (D.Prints(running, text[1..]) + rest) == D.Prints(running, text) + rest
  {
  }

  /** Alt-F2 and Alt-F1. */
  function Visit(stack: seq<byte>): seq<Event> {
    [Process(P.DoSwitch(2, stack))] + [Process(P.DoSwitch(1, stack))]
  }

  /** Ctrl-L, output of the first shell, and a visit to terminal 2. */
  function Screenful(stack: seq<byte>, text: seq<byte>): seq<Event> {
    [WipeKey] + (Outputs(text) + Visit(stack))
  }

  lemma VisitScreens(env: P.Env, stack: seq<byte>)
    requires P.ValidEnv(env) && |stack| == 4
    ensures AllScreens(P.Boot(env), env, Visit(stack)) == T.VISIT
    ensures Running(RunAll(P.Boot(env), env, Visit(stack))) == 2
  {
    var k := P.Boot(env);
    var there, back := Process(P.DoSwitch(2, stack)), Process(P.DoSwitch(1, stack));
    SecondShellRuns(env, stack);
    ScreensCons(k, env, there, [back]);
    assert [back] + [] == [back];
    ScreensCons(Next(k, env, there), env, back, []);
  }

  lemma ScreenfulScreens(env: P.Env, stack: seq<byte>, text: seq<byte>)
    requires P.ValidEnv(env) && |stack| == 4
    ensures AllScreens(P.Boot(env), env, Screenful(stack, text)) == T.Prelude(text)
    ensures Running(RunAll(P.Boot(env), env, Screenful(stack, text))) == 2
  {
    var k := P.Boot(env);
    assert Running(k) == 1;
    ScreensCons(k, env, WipeKey, Outputs(text) + Visit(stack));
    OutputScreens(k, env, text, Visit(stack));
    VisitScreens(env, stack);
  }

  /** From boot on, whatever memory held: a screenful of output, a visit to terminal 2, and the first character
      typed on terminal 1 is not where the line says. */
  lemma KeyGoesAstray(env: P.Env, stack: seq<byte>, m: D.Multi)
    requires P.ValidEnv(env) && |stack| == 4 && D.ValidMulti(m) && m.shown == 1
    ensures var events := Screenful(stack, T.FullText());
            var screens := AllScreens(P.Boot(env), env, events);
            && D.ValidRun(m, screens) && Running(RunAll(P.Boot(env), env, events)) == 2
            && var r := D.Run(m, screens);
            && r.shown == 1 && T.InStep(T.FullText(), EMPTY, r)
            && var (l', m') := T.Type(EMPTY, r, 2, Char(98)); !T.InStep(T.FullText(), l', m')
  {
    ScreenfulScreens(env, stack, T.FullText());
    T.KeyGoesAstray(m);
  }
}
