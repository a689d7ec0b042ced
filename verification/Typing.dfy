/** Typing on the display: the line buffer of the displayed terminal and what stands on the screen, while a
    process of any terminal runs. */
module Typing {
  import opened Common
  import opened Screen
  import opened LineEditor
  import D = Display

  /** How the keyboard handler sends an echo to the screen while a process of terminal `running` runs. */
  function Echoed(running: int, e: TermEvent): D.Event {
    match e
    case TPut(c) => D.Print(running, true, c)
    case TBackspace => D.Erase
    case TClear => D.Wipe
  }

  /** One key typed on the displayed terminal. */
  function Type(l: Lines, m: D.Multi, running: int, k: Key): (r: (Lines, D.Multi))
    requires ValidLines(l) && D.ValidMulti(m) && IsTerminal(running)
    ensures ValidLines(r.0) && D.ValidMulti(r.1) && r.1.shown == m.shown
  {
    var (l', echo) := Press(l, m.shown, k);
    (l', if echo == [] then m else D.Step(m, Echoed(running, echo[0])))
  }

  /** The screen is the window on a paper that reads prompt and line. */
  predicate Shows(prompt: seq<byte>, p: Paper, l: Lines, m: D.Multi) {
    && ValidLines(l) && D.ValidMulti(m) && Lockstep(prompt, p, l, m.shown)
    && D.View(m, m.shown) == Window(p)
  }

  ghost predicate InStep(prompt: seq<byte>, l: Lines, m: D.Multi) {
    exists p :: Shows(prompt, p, l, m)
  }

  /** The character that fills the buffer, which is stored but not shown. */
  predicate Fills(l: Lines, t: int, k: Key)
    requires ValidLines(l) && IsTerminal(t)
  {
    k.Char? && Length(l, t) == BUFFER - 1
  }

  /** A character whose echo scrolls while another terminal's process runs: the scroll goes there. */
  predicate ScrollsElsewhere(l: Lines, m: D.Multi, running: int, k: Key)
    requires ValidLines(l) && D.ValidMulti(m)
  {
    && k.Char? && Length(l, m.shown) < BUFFER - 1 && running != m.shown
    && var v := D.View(m, m.shown); D.NeedsScroll(v, k.c) && !D.AllBlank(D.Stored(v, k.c))
  }

  // ----- keys that are not echoed

  /** The cursor tells how long the line is. */
  lemma SameWindowSameLength(p: Paper, q: Paper)
    requires ValidPaper(p) && ValidPaper(q) && Window(p) == Window(q)
    ensures |p.ink| % COLS == |q.ink| % COLS
  {
  }

  lemma FullBufferOutOfStep(prompt: seq<byte>, p: Paper, l: Lines, m: D.Multi, running: int, k: Key)
    requires Shows(prompt, p, l, m) && IsTerminal(running) && InLine(k) && Fills(l, m.shown, k)
    ensures !InStep(prompt, Type(l, m, running, k).0, Type(l, m, running, k).1)
  {
    var (l', m') := Type(l, m, running, k);
    InsertAppends(l, m.shown, k.c, m.shown);
    forall q | Shows(prompt, q, l', m')
      ensures false
    {
      SameWindowSameLength(p, q);
    }
  }

  lemma Unechoed(prompt: seq<byte>, p: Paper, l: Lines, m: D.Multi, running: int, k: Key)
    requires Shows(prompt, p, l, m) && IsTerminal(running) && InLine(k) && !Fills(l, m.shown, k)
    requires Press(l, m.shown, k).1 == []
    ensures InStep(prompt, Type(l, m, running, k).0, Type(l, m, running, k).1)
  {
    PressKeepsLockstep(prompt, p, l, m.shown, k);
    assert Shows(prompt, p, Type(l, m, running, k).0, m);
  }

  // ----- keys that are

  /** An echo that changes the displayed terminal as if it stood alone. */
  lemma FaithfulEcho(prompt: seq<byte>, p: Paper, l: Lines, m: D.Multi, running: int, k: Key, e: TermEvent)
    requires Shows(prompt, p, l, m) && IsTerminal(running) && InLine(k) && !Fills(l, m.shown, k)
    requires Press(l, m.shown, k).1 == [e]
    requires D.View(D.Step(m, Echoed(running, e)), m.shown) == Apply(Window(p), e)
    ensures InStep(prompt, Type(l, m, running, k).0, Type(l, m, running, k).1)
  {
    PressKeepsLockstep(prompt, p, l, m.shown, k);
    EventOnPaper(p, e);
    assert AllOnPaper(p, [e]) == OnPaper(p, e);
    assert Shows(prompt, OnPaper(p, e), Type(l, m, running, k).0, Type(l, m, running, k).1);
  }

  lemma EchoAlone(m: D.Multi, running: int, e: TermEvent)
    requires D.ValidMulti(m) && IsTerminal(running) && D.Benign(m, Echoed(running, e))
    ensures D.View(D.Step(m, Echoed(running, e)), m.shown) == Apply(D.View(m, m.shown), e)
  {
    D.StepIsShared(m, Echoed(running, e), m.shown);
    assert D.Share(m.shown, Echoed(running, e), m.shown) == [e];
  }

  /** The echo of a character that scrolls the wrong terminal. */
  lemma AstrayEcho(m: D.Multi, running: int, c: byte)
    requires D.ValidMulti(m) && IsTerminal(running) && running != m.shown && D.NeedsScroll(D.View(m, m.shown), c)
    ensures var v := D.View(m, m.shown);
            var after := D.View(D.Step(m, D.Print(running, true, c)), m.shown);
            && after == PutC(v, c).(cells := D.Stored(v, c)) && PutC(v, c).cells == Scroll(D.Stored(v, c))
            && (after == PutC(v, c) <==> D.AllBlank(D.Stored(v, c)))
  {
    D.EchoViews(m, running, c, m.shown);
    D.ScrollFixesBlank(D.Stored(D.View(m, m.shown), c));
  }

  /** After it, no paper with that line is behind the screen. */
  lemma AstrayOutOfStep(prompt: seq<byte>, p: Paper, l: Lines, m: D.Multi, running: int, k: Key)
    requires Shows(prompt, p, l, m) && IsTerminal(running) && InLine(k) && ScrollsElsewhere(l, m, running, k)
    ensures !InStep(prompt, Type(l, m, running, k).0, Type(l, m, running, k).1)
  {
    var (l', m') := Type(l, m, running, k);
    InsertAppends(l, m.shown, k.c, m.shown);
    AstrayEcho(m, running, k.c);
    PutOnPaper(p, k.c);
    forall q | Shows(prompt, q, l', m')
      ensures false
    {
      assert prompt + (Text(l, m.shown) + [k.c]) == p.ink + [k.c];
      LastRow(p, q, k.c);
    }
  }

  /** A paper one character on, seen from the last row, is the one that putc would have made. */
  lemma LastRow(p: Paper, q: Paper, c: byte)
    requires ValidPaper(p) && ValidPaper(q) && q.ink == p.ink + [c] && !IsBreak(c)
    requires D.NeedsScroll(Window(p), c) && Window(q).y == PutC(Window(p), c).y
    ensures q == PaperPut(p, c)
  {
  }

  lemma CharacterExactly(prompt: seq<byte>, p: Paper, l: Lines, m: D.Multi, running: int, k: Key)
    requires Shows(prompt, p, l, m) && IsTerminal(running) && InLine(k) && k.Char? && Length(l, m.shown) < BUFFER - 1
    ensures InStep(prompt, Type(l, m, running, k).0, Type(l, m, running, k).1) <==> !ScrollsElsewhere(l, m, running, k)
  {
    assert Press(l, m.shown, k).1 == [TPut(k.c)];
    if ScrollsElsewhere(l, m, running, k) {
      AstrayOutOfStep(prompt, p, l, m, running, k);
    } else {
      if running != m.shown && D.NeedsScroll(D.View(m, m.shown), k.c) {
        AstrayEcho(m, running, k.c);
      } else {
        EchoAlone(m, running, TPut(k.c));
      }
      FaithfulEcho(prompt, p, l, m, running, k, TPut(k.c));
    }
  }

  /** One key keeps screen and line in step exactly when it does not fill the buffer and its echo does not
      scroll while another terminal's process runs, unless the screen is blank anyway. */
  lemma TypeKeepsStepExactly(prompt: seq<byte>, l: Lines, m: D.Multi, running: int, k: Key)
    requires InStep(prompt, l, m) && IsTerminal(running) && InLine(k)
    ensures ValidLines(l) && D.ValidMulti(m)
    ensures InStep(prompt, Type(l, m, running, k).0, Type(l, m, running, k).1) <==>
            !Fills(l, m.shown, k) && !ScrollsElsewhere(l, m, running, k)
  {
    var p :| Shows(prompt, p, l, m);
    if k.Char? && Length(l, m.shown) < BUFFER - 1 {
      CharacterExactly(prompt, p, l, m, running, k);
    } else if Fills(l, m.shown, k) {
      FullBufferOutOfStep(prompt, p, l, m, running, k);
    } else if Press(l, m.shown, k).1 == [] {
      Unechoed(prompt, p, l, m, running, k);
    } else {
      EchoAlone(m, running, TBackspace);
      FaithfulEcho(prompt, p, l, m, running, k, TBackspace);
    }
  }

  // ----- whole lines

  /** Over any run of the display in which no echo scrolls astray, and of which terminal `t` gets just the echo
      of the keys: its screen shows the prompt and exactly what was typed, and the buffer holds it. */
  lemma LineOnDisplay(prompt: seq<byte>, p: Paper, l: Lines, t: int, keys: seq<Key>, m: D.Multi, events: seq<D.Event>)
    requires ValidLines(l) && IsTerminal(t) && Lockstep(prompt, p, l, t)
    requires (forall i :: 0 <= i < |keys| ==> InLine(keys[i])) && StaysShort(Text(l, t), keys)
    requires D.ValidMulti(m) && D.ValidRun(m, events) && D.View(m, t) == Window(p)
    requires D.Feed(m.shown, events, t) == PressAll(l, t, keys).1
    ensures var (l', echo) := PressAll(l, t, keys);
            && D.View(D.Run(m, events), t) == Window(AllOnPaper(p, echo))
            && Lockstep(prompt, AllOnPaper(p, echo), l', t) && Text(l', t) == Typed(Text(l, t), keys)
  {
    TypedLineIsEchoed(prompt, p, l, t, keys);
    D.ThreeTerminals(m, events, t);
  }

  // ----- how a key goes astray

  function Puts(text: seq<byte>): seq<TermEvent> {
    seq(|text|, i requires 0 <= i < |text| => TPut(text[i]))
  }

  /** Output that stays on the first screen. */
  lemma {:induction false} PutsOnPaper(ink: seq<byte>, text: seq<byte>)
    requires |ink| + |text| < CELLS && forall i :: 0 <= i < |text| ==> !IsBreak(text[i])
    ensures AllOnPaper(Paper(ink, 0), Puts(text)) == Paper(ink + text, 0)
    decreases |text|
  {
    if text == [] {
      assert ink + text == ink;
    } else {
      assert Puts(text)[1..] == Puts(text[1..]) && ink + text == ink + [text[0]] + text[1..];
      PutsOnPaper(ink + [text[0]], text[1..]);
    }
  }

  lemma {:induction false} PrintsFeed(shown: int, t: int, text: seq<byte>, u: int)
    ensures D.Feed(shown, D.Prints(t, text), u) == if u == t then Puts(text) else []
    decreases |text|
  {
    var prints := D.Prints(t, text);
    if text != [] {
      assert prints[1..] == D.Prints(t, text[1..]) && Puts(text) == [TPut(text[0])] + Puts(text[1..]);
      PrintsFeed(shown, t, text[1..], u);
    }
  }

  const VISIT := [D.Switch(2, D.FirstTime), D.Switch(1, D.Existing)]

  /** Terminal 1 is cleared, its process prints `text`, and terminal 2 is visited for the first time. */
  function Prelude(text: seq<byte>): seq<D.Event> {
    [D.Wipe] + (D.Prints(1, text) + VISIT)
  }

  lemma PreludeRuns(m: D.Multi, text: seq<byte>)
    requires D.ValidMulti(m) && m.shown == 1
    ensures D.ValidRun(m, Prelude(text)) && D.Run(m, Prelude(text)).shown == 1
  {
    var wiped := D.Step(m, D.Wipe);
    assert Prelude(text)[1..] == D.Prints(1, text) + VISIT;
    D.PrintsRun(wiped, 1, text);
    var printed := D.Run(wiped, D.Prints(1, text));
    D.VisitRun(printed);
    D.RunConcat(wiped, D.Prints(1, text), VISIT);
  }

  lemma VisitFeed()
    ensures D.Feed(1, VISIT, 1) == []
  {
    assert VISIT[1..] == [D.Switch(1, D.Existing)] && VISIT[1..][1..] == [];
  }

  /** What terminal 1 gets of it. */
  lemma PreludeFeed(text: seq<byte>)
    ensures D.Feed(1, Prelude(text), 1) == [TClear] + Puts(text)
  {
    assert Prelude(text)[1..] == D.Prints(1, text) + VISIT;
    D.PrintsRunShown(1, 1, text);
    D.FeedConcat(1, D.Prints(1, text), VISIT, 1);
    PrintsFeed(1, 1, text, 1);
    VisitFeed();
    assert Puts(text) + [] == Puts(text);
  }

  /** The screen after it: the text, and the cursor behind it. */
  lemma PreludeShows(m: D.Multi, text: seq<byte>)
    requires D.ValidMulti(m) && m.shown == 1 && |text| < CELLS && forall i :: 0 <= i < |text| ==> !IsBreak(text[i])
    ensures D.ValidRun(m, Prelude(text)) && Shows(text, Paper(text, 0), EMPTY, D.Run(m, Prelude(text)))
  {
    PreludeRuns(m, text);
    PreludeFeed(text);
    D.ThreeTerminals(m, Prelude(text), 1);
    ClearedText(D.View(m, 1), text);
    assert text + Text(EMPTY, 1) == text;
  }

  lemma ClearedText(v: Term, text: seq<byte>)
    requires ValidTerm(v) && |text| < CELLS && forall i :: 0 <= i < |text| ==> !IsBreak(text[i])
    ensures ValidPaper(Paper(text, 0)) && ApplyAll(v, [TClear] + Puts(text)) == Window(Paper(text, 0))
  {
    assert ([TClear] + Puts(text))[1..] == Puts(text);
    ClearOnPaper();
    ScreenIsWindow(BLANK_PAPER, Puts(text));
    PutsOnPaper([], text);
    assert [] + text == text;
  }

  function FullText(): (r: seq<byte>)
    ensures |r| == CELLS - 1 && forall i :: 0 <= i < |r| ==> r[i] == 97
  {
    seq<byte>(CELLS - 1, _ => 97)
  }

  /** Whatever memory held: once all cells but the last are written, and the shell of terminal 2 runs, the first
      character typed on terminal 1 puts its screen out of step with the line. */
  lemma KeyGoesAstray(m: D.Multi)
    requires D.ValidMulti(m) && m.shown == 1
    ensures D.ValidRun(m, Prelude(FullText()))
    ensures var r := D.Run(m, Prelude(FullText()));
            && r.shown == 1 && InStep(FullText(), EMPTY, r)
            && var (l', m') := Type(EMPTY, r, 2, Char(98)); !InStep(FullText(), l', m')
  {
    PreludeShows(m, FullText());
    PreludeRuns(m, FullText());
    LastCellAstray(D.Run(m, Prelude(FullText())), FullText());
  }

  lemma LastCellAstray(m: D.Multi, text: seq<byte>)
    requires m.shown == 1 && |text| == CELLS - 1 && text[0] == 97 && Shows(text, Paper(text, 0), EMPTY, m)
    ensures InStep(text, EMPTY, m)
    ensures var (l', m') := Type(EMPTY, m, 2, Char(98)); !InStep(text, l', m')
  {
    var v := D.View(m, 1);
    assert v.x == COLS - 1 && v.y == ROWS - 1;
    assert D.Stored(v, 98)[0] == 97;
    TypeKeepsStepExactly(text, EMPTY, m, 2, Char(98));
  }
}
