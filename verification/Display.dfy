/** Three terminals behind one video buffer: the displayed one lives in video memory, the others in
    their backing pages. */
module Display {
  import opened Common
  import opened Screen

  // ----- as values

  datatype Multi = Multi(video: seq<byte>, pages: seq<seq<byte>>, xs: seq<int>, ys: seq<int>, shown: int)

  predicate ValidMulti(m: Multi) {
    && |m.video| == CELLS && |m.pages| == |m.xs| == |m.ys| == 3 && IsTerminal(m.shown)
    && forall i :: 0 <= i < 3 ==> |m.pages[i]| == CELLS && 0 <= m.xs[i] < COLS && 0 <= m.ys[i] < ROWS
  }

  /** Where terminal `t` keeps its characters. */
  function CellsOf(m: Multi, t: int): seq<byte>
    requires ValidMulti(m) && IsTerminal(t)
  {
    if t == m.shown then m.video else m.pages[t - 1]
  }

  function SetCells(m: Multi, t: int, cells: seq<byte>): (r: Multi)
    requires ValidMulti(m) && IsTerminal(t) && |cells| == CELLS
    ensures ValidMulti(r)
  {
    if t == m.shown then m.(video := cells) else m.(pages := m.pages[t - 1 := cells])
  }

  function SetCursor(m: Multi, t: int, x: int, y: int): (r: Multi)
    requires ValidMulti(m) && IsTerminal(t) && 0 <= x < COLS && 0 <= y < ROWS
    ensures ValidMulti(r)
  {
    m.(xs := m.xs[t - 1 := x], ys := m.ys[t - 1 := y])
  }

  /** Terminal `t` as its user would see it. */
  function View(m: Multi, t: int): (r: Term)
    requires ValidMulti(m) && IsTerminal(t)
    ensures ValidTerm(r)
  {
    Term(CellsOf(m, t), m.xs[t - 1], m.ys[t - 1])
  }

  /** putc writes to the displayed terminal for the keyboard handler (`keyInt`), else to the running
      process's. */
  function Target(m: Multi, running: int, keyInt: bool): int {
    if running == m.shown || keyInt then m.shown else running
  }

  predicate NeedsScroll(t: Term, c: byte) {
    t.y == ROWS - 1 && (IsBreak(c) || t.x == COLS - 1)
  }

  /** The target's characters once `c` is stored. */
  function Stored(t: Term, c: byte): (r: seq<byte>)
    requires ValidTerm(t)
    ensures |r| == CELLS
  {
    if IsBreak(c) then t.cells else t.cells[COLS * t.y + t.x := c]
  }

  /** putc as written: the character and the cursor go to the target, the scroll to the terminal of the
      running process. */
  function Put(m: Multi, running: int, keyInt: bool, c: byte): (r: Multi)
    requires ValidMulti(m) && IsTerminal(running)
    ensures ValidMulti(r)
  {
    var target := Target(m, running, keyInt);
    var t := View(m, target);
    var stored := SetCells(m, target, Stored(t, c));
    var after := PutC(t, c);
    SetCursor(if NeedsScroll(t, c) then SetCells(stored, running, Scroll(CellsOf(stored, running))) else stored,
              target, after.x, after.y)
  }

  datatype ShowMode = Refused | Existing | FirstTime

  /** screenChange to another terminal: the screen is saved first; a first launch that finds no free
      process stops there. */
  function Show(m: Multi, t: int, mode: ShowMode): (r: Multi)
    requires ValidMulti(m) && IsTerminal(t) && t != m.shown
    ensures ValidMulti(r)
  {
    var saved := m.(pages := m.pages[m.shown - 1 := m.video]);
    match mode
    case Refused => saved
    case Existing => saved.(video := saved.pages[t - 1], shown := t)
    case FirstTime => SetCursor(saved.(video := Blanks(CELLS), shown := t), t, 0, 0)
  }

  function SetView(m: Multi, t: int, v: Term): (r: Multi)
    requires ValidMulti(m) && IsTerminal(t) && ValidTerm(v)
    ensures ValidMulti(r)
  {
    SetCursor(SetCells(m, t, v.cells), t, v.x, v.y)
  }

  // ----- one event

  datatype Event =
    | Print(running: int, keyInt: bool, c: byte)
    | Erase
    | Wipe
    | Switch(terminal: int, mode: ShowMode)

  predicate ValidEvent(shown: int, e: Event) {
    match e
    case Print(running, _, _) => IsTerminal(running)
    case Switch(t, _) => IsTerminal(t) && t != shown
    case _ => true
  }

  function ShownAfter(shown: int, e: Event): int {
    if e.Switch? && !e.mode.Refused? then e.terminal else shown
  }

  function Step(m: Multi, e: Event): (r: Multi)
    requires ValidMulti(m) && ValidEvent(m.shown, e)
    ensures ValidMulti(r) && r.shown == ShownAfter(m.shown, e)
  {
    match e
    case Print(running, keyInt, c) => Put(m, running, keyInt, c)
    case Erase => SetView(m, m.shown, Backspace(View(m, m.shown)))
    case Wipe => SetView(m, m.shown, ClearScreen())
    case Switch(t, mode) => Show(m, t, mode)
  }

  /** What an event means for terminal `t`, if anything. */
  function Share(shown: int, e: Event, t: int): seq<TermEvent> {
    match e
    case Print(running, keyInt, c) => if t == (if keyInt then shown else running) then [TPut(c)] else []
    case Erase => if t == shown then [TBackspace] else []
    case Wipe => if t == shown then [TClear] else []
    case Switch(u, mode) => if t == u && mode.FirstTime? then [TClear] else []
  }

  /** The echo of a key while a process of another terminal runs. */
  predicate Misdirected(shown: int, e: Event) {
    e.Print? && e.keyInt && e.running != shown
  }

  /** An echo is harmless as long as it does not scroll. */
  predicate Benign(m: Multi, e: Event)
    requires ValidMulti(m)
  {
    Misdirected(m.shown, e) ==> !NeedsScroll(View(m, m.shown), e.c)
  }

  lemma PutIsLocal(m: Multi, running: int, keyInt: bool, c: byte)
    requires ValidMulti(m) && IsTerminal(running)
    requires Benign(m, Print(running, keyInt, c))
    ensures var target := Target(m, running, keyInt);
            Put(m, running, keyInt, c) == SetView(m, target, PutC(View(m, target), c))
  {
  }

  /** Away from misdirected scrolls, an event changes each terminal exactly as if it stood alone. */
  lemma StepIsShared(m: Multi, e: Event, t: int)
    requires ValidMulti(m) && ValidEvent(m.shown, e) && IsTerminal(t) && Benign(m, e)
    ensures View(Step(m, e), t) == ApplyAll(View(m, t), Share(m.shown, e, t))
  {
    if e.Print? {
      PutIsLocal(m, e.running, e.keyInt, e.c);
    }
  }

  // ----- where an event goes

  /** Output goes to the terminal of the running process, an echo, as long as it does not scroll for a foreign process,
      and a backspace or clear to the displayed one, a first launch clears the new one; every other terminal stays. */
  lemma WhereEventsGo(m: Multi, e: Event, t: int)
    requires ValidMulti(m) && ValidEvent(m.shown, e) && IsTerminal(t) && Benign(m, e)
    ensures View(Step(m, e), t) ==
            match e
            case Print(running, keyInt, c) =>
              if t == (if keyInt then m.shown else running) then PutC(View(m, t), c) else View(m, t)
            case Erase => if t == m.shown then Backspace(View(m, t)) else View(m, t)
            case Wipe => if t == m.shown then ClearScreen() else View(m, t)
            case Switch(u, mode) => if t == u && mode == FirstTime then ClearScreen() else View(m, t)
  {
    StepIsShared(m, e, t);
  }

  /** What lies where: the displayed terminal in video memory, the others in their pages; a switch saves the screen and
      brings the other one in. */
  lemma WhereScreensLie(m: Multi, t: int, mode: ShowMode)
    requires ValidMulti(m) && IsTerminal(t)
    ensures View(m, t).cells == if t == m.shown then m.video else m.pages[t - 1]
    ensures t != m.shown ==>
      var r := Show(m, t, mode);
      && r.pages == m.pages[m.shown - 1 := m.video]
      && (mode == Refused ==> r.video == m.video && r.shown == m.shown)
      && (mode == Existing ==> r.video == m.pages[t - 1] && r.shown == t)
      && (mode == FirstTime ==> AllBlank(r.video) && r.shown == t)
  {
  }

  // ----- whole runs

  predicate ValidRun(m: Multi, events: seq<Event>)
    requires ValidMulti(m)
    decreases |events|
  {
    events != [] ==>
      ValidEvent(m.shown, events[0]) && Benign(m, events[0]) && ValidRun(Step(m, events[0]), events[1..])
  }

  function Run(m: Multi, events: seq<Event>): (r: Multi)
    requires ValidMulti(m) && ValidRun(m, events)
    ensures ValidMulti(r)
    decreases |events|
  {
    if events == [] then m else Run(Step(m, events[0]), events[1..])
  }

  lemma RunOne(m: Multi, e: Event)
    requires ValidMulti(m) && ValidEvent(m.shown, e) && Benign(m, e)
    ensures ValidRun(m, [e]) && Run(m, [e]) == Step(m, e)
  {
    assert [e][1..] == [];
  }

  lemma {:induction false} RunConcat(m: Multi, a: seq<Event>, b: seq<Event>)
    requires ValidMulti(m) && ValidRun(m, a) && ValidRun(Run(m, a), b)
    ensures ValidRun(m, a + b) && Run(m, a + b) == Run(Run(m, a), b)
    decreases |a|
  {
    if a == [] {
      assert a + b == b;
    } else {
      assert (a + b)[0] == a[0] && (a + b)[1..] == a[1..] + b;
      RunConcat(Step(m, a[0]), a[1..], b);
    }
  }

  /** Terminal `t`'s own events, in order. */
  function Feed(shown: int, events: seq<Event>, t: int): seq<TermEvent>
    decreases |events|
  {
    if events == [] then [] else Share(shown, events[0], t) + Feed(ShownAfter(shown, events[0]), events[1..], t)
  }

  function ShownAfterAll(shown: int, events: seq<Event>): int
    decreases |events|
  {
    if events == [] then shown else ShownAfterAll(ShownAfter(shown, events[0]), events[1..])
  }

  lemma {:induction false} FeedConcat(shown: int, a: seq<Event>, b: seq<Event>, t: int)
    ensures Feed(shown, a + b, t) == Feed(shown, a, t) + Feed(ShownAfterAll(shown, a), b, t)
    decreases |a|
  {
    if a == [] {
      assert a + b == b;
    } else {
      assert (a + b)[0] == a[0] && (a + b)[1..] == a[1..] + b;
      FeedConcat(ShownAfter(shown, a[0]), a[1..], b, t);
    }
  }

  /** Output of a process of terminal `running`. */
  function Prints(running: int, text: seq<byte>): seq<Event> {
    seq(|text|, i requires 0 <= i < |text| => Print(running, false, text[i]))
  }

  lemma {:induction false} PrintsRun(m: Multi, running: int, text: seq<byte>)
    requires ValidMulti(m) && IsTerminal(running)
    ensures ValidRun(m, Prints(running, text)) && Run(m, Prints(running, text)).shown == m.shown
    decreases |text|
  {
    var prints := Prints(running, text);
    if text != [] {
      assert prints[1..] == Prints(running, text[1..]);
      PrintsRun(Step(m, prints[0]), running, text[1..]);
    }
  }

  lemma {:induction false} PrintsRunShown(shown: int, running: int, text: seq<byte>)
    ensures ShownAfterAll(shown, Prints(running, text)) == shown
    decreases |text|
  {
    var prints := Prints(running, text);
    if text != [] {
      assert prints[1..] == Prints(running, text[1..]);
      PrintsRunShown(shown, running, text[1..]);
    }
  }

  lemma {:induction false} ApplyConcat(v: Term, a: seq<TermEvent>, b: seq<TermEvent>)
    requires ValidTerm(v)
    ensures ApplyAll(v, a + b) == ApplyAll(ApplyAll(v, a), b)
    decreases |a|
  {
    if a == [] {
      assert a + b == b;
    } else {
      assert (a + b)[0] == a[0] && (a + b)[1..] == a[1..] + b;
      ApplyConcat(Apply(v, a[0]), a[1..], b);
    }
  }

  /** Over any interleaving, each terminal shows what a terminal of its own, fed only its own events,
      would show. */
  lemma {:induction false} ThreeTerminals(m: Multi, events: seq<Event>, t: int)
    requires ValidMulti(m) && ValidRun(m, events) && IsTerminal(t)
    ensures View(Run(m, events), t) == ApplyAll(View(m, t), Feed(m.shown, events, t))
    decreases |events|
  {
    if events != [] {
      StepIsShared(m, events[0], t);
      ThreeTerminals(Step(m, events[0]), events[1..], t);
      ApplyConcat(View(m, t), Share(m.shown, events[0], t), Feed(ShownAfter(m.shown, events[0]), events[1..], t));
    }
  }

  /** From its first launch on, a terminal is a window on its own paper, whatever the others do. */
  lemma LaunchedIsPaper(m: Multi, t: int, events: seq<Event>)
    requires ValidMulti(m) && IsTerminal(t) && t != m.shown && ValidRun(Show(m, t, FirstTime), events)
    ensures View(Run(Show(m, t, FirstTime), events), t) == Window(AllOnPaper(BLANK_PAPER, Feed(t, events, t)))
  {
    var launched := Show(m, t, FirstTime);
    ThreeTerminals(launched, events, t);
    ClearOnPaper();
    assert View(launched, t) == ClearScreen();
    ScreenIsWindow(BLANK_PAPER, Feed(t, events, t));
  }

  // ----- exactly when an echo is faithful

  predicate AllBlank(cells: seq<byte>) {
    forall i :: 0 <= i < |cells| ==> cells[i] == SPACE
  }

  lemma {:induction false} ScrolledIsBlank(cells: seq<byte>, i: int)
    requires |cells| == CELLS && Scroll(cells) == cells && 0 <= i < CELLS
    ensures cells[i] == SPACE
    decreases CELLS - i
  {
    assert cells[i] == Scroll(cells)[i];
    if i < CELLS - COLS {
      ScrolledIsBlank(cells, i + COLS);
    }
  }

  /** Only a blank screen is left alone by a scroll. */
  lemma ScrollFixesBlank(cells: seq<byte>)
    requires |cells| == CELLS
    ensures Scroll(cells) == cells <==> AllBlank(cells)
  {
    if Scroll(cells) == cells {
      forall i | 0 <= i < CELLS
        ensures cells[i] == SPACE
      {
        ScrolledIsBlank(cells, i);
      }
    }
  }

  ghost predicate Faithful(m: Multi, e: Event)
    requires ValidMulti(m) && ValidEvent(m.shown, e)
  {
    forall t :: IsTerminal(t) ==> View(Step(m, e), t) == ApplyAll(View(m, t), Share(m.shown, e, t))
  }

  /** What terminal `t` shows after an echo while a process of another terminal runs. */
  function EchoView(m: Multi, running: int, c: byte, t: int): Term
    requires ValidMulti(m) && IsTerminal(running) && running != m.shown && IsTerminal(t)
  {
    var v := View(m, m.shown);
    if t == m.shown then PutC(v, c).(cells := Stored(v, c))
    else if t == running && NeedsScroll(v, c) then View(m, t).(cells := Scroll(CellsOf(m, t)))
    else View(m, t)
  }

  lemma EchoViews(m: Multi, running: int, c: byte, t: int)
    requires ValidMulti(m) && IsTerminal(running) && running != m.shown && IsTerminal(t)
    ensures View(Put(m, running, true, c), t) == EchoView(m, running, c, t)
  {
  }

  /** Echoing a key while another terminal's process runs is right exactly when it does not scroll the
      screen, or when the other terminal and the screen are blank anyway. */
  lemma EchoFaithfulExactly(m: Multi, running: int, c: byte)
    requires ValidMulti(m) && IsTerminal(running) && running != m.shown
    ensures Faithful(m, Print(running, true, c)) <==>
            (NeedsScroll(View(m, m.shown), c) ==>
               AllBlank(CellsOf(m, running)) && AllBlank(Stored(View(m, m.shown), c)))
  {
    var e := Print(running, true, c);
    var v := View(m, m.shown);
    ScrollFixesBlank(CellsOf(m, running));
    ScrollFixesBlank(Stored(v, c));
    forall t | IsTerminal(t)
      ensures View(Step(m, e), t) == EchoView(m, running, c, t)
      ensures ApplyAll(View(m, t), Share(m.shown, e, t)) == if t == m.shown then PutC(v, c) else View(m, t)
    {
      EchoViews(m, running, c, t);
    }
    assert PutC(v, c).cells == if NeedsScroll(v, c) then Scroll(Stored(v, c)) else Stored(v, c);
    assert Faithful(m, e) <==> EchoView(m, running, c, m.shown) == PutC(v, c) &&
                               EchoView(m, running, c, running) == View(m, running);
  }

  // ----- how an echo goes astray

  function Enters(n: nat): seq<Event> {
    seq(n, _ => Print(2, true, NEWLINE))
  }

  /** A letter from terminal 2's process, a cleared screen, and Enter `n` times. */
  function Letter(n: nat): seq<Event> {
    [Print(2, false, 65)] + ([Wipe] + Enters(n))
  }

  /** Terminal 2 is launched and left again first. */
  function Prelude(n: nat): seq<Event> {
    [Switch(2, FirstTime)] + ([Switch(1, Existing)] + Letter(n))
  }

  /** As long as there are rows left, Enter moves the cursor down and changes nothing else. */
  lemma {:induction false} EntersRun(m: Multi, n: nat)
    requires ValidMulti(m) && m.shown == 1 && m.ys[0] + n <= ROWS - 1
    ensures ValidRun(m, Enters(n))
    ensures var r := Run(m, Enters(n));
            r.shown == 1 && r.ys[0] == m.ys[0] + n && r.pages == m.pages
    decreases n
  {
    if n > 0 {
      assert Enters(n)[1..] == Enters(n - 1);
      PutBreaks(m, 2, true, NEWLINE);
      EntersRun(BreakLine(m, 2, 1), n - 1);
    }
  }

  /** Whatever memory held before, the prelude is a run of faithful events, and the next Enter scrolls the
      wrong screen. */
  lemma EchoGoesAstray(m: Multi)
    requires ValidMulti(m) && m.shown == 1
    ensures ValidRun(m, Prelude(ROWS - 1))
    ensures var r := Run(m, Prelude(ROWS - 1));
            r.shown == 1 && !Faithful(r, Print(2, true, NEWLINE))
  {
    var visit := [Switch(2, FirstTime), Switch(1, Existing)];
    var letter := [Print(2, false, 65), Wipe];
    VisitRun(m);
    var back := Run(m, visit);
    LetterRun(back);
    EntersRun(Run(back, letter), ROWS - 1);
    RunConcat(back, letter, Enters(ROWS - 1));
    assert letter + Enters(ROWS - 1) == Letter(ROWS - 1) && visit + Letter(ROWS - 1) == Prelude(ROWS - 1);
    RunConcat(m, visit, Letter(ROWS - 1));
    EchoFaithfulExactly(Run(m, Prelude(ROWS - 1)), 2, NEWLINE);
  }

  /** Terminal 2 is visited for the first time. */
  lemma VisitRun(m: Multi)
    requires ValidMulti(m) && m.shown == 1
    ensures var visit := [Switch(2, FirstTime), Switch(1, Existing)];
            && ValidRun(m, visit)
            && var r := Run(m, visit);
            r.shown == 1 && r.xs[1] == r.ys[1] == 0
  {
    var visit := [Switch(2, FirstTime), Switch(1, Existing)];
    assert visit[1..] == [Switch(1, Existing)] && visit[1..][1..] == [];
  }

  lemma LetterRun(m: Multi)
    requires ValidMulti(m) && m.shown == 1 && m.xs[1] == m.ys[1] == 0
    ensures var letter := [Print(2, false, 65), Wipe];
            && ValidRun(m, letter)
            && var r := Run(m, letter);
            r.shown == 1 && r.ys[0] == 0 && r.pages[1][0] == 65
  {
    var letter := [Print(2, false, 65), Wipe];
    assert letter[1..] == [Wipe] && letter[1..][1..] == [];
    PutStores(m, 2, false, 65);
  }

  // ----- in memory

  function BreakLine(m: Multi, running: int, t: int): (r: Multi)
    requires ValidMulti(m) && IsTerminal(running) && IsTerminal(t)
  {
    if m.ys[t - 1] == ROWS - 1
    then SetCursor(SetCells(m, running, Scroll(CellsOf(m, running))), t, 0, ROWS - 1)
    else SetCursor(m, t, 0, m.ys[t - 1] + 1)
  }

  function StoreChar(m: Multi, running: int, t: int, c: byte): (r: Multi)
    requires ValidMulti(m) && IsTerminal(running) && IsTerminal(t)
  {
    var x, y := m.xs[t - 1], m.ys[t - 1];
    var stored := SetCells(m, t, CellsOf(m, t)[COLS * y + x := c]);
    if y == ROWS - 1 && x + 1 == COLS
    then SetCursor(SetCells(stored, running, Scroll(CellsOf(stored, running))), t, (x + 1) % COLS, y)
    else SetCursor(stored, t, (x + 1) % COLS, (y + (x + 1) / COLS) % ROWS)
  }

  lemma PutBreaks(m: Multi, running: int, keyInt: bool, c: byte)
    requires ValidMulti(m) && IsTerminal(running) && IsBreak(c)
    ensures Put(m, running, keyInt, c) == BreakLine(m, running, Target(m, running, keyInt))
  {
    var t := Target(m, running, keyInt);
    assert SetCells(m, t, CellsOf(m, t)) == m;
  }

  lemma PutStores(m: Multi, running: int, keyInt: bool, c: byte)
    requires ValidMulti(m) && IsTerminal(running) && !IsBreak(c)
    ensures Put(m, running, keyInt, c) == StoreChar(m, running, Target(m, running, keyInt), c)
  {
  }

  /** Shift an array of cells up by one row, in place. */
  method ScrollInPlace(a: array<byte>)
    requires a.Length == CELLS
    modifies a
    ensures a[..] == Scroll(old(a[..]))
  {
    var i := 0;
    while i < (ROWS - 1) * COLS
      invariant 0 <= i <= (ROWS - 1) * COLS
      invariant forall j :: 0 <= j < i ==> a[j] == old(a[j + COLS])
      invariant forall j :: i <= j < CELLS ==> a[j] == old(a[j])
    {
      a[i] := a[i + COLS];
      i := i + 1;
    }
    while i < CELLS
      invariant (ROWS - 1) * COLS <= i <= CELLS
      invariant forall j :: 0 <= j < (ROWS - 1) * COLS ==> a[j] == old(a[j + COLS])
      invariant forall j :: (ROWS - 1) * COLS <= j < i ==> a[j] == SPACE
    {
      a[i] := SPACE;
      i := i + 1;
    }
  }

  method CopyCells(from: array<byte>, to: array<byte>)
    requires from.Length == to.Length == CELLS && from != to
    modifies to
    ensures to[..] == from[..]
  {
    for i := 0 to CELLS
      invariant forall j :: 0 <= j < i ==> to[j] == from[j]
    {
      to[i] := from[i];
    }
  }

  method FillBlank(a: array<byte>)
    requires a.Length == CELLS
    modifies a
    ensures a[..] == Blanks(CELLS)
  {
    for i := 0 to CELLS
      invariant forall j :: 0 <= j < i ==> a[j] == SPACE
    {
      a[i] := SPACE;
    }
  }

  /** Video memory, the three backing pages and the cursors. */
  class VideoMemory {
    const video: array<byte>
    const page1: array<byte>
    const page2: array<byte>
    const page3: array<byte>
    var xs: seq<int>
    var ys: seq<int>
    var shown: int

    /** Memory as found at boot, terminal 1 displayed. */
    constructor (found: byte)
      ensures Valid() && shown == 1 && fresh(video) && fresh(page1) && fresh(page2) && fresh(page3)
    {
      video := new byte[CELLS](i => found);
      page1 := new byte[CELLS](i => found);
      page2 := new byte[CELLS](i => found);
      page3 := new byte[CELLS](i => found);
      xs, ys, shown := [0, 0, 0], [0, 0, 0], 1;
    }

    predicate Apart() {
      && video.Length == page1.Length == page2.Length == page3.Length == CELLS
      && video != page1 && video != page2 && video != page3
      && page1 != page2 && page1 != page3 && page2 != page3
    }

    function Value(): Multi
      reads this, video, page1, page2, page3
    {
      Multi(video[..], [page1[..], page2[..], page3[..]], xs, ys, shown)
    }

    predicate Valid()
      reads this, video, page1, page2, page3
    {
      Apart() && ValidMulti(Value())
    }

    /** Where terminal `t` keeps its characters. */
    function Buffer(t: int): array<byte>
      requires IsTerminal(t)
      reads this
    {
      if t == shown then video else if t == 1 then page1 else if t == 2 then page2 else page3
    }

    /** tScroll: whatever its argument, the buffer of the running process's terminal moves. */
    method TScroll(running: int)
      requires Valid() && IsTerminal(running)
      modifies video, page1, page2, page3
      ensures Valid() && Value() == SetCells(old(Value()), running, Scroll(CellsOf(old(Value()), running)))
    {
      ScrollInPlace(Buffer(running));
    }

    method Store(t: int, i: int, c: byte)
      requires Valid() && IsTerminal(t) && 0 <= i < CELLS
      modifies video, page1, page2, page3
      ensures Valid() && Value() == SetCells(old(Value()), t, CellsOf(old(Value()), t)[i := c])
    {
      Buffer(t)[i] := c;
    }

    method MoveTo(t: int, x: int, y: int)
      requires Valid() && IsTerminal(t) && 0 <= x < COLS && 0 <= y < ROWS
      modifies this`xs, this`ys
      ensures Valid() && Value() == SetCursor(old(Value()), t, x, y)
    {
      xs := xs[t - 1 := x];
      ys := ys[t - 1 := y];
    }

    method PutBreak(running: int, t: int)
      requires Valid() && IsTerminal(running) && IsTerminal(t)
      modifies this`xs, this`ys, video, page1, page2, page3
      ensures Valid() && Value() == BreakLine(old(Value()), running, t)
    {
      if ys[t - 1] == ROWS - 1 {
        TScroll(running);
        MoveTo(t, 0, ROWS - 1);
      } else {
        MoveTo(t, 0, ys[t - 1] + 1);
      }
    }

    method PutChar(running: int, t: int, c: byte)
      requires Valid() && IsTerminal(running) && IsTerminal(t)
      modifies this`xs, this`ys, video, page1, page2, page3
      ensures Valid() && Value() == StoreChar(old(Value()), running, t, c)
    {
      ghost var m := Value();
      var x, y := xs[t - 1], ys[t - 1];
      Store(t, COLS * y + x, c);
      assert Value().xs == m.xs && Value().ys == m.ys;
      x := x + 1;
      if y == ROWS - 1 && x == COLS {
        TScroll(running);
      } else {
        y := (y + x / COLS) % ROWS;
      }
      MoveTo(t, x % COLS, y);
    }

    /** putc; the two copies of the code differ only in the buffer they write. */
    method PutC(running: int, keyInt: bool, c: byte)
      requires Valid() && IsTerminal(running)
      modifies this`xs, this`ys, video, page1, page2, page3
      ensures Valid() && Value() == Put(old(Value()), running, keyInt, c)
    {
      var t := if running == shown || keyInt then shown else running;
      if c == NEWLINE || c == RETURN {
        PutBreaks(Value(), running, keyInt, c);
        PutBreak(running, t);
      } else {
        PutStores(Value(), running, keyInt, c);
        PutChar(running, t, c);
      }
    }

    /** backspace, on the displayed terminal. */
    method EraseLast()
      requires Valid()
      modifies this`xs, this`ys, video, page1, page2, page3
      ensures Valid() && Value() == Step(old(Value()), Erase)
    {
      ghost var m := Value();
      var x, y := xs[shown - 1], ys[shown - 1];
      if y > 0 {
        if x == 0 {
          x, y := COLS - 1, y - 1;
        } else {
          x := (x - 1) % COLS;
          y := (y + x / COLS) % ROWS;
        }
      } else if x > 0 {
        x := x - 1;
      }
      assert Backspace(View(m, shown)) == Term(m.video[COLS * y + x := SPACE], x, y);
      MoveTo(shown, x, y);
      Store(shown, COLS * y + x, SPACE);
    }

    method Clear()
      requires Valid()
      modifies this`xs, this`ys, video
      ensures Valid() && Value() == Step(old(Value()), Wipe)
    {
      FillBlank(video);
      MoveTo(shown, 0, 0);
    }

    /** screenChange's first half: keep the displayed screen in its backing page. */
    method SaveScreen()
      requires Valid()
      modifies page1, page2, page3
      ensures Valid() && Value() == old(Value()).(pages := old(Value()).pages[shown - 1 := video[..]])
    {
      CopyCells(video, if shown == 1 then page1 else if shown == 2 then page2 else page3);
    }

    /** screenChange to a terminal that is not displayed. */
    method ScreenChange(t: int, mode: ShowMode)
      requires Valid() && IsTerminal(t) && t != shown
      modifies this, video, page1, page2, page3
      ensures Valid() && Value() == Step(old(Value()), Switch(t, mode))
    {
      SaveScreen();
      if mode == Refused { return; }
      if mode == FirstTime {
        shown := t;
        Clear();
        return;
      }
      CopyCells(if t == 1 then page1 else if t == 2 then page2 else page3, video);
      shown := t;
    }
  }
}
