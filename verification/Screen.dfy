/** One terminal on its own: a 25 by 80 screen with a cursor, and the unbounded paper it is a window on. */
module Screen {
  import opened Common

  const COLS := 80
  const ROWS := 25
  const CELLS := 2000

  /** Terminals are numbered 1 to 3. */
  predicate IsTerminal(t: int) {
    1 <= t <= 3
  }

  datatype Term = Term(cells: seq<byte>, x: int, y: int)

  predicate ValidTerm(t: Term) {
    |t.cells| == CELLS && 0 <= t.x < COLS && 0 <= t.y < ROWS
  }

  function Blanks(n: nat): (r: seq<byte>)
    ensures |r| == n && forall i :: 0 <= i < n ==> r[i] == SPACE
  {
    seq(n, _ => SPACE)
  }

  predicate IsBreak(c: byte) {
    c == NEWLINE || c == RETURN
  }

  /** Every row moves up by one and a blank row comes in. */
  function Scroll(cells: seq<byte>): (r: seq<byte>)
    requires |cells| == CELLS
    ensures |r| == CELLS
  {
    cells[COLS..] + Blanks(COLS)
  }

  // ----- the screen operations of lib.c, on one terminal

  function PutC(t: Term, c: byte): (r: Term)
    requires ValidTerm(t)
    ensures ValidTerm(r)
  {
    if IsBreak(c) then
      if t.y == ROWS - 1 then Term(Scroll(t.cells), 0, t.y) else Term(t.cells, 0, t.y + 1)
    else
      var written := t.cells[COLS * t.y + t.x := c];
      var x := t.x + 1;
      if t.y == ROWS - 1 && x == COLS then Term(Scroll(written), x % COLS, t.y)
      else Term(written, x % COLS, (t.y + x / COLS) % ROWS)
  }

  function Backspace(t: Term): (r: Term)
    requires ValidTerm(t)
    ensures ValidTerm(r)
  {
    var (x, y) :=
      if t.y > 0 then
        if t.x == 0 then (COLS - 1, t.y - 1) else ((t.x - 1) % COLS, (t.y + (t.x - 1) / COLS) % ROWS)
      else if t.x > 0 then (t.x - 1, t.y) else (t.x, t.y);
    Term(t.cells[COLS * y + x := SPACE], x, y)
  }

  function ClearScreen(): (r: Term)
    ensures ValidTerm(r)
  {
    Term(Blanks(CELLS), 0, 0)
  }

  // ----- paper

  /** Everything written so far, row after row of 80 cells; the cursor stands right behind it and the
      rest of the paper is blank. The screen shows the 25 rows from `top` on. */
  datatype Paper = Paper(ink: seq<byte>, top: nat)

  predicate ValidPaper(p: Paper) {
    COLS * p.top <= |p.ink| < COLS * (p.top + ROWS)
  }

  function Cell(p: Paper, i: nat): byte {
    if i < |p.ink| then p.ink[i] else SPACE
  }

  /** The cells of the 25 rows from `top` on. */
  function Visible(p: Paper): (cells: seq<byte>)
    ensures |cells| == CELLS && forall i :: 0 <= i < CELLS ==> cells[i] == Cell(p, COLS * p.top + i)
  {
    seq<byte>(CELLS, i requires 0 <= i < CELLS => Cell(p, COLS * p.top + i))
  }

  function Window(p: Paper): (t: Term)
    requires ValidPaper(p)
    ensures ValidTerm(t)
  {
    Term(Visible(p), |p.ink| % COLS, |p.ink| / COLS - p.top)
  }

  /** A line break fills the row with blanks. The window follows the cursor down, never up. */
  function PaperPut(p: Paper, c: byte): (r: Paper)
    requires ValidPaper(p)
    ensures ValidPaper(r)
  {
    var ink := p.ink + if IsBreak(c) then Blanks(COLS - |p.ink| % COLS) else [c];
    Paper(ink, if |ink| < COLS * (p.top + ROWS) then p.top else p.top + 1)
  }

  function PaperBackspace(p: Paper): (r: Paper)
    requires ValidPaper(p)
    ensures ValidPaper(r)
  {
    if |p.ink| > COLS * p.top then p.(ink := p.ink[..|p.ink| - 1]) else p
  }

  const BLANK_PAPER := Paper([], 0)

  // ----- the screen is a window on the paper

  /** The in-place scroll is a one-row shift of the window. */
  lemma ScrollShiftsWindow(p: Paper)
    requires |p.ink| <= COLS * (p.top + ROWS)
    ensures Scroll(Visible(p)) == Visible(p.(top := p.top + 1))
  {
  }

  /** Writing behind the ink. */
  lemma WriteCell(p: Paper, c: byte)
    requires ValidPaper(p)
    ensures Visible(p)[|p.ink| - COLS * p.top := c] == Visible(p.(ink := p.ink + [c]))
  {
  }

  lemma BreakOnPaper(p: Paper, c: byte)
    requires ValidPaper(p) && IsBreak(c)
    ensures PutC(Window(p), c) == Window(PaperPut(p, c))
  {
  }

  lemma CharOnPaper(p: Paper, c: byte)
    requires ValidPaper(p) && !IsBreak(c)
    ensures PutC(Window(p), c) == Window(PaperPut(p, c))
  {
    var t := Window(p);
    assert COLS * t.y + t.x == |p.ink| - COLS * p.top;
    WriteCell(p, c);
    if |p.ink| + 1 == COLS * (p.top + ROWS) {
      ScrollShiftsWindow(p.(ink := p.ink + [c]));
    }
  }

  lemma PutOnPaper(p: Paper, c: byte)
    requires ValidPaper(p)
    ensures PutC(Window(p), c) == Window(PaperPut(p, c))
  {
    if IsBreak(c) { BreakOnPaper(p, c); } else { CharOnPaper(p, c); }
  }

  lemma BackspaceOnPaper(p: Paper)
    requires ValidPaper(p)
    ensures Backspace(Window(p)) == Window(PaperBackspace(p))
  {
    var r := Backspace(Window(p));
    var i := COLS * r.y + r.x;
    assert i == |PaperBackspace(p).ink| - COLS * p.top;
    assert Visible(p)[i := SPACE] == Visible(PaperBackspace(p));
  }

  lemma ClearOnPaper()
    ensures ClearScreen() == Window(BLANK_PAPER)
  {
  }

  /** A character and a backspace after it leave the paper as it was, across line wraps and scrolls;
      what the character scrolled away stays away. */
  lemma BackspaceUndoesPut(p: Paper, c: byte)
    requires ValidPaper(p) && !IsBreak(c)
    ensures var top := if |p.ink| + 1 < COLS * (p.top + ROWS) then p.top else p.top + 1;
            ValidPaper(p.(top := top)) && Backspace(PutC(Window(p), c)) == Window(p.(top := top))
  {
    PutOnPaper(p, c);
    BackspaceOnPaper(PaperPut(p, c));
    assert (p.ink + [c])[..|p.ink|] == p.ink;
  }

  /** So the screen itself is restored exactly when the character did not scroll it. */
  lemma ScreenRestoredExactly(p: Paper, c: byte)
    requires ValidPaper(p) && !IsBreak(c)
    ensures Backspace(PutC(Window(p), c)) == Window(p) <==> !(Window(p).y == ROWS - 1 && Window(p).x == COLS - 1)
  {
    BackspaceUndoesPut(p, c);
  }

  /** In the last cell of a screen whose first row is written, the first row is lost. */
  lemma LastCellNotRestored()
    ensures var p := Paper(seq<byte>(CELLS - 1, _ => 97), 0);
            ValidPaper(p) && Backspace(PutC(Window(p), 98)) != Window(p)
  {
    var p := Paper(seq<byte>(CELLS - 1, _ => 97), 0);
    assert ValidPaper(p) && Window(p).y == ROWS - 1 && Window(p).x == COLS - 1;
    ScreenRestoredExactly(p, 98);
  }

  // ----- whole histories of one terminal

  datatype TermEvent = TPut(c: byte) | TBackspace | TClear

  function Apply(t: Term, e: TermEvent): (r: Term)
    requires ValidTerm(t)
    ensures ValidTerm(r)
  {
    match e
    case TPut(c) => PutC(t, c)
    case TBackspace => Backspace(t)
    case TClear => ClearScreen()
  }

  function ApplyAll(t: Term, events: seq<TermEvent>): (r: Term)
    requires ValidTerm(t)
    ensures ValidTerm(r)
    decreases |events|
  {
    if events == [] then t else ApplyAll(Apply(t, events[0]), events[1..])
  }

  function OnPaper(p: Paper, e: TermEvent): (r: Paper)
    requires ValidPaper(p)
    ensures ValidPaper(r)
  {
    match e
    case TPut(c) => PaperPut(p, c)
    case TBackspace => PaperBackspace(p)
    case TClear => BLANK_PAPER
  }

  function AllOnPaper(p: Paper, events: seq<TermEvent>): (r: Paper)
    requires ValidPaper(p)
    ensures ValidPaper(r)
    decreases |events|
  {
    if events == [] then p else AllOnPaper(OnPaper(p, events[0]), events[1..])
  }

  lemma EventOnPaper(p: Paper, e: TermEvent)
    requires ValidPaper(p)
    ensures Apply(Window(p), e) == Window(OnPaper(p, e))
  {
    match e
    case TPut(c) => PutOnPaper(p, c);
    case TBackspace => BackspaceOnPaper(p);
    case TClear => ClearOnPaper();
  }

  /** Any history keeps a screen that is a window on the paper one. A cleared screen is such a window. */
  lemma {:induction false} ScreenIsWindow(p: Paper, events: seq<TermEvent>)
    requires ValidPaper(p)
    ensures ApplyAll(Window(p), events) == Window(AllOnPaper(p, events))
    decreases |events|
  {
    if events != [] {
      EventOnPaper(p, events[0]);
      ScreenIsWindow(OnPaper(p, events[0]), events[1..]);
    }
  }

  /** Every cell at or after the cursor is blank. */
  predicate BlankBehind(t: Term) {
    ValidTerm(t) && forall i :: COLS * t.y + t.x <= i < CELLS ==> t.cells[i] == SPACE
  }

  /** So nothing ever stands at or behind the cursor of a terminal that was once cleared. */
  lemma CursorIsLast(p: Paper, events: seq<TermEvent>)
    requires ValidPaper(p)
    ensures BlankBehind(ApplyAll(Window(p), events)) && BlankBehind(ApplyAll(ClearScreen(), events))
  {
    ScreenIsWindow(p, events);
    ClearOnPaper();
    ScreenIsWindow(BLANK_PAPER, events);
    WindowIsBlankBehind(AllOnPaper(p, events));
    WindowIsBlankBehind(AllOnPaper(BLANK_PAPER, events));
  }

  lemma WindowIsBlankBehind(p: Paper)
    requires ValidPaper(p)
    ensures BlankBehind(Window(p))
  {
  }

  predicate OnlyPuts(events: seq<TermEvent>) {
    forall i :: 0 <= i < |events| ==> events[i].TPut?
  }

  /** The window shows the last rows: as far down as the cursor made it go. */
  predicate ShowsLastRows(p: Paper) {
    p.top == if |p.ink| / COLS < ROWS then 0 else |p.ink| / COLS - (ROWS - 1)
  }

  /** Output alone, from a cleared screen, always leaves the last 25 rows showing. */
  lemma {:induction false} OutputShowsLastRows(p: Paper, events: seq<TermEvent>)
    requires ValidPaper(p) && ShowsLastRows(p) && OnlyPuts(events)
    ensures ShowsLastRows(AllOnPaper(p, events))
    decreases |events|
  {
    if events != [] {
      OutputShowsLastRows(OnPaper(p, events[0]), events[1..]);
    }
  }
}
