/** The line buffers of the three terminals and the keyboard echo that goes with them. */
module LineEditor {
  import opened Common
  import opened Strings
  import opened Screen

  const BUFFER := 128

  /** The three buffers one after the other, behind the byte that happens to precede them in memory;
      `idx` holds the three line lengths. */
  datatype Lines = Lines(mem: seq<byte>, idx: seq<int>)

  predicate ValidLines(l: Lines) {
    |l.mem| == 1 + 3 * BUFFER && |l.idx| == 3 && forall i :: 0 <= i < 3 ==> 0 <= l.idx[i] <= BUFFER
  }

  /** Where terminal `t`'s buffer starts. */
  function Start(t: int): int {
    1 + (t - 1) * BUFFER
  }

  function Length(l: Lines, t: int): int
    requires ValidLines(l) && IsTerminal(t)
  {
    l.idx[t - 1]
  }

  /** The line typed so far on terminal `t`. */
  function Text(l: Lines, t: int): seq<byte>
    requires ValidLines(l) && IsTerminal(t)
  {
    l.mem[Start(t)..Start(t) + Length(l, t)]
  }

  /** The rest of the buffer is zero. */
  predicate ZeroTail(l: Lines, t: int)
    requires ValidLines(l) && IsTerminal(t)
  {
    forall j :: Start(t) + Length(l, t) <= j < Start(t) + BUFFER ==> l.mem[j] == NUL
  }

  /** The buffers at boot. */
  const EMPTY := Lines(seq<byte>(1 + 3 * BUFFER, _ => NUL), [0, 0, 0])

  // ----- insert, backspacebuf, clearbuf

  function Insert(l: Lines, t: int, c: byte): (r: (Lines, int))
    requires ValidLines(l) && IsTerminal(t)
    ensures ValidLines(r.0)
  {
    var n := Length(l, t);
    if n > BUFFER - 1 then (l, n)
    else (Lines(l.mem[Start(t) + n := c], l.idx[t - 1 := n + 1]), n + 1)
  }

  /** The cell before the cursor is zeroed before the length is tested: on an empty line that cell
      belongs to the terminal before, or to nobody. */
  function DropLast(l: Lines, t: int): (r: (Lines, int))
    requires ValidLines(l) && IsTerminal(t)
    ensures ValidLines(r.0)
  {
    var n := Length(l, t);
    var mem := l.mem[Start(t) + n - 1 := NUL];
    if n > 0 then (Lines(mem, l.idx[t - 1 := n - 1]), n - 1) else (l.(mem := mem), -1)
  }

  lemma InsertAppends(l: Lines, t: int, c: byte, u: int)
    requires ValidLines(l) && IsTerminal(t) && IsTerminal(u)
    ensures var (l', r) := Insert(l, t, c);
            && r == Length(l', t) && (ZeroTail(l, u) ==> ZeroTail(l', u))
            && Text(l', u) == if u == t && Length(l, t) < BUFFER then Text(l, t) + [c] else Text(l, u)
  {
  }

  /** Backspace drops the last character, and returns -1 on an empty line. It changes another
      terminal's line exactly when the line is empty and the terminal before has a full one. */
  lemma DropLastDrops(l: Lines, t: int, u: int)
    requires ValidLines(l) && IsTerminal(t) && IsTerminal(u)
    ensures var (l', r) := DropLast(l, t);
            && (ZeroTail(l, u) ==> ZeroTail(l', u))
            && (Length(l, t) > 0 ==> r == Length(l', t) && Text(l', t) == Text(l, t)[..Length(l, t) - 1])
            && (Length(l, t) == 0 ==> r == -1 && Text(l', t) == Text(l, t))
            && (u != t ==>
                  (Text(l', u) == Text(l, u) <==>
                   !(Length(l, t) == 0 && u == t - 1 && Length(l, u) == BUFFER && Text(l, u)[BUFFER - 1] != NUL)))
  {
    var l' := DropLast(l, t).0;
    assert Length(l, t) > 0 ==> Text(l', t) == Text(l, t)[..Length(l, t) - 1];
    assert Length(l, t) == 0 ==> Text(l', t) == Text(l, t);
    if u != t {
      if Length(l, t) == 0 && u == t - 1 && Length(l, u) == BUFFER {
        assert Text(l', u)[BUFFER - 1] == NUL;
        assert Text(l', u) == Text(l, u)[BUFFER - 1 := NUL];
      } else {
        assert Text(l', u) == Text(l, u);
      }
    }
  }

  /** clearbuf on terminal `t`. */
  function ClearLine(l: Lines, t: int): (r: Lines)
    requires ValidLines(l) && IsTerminal(t)
    ensures ValidLines(r)
  {
    Lines(l.mem[..Start(t)] + seq<byte>(BUFFER, _ => NUL) + l.mem[Start(t) + BUFFER..], l.idx[t - 1 := 0])
  }

  lemma ClearLineClears(l: Lines, t: int, u: int)
    requires ValidLines(l) && IsTerminal(t) && IsTerminal(u)
    ensures Text(ClearLine(l, t), u) == if u == t then [] else Text(l, u)
    ensures ZeroTail(l, u) || u == t ==> ZeroTail(ClearLine(l, t), u)
  {
  }

  // ----- keys and their echo

  datatype Key = Char(c: byte) | Bksp

  /** Keys that stay on the line. */
  predicate InLine(k: Key) {
    k.Char? ==> !IsBreak(k.c)
  }

  /** What the keyboard handler does with a key: the new buffers, and what it sends to the screen. */
  function Press(l: Lines, t: int, k: Key): (r: (Lines, seq<TermEvent>))
    requires ValidLines(l) && IsTerminal(t)
    ensures ValidLines(r.0) && |r.1| <= 1
  {
    match k
    case Char(c) =>
      var (l', n) := Insert(l, t, c);
      (l', if n < BUFFER then [TPut(c)] else [])
    case Bksp =>
      var (l', n) := DropLast(l, t);
      (l', if n > -1 then [TBackspace] else [])
  }

  /** The paper reads prompt, then line, and the cursor stands behind it; nothing of the line has
      scrolled off the screen. */
  predicate Lockstep(prompt: seq<byte>, p: Paper, l: Lines, t: int)
    requires ValidLines(l) && IsTerminal(t)
  {
    ValidPaper(p) && p.ink == prompt + Text(l, t) && COLS * p.top <= |prompt| && ZeroTail(l, t)
  }

  /** One key keeps screen and buffer in step, except the one that fills the buffer: the 128th
      character is stored but not shown. */
  lemma PressKeepsLockstep(prompt: seq<byte>, p: Paper, l: Lines, t: int, k: Key)
    requires ValidLines(l) && IsTerminal(t) && InLine(k) && Lockstep(prompt, p, l, t)
    ensures var (l', echo) := Press(l, t, k);
            Lockstep(prompt, AllOnPaper(p, echo), l', t) <==> !(k.Char? && Length(l, t) == BUFFER - 1)
  {
    var (l', echo) := Press(l, t, k);
    match k
    case Char(c) =>
      InsertAppends(l, t, c, t);
      assert prompt + Text(l, t) + [c] == prompt + (Text(l, t) + [c]);
      if Length(l, t) == BUFFER - 1 {
        assert |prompt + Text(l', t)| != |p.ink|;
      } else if Length(l, t) < BUFFER - 1 {
        assert AllOnPaper(p, echo) == PaperPut(p, c);
      }
    case Bksp =>
      DropLastDrops(l, t, t);
      if Length(l, t) > 0 {
        assert AllOnPaper(p, echo) == PaperBackspace(p);
        assert (prompt + Text(l, t))[..|prompt| + Length(l, t) - 1] == prompt + Text(l, t)[..Length(l, t) - 1];
      }
  }

  /** Ctrl-L clears the displayed screen, but the line of the terminal whose process runs: screen and
      line agree afterwards exactly when that is the displayed one, or the displayed line was empty. */
  lemma ClearKeyExactly(l: Lines, shown: int, running: int)
    requires ValidLines(l) && IsTerminal(shown) && IsTerminal(running) && ZeroTail(l, shown)
    ensures Lockstep([], OnPaper(BLANK_PAPER, TClear), ClearLine(l, running), shown) <==>
            running == shown || Text(l, shown) == []
  {
    ClearLineClears(l, running, shown);
  }

  // ----- whole lines

  /** What a user means by a key. */
  function Edit(line: seq<byte>, k: Key): seq<byte> {
    match k
    case Char(c) => line + [c]
    case Bksp => if line == [] then [] else line[..|line| - 1]
  }

  /** The line a user means by a sequence of keys. */
  function Typed(line: seq<byte>, keys: seq<Key>): seq<byte>
    decreases |keys|
  {
    if keys == [] then line else Typed(Edit(line, keys[0]), keys[1..])
  }

  /** At no point is the line 128 characters long. */
  predicate StaysShort(line: seq<byte>, keys: seq<Key>)
    decreases |keys|
  {
    |line| < BUFFER && (keys != [] ==> StaysShort(Edit(line, keys[0]), keys[1..]))
  }

  function PressAll(l: Lines, t: int, keys: seq<Key>): (r: (Lines, seq<TermEvent>))
    requires ValidLines(l) && IsTerminal(t)
    ensures ValidLines(r.0)
    decreases |keys|
  {
    if keys == [] then (l, [])
    else
      var (l1, echo) := Press(l, t, keys[0]);
      var (l2, echoes) := PressAll(l1, t, keys[1..]);
      (l2, echo + echoes)
  }

  lemma {:induction false} PaperConcat(p: Paper, a: seq<TermEvent>, b: seq<TermEvent>)
    requires ValidPaper(p)
    ensures AllOnPaper(p, a + b) == AllOnPaper(AllOnPaper(p, a), b)
    decreases |a|
  {
    if a == [] {
      assert a + b == b;
    } else {
      assert (a + b)[0] == a[0] && (a + b)[1..] == a[1..] + b;
      PaperConcat(OnPaper(p, a[0]), a[1..], b);
    }
  }

  /** For any keys that stay on a line shorter than 128 characters, backspaces on the empty line
      included: the buffer holds what was typed, zeroes behind it, and the screen shows the prompt
      followed by exactly that. */
  lemma {:induction false} TypedLineIsEchoed(prompt: seq<byte>, p: Paper, l: Lines, t: int, keys: seq<Key>)
    requires ValidLines(l) && IsTerminal(t) && Lockstep(prompt, p, l, t)
    requires (forall i :: 0 <= i < |keys| ==> InLine(keys[i])) && StaysShort(Text(l, t), keys)
    ensures var (l', echo) := PressAll(l, t, keys);
            && Lockstep(prompt, AllOnPaper(p, echo), l', t)
            && Text(l', t) == Typed(Text(l, t), keys)
            && ApplyAll(Window(p), echo) == Window(AllOnPaper(p, echo))
    decreases |keys|
  {
    ScreenIsWindow(p, PressAll(l, t, keys).1);
    if keys != [] {
      var (l1, echo) := Press(l, t, keys[0]);
      PressKeepsLockstep(prompt, p, l, t, keys[0]);
      PressText(l, t, keys[0]);
      TypedLineIsEchoed(prompt, AllOnPaper(p, echo), l1, t, keys[1..]);
      PaperConcat(p, echo, PressAll(l1, t, keys[1..]).1);
    }
  }

  lemma PressText(l: Lines, t: int, k: Key)
    requires ValidLines(l) && IsTerminal(t) && (k.Char? ==> Length(l, t) < BUFFER)
    ensures Text(Press(l, t, k).0, t) == Edit(Text(l, t), k)
  {
    match k
    case Char(c) => InsertAppends(l, t, c, t);
    case Bksp => DropLastDrops(l, t, t);
  }

  // ----- how a line goes wrong, from the buffers at boot

  function Chars(n: nat): seq<Key> {
    seq(n, _ => Char(97))
  }

  lemma {:induction false} CharsTyped(line: seq<byte>, n: nat)
    requires |line| + n < BUFFER
    ensures StaysShort(line, Chars(n)) && |Typed(line, Chars(n))| == |line| + n
    decreases n
  {
    if n > 0 {
      assert Chars(n)[1..] == Chars(n - 1);
      CharsTyped(line + [97], n - 1);
    }
  }

  lemma {:induction false} PressAllLast(l: Lines, t: int, keys: seq<Key>, k: Key)
    requires ValidLines(l) && IsTerminal(t)
    ensures var (l', echo) := PressAll(l, t, keys);
            PressAll(l, t, keys + [k]) == (Press(l', t, k).0, echo + Press(l', t, k).1)
    decreases |keys|
  {
    if keys == [] {
      var (l1, echo) := Press(l, t, k);
      assert keys + [k] == [k] && [k][1..] == [] && PressAll(l1, t, []) == (l1, []);
      assert echo + [] == echo && [] + echo == echo;
    } else {
      assert (keys + [k])[0] == keys[0] && (keys + [k])[1..] == keys[1..] + [k];
      var (l1, first) := Press(l, t, keys[0]);
      var (l2, echo) := PressAll(l1, t, keys[1..]);
      PressAllLast(l1, t, keys[1..], k);
      assert first + (echo + Press(l2, t, k).1) == first + echo + Press(l2, t, k).1;
    }
  }

  /** 127 characters on terminal 1 of a cleared screen: still in step. */
  lemma AlmostFull()
    ensures var (l, echo) := PressAll(EMPTY, 1, Chars(BUFFER - 1));
            Lockstep([], AllOnPaper(BLANK_PAPER, echo), l, 1) && Length(l, 1) == BUFFER - 1
  {
    assert Text(EMPTY, 1) == [];
    assert Lockstep([], BLANK_PAPER, EMPTY, 1);
    CharsTyped([], BUFFER - 1);
    TypedLineIsEchoed([], BLANK_PAPER, EMPTY, 1, Chars(BUFFER - 1));
  }

  /** The 128th is stored but not shown. */
  lemma FullLineOutOfStep()
    ensures var (l, echo) := PressAll(EMPTY, 1, Chars(BUFFER));
            && !Lockstep([], AllOnPaper(BLANK_PAPER, echo), l, 1)
            && Length(l, 1) == BUFFER && Text(l, 1)[BUFFER - 1] == 97 && Length(l, 2) == 0
  {
    var before := Chars(BUFFER - 1);
    var (l, echo) := PressAll(EMPTY, 1, before);
    AlmostFull();
    assert Chars(BUFFER) == before + [Char(97)];
    PressAllLast(EMPTY, 1, before, Char(97));
    PressKeepsLockstep([], AllOnPaper(BLANK_PAPER, echo), l, 1, Char(97));
    PaperConcat(BLANK_PAPER, echo, Press(l, 1, Char(97)).1);
    OtherLength(EMPTY, 1, before, 2);
  }

  lemma {:induction false} OtherLength(l: Lines, t: int, keys: seq<Key>, u: int)
    requires ValidLines(l) && IsTerminal(t) && IsTerminal(u) && t != u
    ensures Length(PressAll(l, t, keys).0, u) == Length(l, u)
    decreases |keys|
  {
    if keys != [] {
      OtherLength(Press(l, t, keys[0]).0, t, keys[1..], u);
    }
  }

  /** Then Backspace on the empty line of terminal 2 wipes the last character of terminal 1's line. */
  lemma BackspaceReachesNeighbour()
    ensures var l := PressAll(EMPTY, 1, Chars(BUFFER)).0;
            Text(DropLast(l, 2).0, 1) != Text(l, 1)
  {
    FullLineOutOfStep();
    DropLastDrops(PressAll(EMPTY, 1, Chars(BUFFER)).0, 2, 1);
  }

  /** Ctrl-L on terminal 1 while a process of terminal 2 runs leaves the typed "a" in the buffer. */
  lemma ClearKeyLeavesLine()
    ensures var l := Press(EMPTY, 1, Char(97)).0;
            && Text(ClearLine(l, 2), 1) == [97]
            && !Lockstep([], OnPaper(BLANK_PAPER, TClear), ClearLine(l, 2), 1)
  {
    var l := Press(EMPTY, 1, Char(97)).0;
    InsertAppends(EMPTY, 1, 97, 1);
    assert Text(EMPTY, 1) == [] && ZeroTail(EMPTY, 1);
    ClearLineClears(l, 2, 1);
    ClearKeyExactly(l, 1, 2);
  }

  // ----- in memory

  class LineBuffers {
    const mem: array<byte>
    var idx: seq<int>

    function Value(): Lines
      reads this, mem
    {
      Lines(mem[..], idx)
    }

    predicate Valid()
      reads this, mem
    {
      ValidLines(Value())
    }

    constructor ()
      ensures Valid() && fresh(mem) && Value() == EMPTY
    {
      mem := new byte[1 + 3 * BUFFER](i => NUL);
      idx := [0, 0, 0];
      new;
      assert mem[..] == EMPTY.mem;
    }

    method InsertKey(t: int, c: byte) returns (n: int)
      requires Valid() && IsTerminal(t)
      modifies this, mem
      ensures Valid() && (Value(), n) == Insert(old(Value()), t, c)
    {
      if idx[t - 1] > BUFFER - 1 { return idx[t - 1]; }
      mem[1 + (t - 1) * BUFFER + idx[t - 1]] := c;
      idx := idx[t - 1 := idx[t - 1] + 1];
      return idx[t - 1];
    }

    method BackspaceBuf(t: int) returns (n: int)
      requires Valid() && IsTerminal(t)
      modifies this, mem
      ensures Valid() && (Value(), n) == DropLast(old(Value()), t)
    {
      mem[1 + (t - 1) * BUFFER + idx[t - 1] - 1] := NUL;
      if idx[t - 1] > 0 {
        idx := idx[t - 1 := idx[t - 1] - 1];
      } else {
        return -1;
      }
      return idx[t - 1];
    }

    method ClearBuf(t: int)
      requires Valid() && IsTerminal(t)
      modifies this, mem
      ensures Valid() && Value() == ClearLine(old(Value()), t)
    {
      var s := 1 + (t - 1) * BUFFER;
      for i := 0 to BUFFER
        invariant mem[..s] == old(mem[..s]) && mem[s + i..] == old(mem[s + i..]) && idx == old(idx)
        invariant forall j :: s <= j < s + i ==> mem[j] == NUL
      {
        mem[s + i] := NUL;
      }
      assert mem[..] == mem[..s] + mem[s..s + BUFFER] + mem[s + BUFFER..];
      idx := idx[t - 1 := 0];
    }

    /** The end of a terminal read: the typed line, cut to the request, without disturbing it. The copy is
        a string copy, so a NUL in a damaged line ends it early. */
    method CopyOut(t: int, buf: array<byte>, nbytes: nat) returns (r: int)
      requires Valid() && IsTerminal(t) && nbytes <= buf.Length && buf != mem
      modifies buf
      ensures r == Min(nbytes, Length(Value(), t)) && buf[r..] == old(buf[r..])
      ensures buf[..r] == Padded(Text(Value(), t), r)
      ensures NUL !in Text(Value(), t) ==> buf[..r] == Text(Value(), t)[..r]
    {
      var s := 1 + (t - 1) * BUFFER;
      var n := if nbytes <= idx[t - 1] then nbytes else idx[t - 1];
      var line := mem[s..s + BUFFER];
      ghost var text := Text(Value(), t);
      assert forall j :: 0 <= j < n ==> line[j] == mem[s + j] == text[j];
      assert text[..n] == line[..n];
      PaddedPrefix(text, line, n);
      StrNCpy(buf, line, n);
      return n;
    }
  }
}
