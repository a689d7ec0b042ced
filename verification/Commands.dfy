/** Command lines: splitting them for sys_execute, checking the program, handing arguments back. */
module Commands {
  import opened Common
  import opened Strings
  import opened FileSystem

  const CMD_SIZE := 1024
  const ARG_SIZE := 32

  // ----- parser

  const TOKEN_ENDS: set<byte> := {SPACE, NEWLINE, NUL}
  const LINE_ENDS: set<byte> := {NEWLINE, NUL}

  /** The longest prefix free of the given bytes. */
  function Before(s: seq<byte>, stops: set<byte>): (r: seq<byte>)
    ensures |r| <= |s| && r == s[..|r|]
    ensures forall j :: 0 <= j < |r| ==> r[j] !in stops
    ensures |r| < |s| ==> s[|r|] in stops
  {
    if s == [] || s[0] in stops then [] else [s[0]] + Before(s[1..], stops)
  }

  lemma {:induction false} BeforeStop(s: seq<byte>, t: seq<byte>, stops: set<byte>)
    requires forall j :: 0 <= j < |s| ==> s[j] !in stops
    requires t != [] && t[0] in stops
    ensures Before(s + t, stops) == s
  {
    if s == [] {
      assert s + t == t;
    } else {
      assert (s + t)[0] == s[0] && (s + t)[1..] == s[1..] + t;
      BeforeStop(s[1..], t, stops);
    }
  }

  function Token(command: seq<byte>): seq<byte> {
    Before(command, TOKEN_ENDS)
  }

  /** Where the arguments start: one space after the token is skipped, no more. */
  function ArgumentStart(command: seq<byte>): (i: nat)
    ensures |Token(command)| <= i <= |command|
  {
    var n := |Token(command)|;
    if n < |command| && command[n] == SPACE then n + 1 else n
  }

  function Arguments(command: seq<byte>): (r: seq<byte>)
    ensures |r| < ARG_SIZE && NUL !in r && NEWLINE !in r
  {
    var line := Before(command[ArgumentStart(command)..], LINE_ENDS);
    line[..Min(ARG_SIZE - 1, |line|)]
  }

  predicate Ends(command: seq<byte>) {
    exists j :: 0 <= j < |command| && command[j] in LINE_ENDS
  }

  method ParseToken(command: seq<byte>, cmd: array<byte>) returns (i: nat)
    requires Ends(command) && |Token(command)| <= cmd.Length
    modifies cmd
    ensures i == |Token(command)| < |command|
    ensures cmd[..i] == Token(command) && cmd[i..] == old(cmd[i..])
  {
    ghost var token := Token(command);
    i := 0;
    while command[i] != SPACE && command[i] != NEWLINE && command[i] != NUL
      invariant i <= |token| < |command|
      invariant cmd[..i] == token[..i] && cmd[i..] == old(cmd[i..])
      decreases |command| - i
    {
      cmd[i] := command[i];
      i := i + 1;
    }
  }

  method ParseArguments(command: seq<byte>, start: nat, args: array<byte>)
    requires Ends(command) && start == ArgumentStart(command) && args.Length == ARG_SIZE
    modifies args
    ensures args[..|Arguments(command)|] == Arguments(command)
    ensures forall j :: |Arguments(command)| <= j < ARG_SIZE ==>
              args[j] == if |Arguments(command)| == ARG_SIZE - 1 then NUL else old(args[j])
  {
    ghost var line := Before(command[start..], LINE_ENDS);
    var i, t := start, 0;
    while command[i] != NEWLINE && command[i] != NUL
      invariant i == start + t && t <= |line| < |command| - start && t < ARG_SIZE - 1
      invariant args[..t] == line[..t] && args[t..] == old(args[t..])
      decreases |command| - i
    {
      assert command[i] == command[start..][t] == line[t];
      ghost var before, rest := args[..t], args[t..];
      args[t] := command[i];
      assert args[..t + 1] == before + [line[t]] == line[..t + 1];
      assert args[t + 1..] == rest[1..] == old(args[t + 1..]);
      t := t + 1;
      i := i + 1;
      if t == ARG_SIZE - 1 { break; }
    }
    if t == ARG_SIZE - 1 { args[t] := NUL; }
  }

  method Parse(command: seq<byte>, cmd: array<byte>, args: array<byte>)
    requires Ends(command) && |Token(command)| <= cmd.Length && args.Length == ARG_SIZE && cmd != args
    modifies cmd, args
    ensures cmd[..|Token(command)|] == Token(command)
    ensures cmd[|Token(command)|..] == old(cmd[|Token(command)|..])
    ensures args[..|Arguments(command)|] == Arguments(command)
    ensures forall j :: |Arguments(command)| <= j < ARG_SIZE ==>
              args[j] == if |Arguments(command)| == ARG_SIZE - 1 then NUL else old(args[j])
  {
    var i := ParseToken(command, cmd);
    if command[i] == SPACE { i := i + 1; }
    ParseArguments(command, i, args);
  }

  /** The front of sys_execute. The buffers are zeroed first, and that alone terminates both strings:
      `cmdStack` is what the never-written last byte of the command buffer holds. */
  method SplitCommand(command: seq<byte>, cmdStack: byte) returns (cmd: array<byte>, args: array<byte>)
    requires Ends(command) && |Token(command)| < CMD_SIZE
    ensures fresh(cmd) && fresh(args) && args.Length == ARG_SIZE
    ensures NUL in cmd[..] && CString(cmd[..]) == Token(command)
    ensures NUL in args[..] && CString(args[..]) == Arguments(command)
  {
    cmd := new byte[CMD_SIZE + 1](i => cmdStack);
    for i := 0 to CMD_SIZE
      invariant forall j :: 0 <= j < i ==> cmd[j] == NUL
    {
      cmd[i] := NUL;
    }
    args := new byte[ARG_SIZE](i => NUL);
    Parse(command, cmd, args);
    ghost var n, m := |Token(command)|, |Arguments(command)|;
    assert cmd[n] == cmd[n..][0];
    assert cmd[..][n] == NUL && args[..][m] == NUL;
    assert cmd[..][..n] == Token(command) && args[..][..m] == Arguments(command);
    CStringUnique(cmd[..], n);
    CStringUnique(args[..], m);
  }

  /** "token args" splits back into its parts, whatever follows the end of the line. */
  lemma SplitRoundTrip(token: seq<byte>, args: seq<byte>, tail: seq<byte>)
    requires forall j :: 0 <= j < |token| ==> token[j] !in TOKEN_ENDS
    requires forall j :: 0 <= j < |args| ==> args[j] !in LINE_ENDS
    requires tail != [] && tail[0] in LINE_ENDS
    ensures var command := token + [SPACE] + args + tail;
            Ends(command) && Token(command) == token && Arguments(command) == args[..Min(|args|, 31)]
  {
    var command := token + [SPACE] + args + tail;
    assert command[|token| + 1 + |args|] == tail[0];
    assert command == token + ([SPACE] + args + tail);
    BeforeStop(token, [SPACE] + args + tail, TOKEN_ENDS);
    assert command[|token| + 1..] == args + tail;
    BeforeStop(args, tail, LINE_ENDS);
  }

  /** A command without arguments. */
  lemma SplitBare(token: seq<byte>, tail: seq<byte>)
    requires forall j :: 0 <= j < |token| ==> token[j] !in TOKEN_ENDS
    requires tail != [] && tail[0] in LINE_ENDS
    ensures Ends(token + tail) && Token(token + tail) == token && Arguments(token + tail) == []
  {
    assert (token + tail)[|token|] == tail[0] && (token + tail)[|token|..] == tail;
    BeforeStop(token, tail, TOKEN_ENDS);
    assert [] + tail == tail;
    BeforeStop([], tail, LINE_ENDS);
  }

  // ----- sys_getargs

  function Unsigned(n: int): int {
    if n < 0 then n + 0x1_0000_0000 else n
  }

  /** The buffer with its old string zeroed. */
  function Zeroed(buf: seq<byte>): (r: seq<byte>)
    ensures |r| == |buf|
  {
    seq<byte>(|CString(buf)|, _ => NUL) + buf[|CString(buf)|..]
  }

  /** The buffer after sys_getargs, and its result. */
  function GotArgs(args: seq<byte>, buf: seq<byte>, nbytes: int): (r: (seq<byte>, int))
    requires |args| <= Unsigned(nbytes) ==> |args| <= |buf|
  {
    if args == [] || |args| > Unsigned(nbytes) then (Zeroed(buf), -1) else (args + Zeroed(buf)[|args|..], 0)
  }

  /** The bytes come back without a terminator of their own: the result is terminated exactly when the
      buffer's old contents were longer than the arguments or had a NUL right behind them. */
  lemma TerminatedExactly(args: seq<byte>, buf: seq<byte>, nbytes: int)
    requires args != [] && NUL !in args && |args| <= Unsigned(nbytes) && |args| <= |buf|
    ensures var n := |args|;
            NUL in GotArgs(args, buf, nbytes).0[..Min(n + 1, |buf|)] <==>
            n < |CString(buf)| || (n < |buf| && buf[n] == NUL)
  {
    var n, r := |args|, GotArgs(args, buf, nbytes).0;
    assert r[..n] == args;
    if n < |buf| {
      assert r[..n + 1] == args + [r[n]] && r[n] == Zeroed(buf)[n];
    }
  }

  /** Every byte of the buffer afterwards: the arguments, NULs where the old string was longer, or all over it when the
      call fails, and the old bytes behind. */
  lemma GotArgsBytes(args: seq<byte>, buf: seq<byte>, nbytes: int, j: nat)
    requires j < |buf| && (|args| <= Unsigned(nbytes) ==> |args| <= |buf|)
    ensures var (out, r) := GotArgs(args, buf, nbytes);
            && |out| == |buf|
            && out[j] == if r == 0 && j < |args| then args[j] else if j < |CString(buf)| then NUL else buf[j]
  {
  }

  /** The request is compared as an unsigned number: a negative one is never too small. */
  lemma NegativeRequest(args: seq<byte>, buf: seq<byte>, nbytes: int)
    requires 0 < |args| < ARG_SIZE && |args| <= |buf| && -0x8000_0000 <= nbytes < 0
    ensures GotArgs(args, buf, nbytes).1 == 0
  {
  }

  /** A buffer that starts with a NUL is not zeroed, and a one-byte argument runs into what follows. */
  lemma ArgumentRunsOn()
    ensures GotArgs([97], [NUL, 122, 122], 3) == ([97, 122, 122], 0)
  {
    assert CString([NUL, 122, 122]) == [];
    assert [97] + Zeroed([NUL, 122, 122])[1..] == [97, 122, 122];
  }

  method ZeroString(buf: array<byte>)
    requires NUL in buf[..]
    modifies buf
    ensures buf[..] == Zeroed(old(buf[..]))
  {
    var bufSize := StrLen(buf[..]);
    var i := 0;
    while i < bufSize
      invariant i <= bufSize
      invariant forall j :: 0 <= j < i ==> buf[j] == NUL
      invariant forall j :: i <= j < buf.Length ==> buf[j] == old(buf[j])
    {
      buf[i] := NUL;
      i := i + 1;
    }
  }

  /** strncpy of a whole string, without its terminator. */
  method CopyString(buf: array<byte>, s: seq<byte>, length: nat)
    requires length == |CString(s)| < |s| && length <= buf.Length
    modifies buf
    ensures buf[..] == CString(s) + old(buf[length..])
  {
    PaddedPrefix(s, s, length);
    StrNCpy(buf, s, length);
    assert buf[..] == buf[..length] + buf[length..];
  }

  /** sys_getargs; `arguments` is what the process's saved argument pointer designates. */
  method GetArgs(arguments: seq<byte>, buf: array?<byte>, nbytes: int) returns (r: int)
    requires NUL in arguments
    requires buf != null ==> NUL in buf[..]
    requires buf != null && |CString(arguments)| <= Unsigned(nbytes) ==> |CString(arguments)| <= buf.Length
    modifies if buf == null then {} else {buf}
    ensures buf == null ==> r == -1
    ensures buf != null ==> (buf[..], r) == GotArgs(CString(arguments), old(buf[..]), nbytes)
  {
    if buf == null { return -1; }
    ZeroString(buf);
    var length := StrLen(arguments);
    if length > Unsigned(nbytes) {
      return -1;
    } else if length == 0 {
      return -1;
    }
    CopyString(buf, arguments, length);
    return 0;
  }

  /** sys_execute's parsing of "token args", then sys_getargs on the arguments it saved. */
  method CommandRoundTrip(token: seq<byte>, args: seq<byte>, tail: seq<byte>, cmdStack: byte, buf: array<byte>,
                          nbytes: int)
      returns (r: int)
    requires |token| < CMD_SIZE && forall j :: 0 <= j < |token| ==> token[j] !in TOKEN_ENDS
    requires forall j :: 0 <= j < |args| ==> args[j] !in LINE_ENDS
    requires tail != [] && tail[0] in LINE_ENDS
    requires NUL in buf[..] && 0 <= nbytes <= buf.Length
    modifies buf
    ensures r == 0 <==> 1 <= Min(|args|, ARG_SIZE - 1) <= nbytes
    ensures r != 0 ==> r == -1
    ensures r == 0 ==> buf[..Min(|args|, ARG_SIZE - 1)] == args[..Min(|args|, ARG_SIZE - 1)]
  {
    SplitRoundTrip(token, args, tail);
    var _, saved := SplitCommand(token + [SPACE] + args + tail, cmdStack);
    r := GetArgs(saved[..], buf, nbytes);
  }

  // ----- checkExe

  const ELF_MAGIC: seq<byte> := [0x7F, 0x45, 0x4C, 0x46]

  /** `stack` is what the four-byte header buffer holds before the read: a shorter file leaves some of it. */
  function Header(img: Image, i: nat, stack: seq<byte>): (r: seq<byte>)
    requires ValidImage(img) && i < |img.inodes| && |stack| == 4
  {
    var n := ReadResult(img, i, 0, 4);
    File(img, i)[..n] + stack[n..]
  }

  predicate Executable(img: Image, name: seq<byte>, stack: seq<byte>)
    requires ValidImage(img) && |stack| == 4
  {
    match Lookup(img.dentries, name)
    case None => false
    case Some(d) => ReadResult(img, d.inode, 0, 4) >= 0 && Header(img, d.inode, stack) == ELF_MAGIC
  }

  method CheckExe(img: Image, name: seq<byte>, elf: array<byte>) returns (ok: bool)
    requires ValidImage(img) && Scannable(name, NAME_LENGTH) && elf.Length == 4
    modifies elf
    ensures ok == Executable(img, name, old(elf[..]))
  {
    var prog := ReadDentryByName(img, name);
    if prog.None? { return false; }
    var n := ReadData(img, prog.value.inode, 0, elf, 4);
    if n == -1 { return false; }
    assert elf[..] == elf[..n] + elf[n..];
    return elf[0] == 0x7F && elf[1] == 0x45 && elf[2] == 0x4C && elf[3] == 0x46;
  }

  /** The bytes 0x7F, "ELF" at the start of what the header buffer holds: as much of the file as can be read, and
      behind that what was there. */
  predicate Recognised(img: Image, name: seq<byte>, stack: seq<byte>)
    requires ValidImage(img) && |stack| == 4
  {
    && Lookup(img.dentries, name).Some?
    && var i := Lookup(img.dentries, name).value.inode;
      && i < |img.inodes|
      && var n := Min(4, Readable(img.inodes[i]));
      File(img, i)[..n] + stack[n..] == [0x7F, 0x45, 0x4C, 0x46]
  }

  /** checkExe accepts exactly those. */
  lemma RecognisedExactly(img: Image, name: seq<byte>, stack: seq<byte>)
    requires ValidImage(img) && |stack| == 4
    ensures Executable(img, name, stack) <==> Recognised(img, name, stack)
  {
    var found := Lookup(img.dentries, name);
    if found.Some? && found.value.inode < |img.inodes| {
      ReadHeader(img, found.value.inode);
    }
  }

  lemma ReadHeader(img: Image, i: nat)
    requires ValidImage(img) && i < |img.inodes|
    ensures ReadResult(img, i, 0, 4) == Min(4, Readable(img.inodes[i]))
  {
    var ino := img.inodes[i];
    assert ValidInode(img, ino);
    var live := LiveBlocks(ino.words, 0, SLOTS);
    assert ino.words[0] == 0 <==> live == 0;
  }

  /** On a file whose first bytes can be read, the header alone decides. */
  lemma HeaderDecides(img: Image, name: seq<byte>, stack: seq<byte>)
    requires ValidImage(img) && |stack| == 4 && Lookup(img.dentries, name).Some?
    requires var i := Lookup(img.dentries, name).value.inode;
             i < |img.inodes| && Dense(img.inodes[i]) && |File(img, i)| >= 4
    ensures Executable(img, name, stack) <==>
            File(img, Lookup(img.dentries, name).value.inode)[..4] == [0x7F, 0x45, 0x4C, 0x46]
  {
    RecognisedExactly(img, name, stack);
    ReadableExactly(img, Lookup(img.dentries, name).value.inode);
    assert stack[4..] == [];
  }

  const PROGRAM_LIMIT := 63 * BLOCK

  /** Once the check has passed, the lookups that sys_execute repeats cannot fail. */
  lemma ExecutableLoads(img: Image, name: seq<byte>, stack: seq<byte>)
    requires ValidImage(img) && |stack| == 4 && Executable(img, name, stack)
    ensures Lookup(img.dentries, name).Some?
    ensures ReadResult(img, Lookup(img.dentries, name).value.inode, 0, PROGRAM_LIMIT) >= 0
  {
  }

  /** A program whose header lies in the file is recognised whatever the stack held. */
  predicate Installed(img: Image, name: seq<byte>)
    requires ValidImage(img)
  {
    && Lookup(img.dentries, name).Some?
    && var i := Lookup(img.dentries, name).value.inode;
      i < |img.inodes| && Dense(img.inodes[i]) && |File(img, i)| >= 4 && File(img, i)[..4] == ELF_MAGIC
  }

  lemma InstalledIsExecutable(img: Image, name: seq<byte>, stack: seq<byte>)
    requires ValidImage(img) && |stack| == 4 && Installed(img, name)
    ensures Executable(img, name, stack)
  {
  }
}
