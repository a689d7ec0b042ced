/** The kernel's own form of the process model: a bitmap, in-place process blocks and search loops.
    Every method refines the corresponding step of `Processes`. */
module Machine {
  import opened Common
  import opened Strings
  import opened FileSystem
  import opened Commands
  import opened Paging
  import opened Processes

  // ----- bitmaps

  /** `1 << p` for a process number. */
  function Bit(p: int): bv8
    requires IsPid(p)
  {
    if p == 0 then 0x01 else if p == 1 then 0x02 else if p == 2 then 0x04
    else if p == 3 then 0x08 else if p == 4 then 0x10 else 0x20
  }

  function ActiveOf(b: bv8): set<int> {
    set p | 0 <= p < NUM_PROCESS && b & Bit(p) != 0
  }

  /** A terminal's bit in `numShells`. */
  function ShellBit(t: int): bv8 {
    if t == 1 then 0x01 else if t == 2 then 0x02 else 0x04
  }

  function ShellsOf(b: bv8): set<int> {
    set t | 1 <= t <= 3 && b & ShellBit(t) != 0
  }

  lemma BitSet(b: bv8, p: int)
    requires IsPid(p)
    ensures ActiveOf(b | Bit(p)) == ActiveOf(b) + {p}
    ensures b < 0x40 ==> b | Bit(p) < 0x40
  {
    forall q | 0 <= q < NUM_PROCESS
      ensures (b | Bit(p)) & Bit(q) != 0 <==> b & Bit(q) != 0 || q == p
    {
    }
  }

  lemma ShellSet(b: bv8, t: int)
    requires 1 <= t <= 3
    ensures ShellsOf(b | ShellBit(t)) == ShellsOf(b) + {t}
  {
  }

  /** Subtracting the bit of an active process clears that bit and nothing else: no borrow occurs. */
  lemma BitCleared(b: bv8, p: int)
    requires p in ActiveOf(b)
    ensures b >= Bit(p) && ActiveOf(b - Bit(p)) == ActiveOf(b) - {p}
    ensures b < 0x40 ==> b - Bit(p) < 0x40
  {
  }

  lemma FullBitmap(b: bv8)
    requires b < 0x40
    ensures b == 0x3F <==> LowestFree(ActiveOf(b)).None?
  {
  }

  lemma EmptyBitmap()
    ensures ActiveOf(0) == {} && ShellsOf(1) == {1}
  {
  }

  // ----- the kernel

  class Machine {
    const env: Env
    var bitmap: bv8
    var pcbs: seq<Pcb>
    var cur: int
    var cursor: int
    var numShells: bv8
    var shown: int
    var dirs: seq<seq<int>>
    var loaded: int
    var esp0: int
    var whichTerm: int
    var attemptExit: bool

    /** Boot: empty tables, page directories, then the first shell on terminal 1. */
    constructor (env: Env)
      requires ValidEnv(env)
      ensures Value() == Boot(env) && this.env == env && Valid() && Idle()
    {
      var empty := InitializeDirectories(env.layout);
      this.env := env;
      bitmap, numShells := 0, 1;
      pcbs := seq(NUM_PROCESS, _ => ZERO_PCB);
      cur, cursor, shown, loaded, esp0 := 0, 0, 1, 0, 0;
      dirs := empty;
      whichTerm, attemptExit := 1, false;
      new;
      EmptyBitmap();
      assert dirs == seq(NUM_PROCESS, _ => EmptyDir(env.layout));
      dirs := dirs[0 := dirs[0][USER_INDEX := SHELL_ENTRY]];
      Link(0, []);
    }

    function Value(): Kernel
      reads this
    {
      Kernel(ActiveOf(bitmap), pcbs, cur, cursor, ShellsOf(numShells), shown, dirs, loaded, esp0)
    }

    predicate Valid()
      reads this
    {
      ValidEnv(env) && Shape(Value()) && bitmap < 0x40
    }

    /** Between system calls no launch is pending. */
    predicate Idle()
      reads this
    {
      whichTerm == 0 && !attemptExit
    }

    function PendingOrigin(args: seq<byte>): Origin
      reads this
    {
      if whichTerm == 1 then Launch(1) else if whichTerm == 2 then Launch(2)
      else if whichTerm == 4 then Launch(3) else if attemptExit then Respawn else Child(args)
    }

    /** The search loop for a free process number. */
    method FindFree() returns (p: Option<int>)
      requires bitmap < 0x40
      ensures p == LowestFree(ActiveOf(bitmap))
    {
      var free := 0;
      while free < NUM_PROCESS
        invariant 0 <= free <= NUM_PROCESS && LowestFree(ActiveOf(bitmap)) == FreeFrom(ActiveOf(bitmap), free)
      {
        if bitmap & Bit(free) == 0 { return Some(free); }
        free := free + 1;
      }
      return None;
    }

    /** sys_execute's assignments to the new process block and its parent's. */
    method LinkPcbs(p: int, args: seq<byte>)
      requires PcbsShape(pcbs) && IsPid(cur) && IsPid(p) && IsPid(pcbs[cur].pid)
      requires whichTerm in {0, 1, 2, 4} && (whichTerm != 0 ==> !attemptExit)
      requires if PendingOrigin(args).Child? then p != cur else args == []
      modifies this`pcbs, this`cur, this`whichTerm, this`attemptExit
      ensures pcbs == LinkedPcbs(old(pcbs), old(cur), p, old(PendingOrigin(args))) && cur == p && Idle()
    {
      var parent := cur;
      cur := p;
      pcbs := pcbs[p := pcbs[p].(pid := p, child := NOBODY)];
      if whichTerm == 1 {
        pcbs := pcbs[p := pcbs[p].(parent := NOBODY, terminal := 1)];
      } else if whichTerm == 2 {
        pcbs := pcbs[p := pcbs[p].(parent := NOBODY, terminal := 2)];
      } else if whichTerm == 4 {
        pcbs := pcbs[p := pcbs[p].(parent := NOBODY, terminal := 3)];
      } else {
        pcbs := pcbs[p := pcbs[p].(parent := pcbs[parent].pid)];
      }
      whichTerm := 0;
      if attemptExit {
        attemptExit := false;
        pcbs := pcbs[p := pcbs[p].(parent := NOBODY, terminal := pcbs[parent].terminal)];
      }
      if pcbs[p].parent != NOBODY {
        pcbs := pcbs[parent := pcbs[parent].(child := p)];
        pcbs := pcbs[p := pcbs[p].(terminal := pcbs[parent].terminal)];
      }
      var fds := pcbs[p].fds;
      pcbs := pcbs[p := pcbs[p].(fds := fds[0 := OpenTerminal(fds[0])][1 := OpenTerminal(fds[1])])];
      pcbs := pcbs[p := pcbs[p].(arguments := args)];
    }

    /** The tail of sys_execute, from the new block's first field to the kernel stack. */
    method Link(p: int, args: seq<byte>)
      requires Valid() && IsPid(p)
      requires whichTerm in {0, 1, 2, 4} && (whichTerm != 0 ==> !attemptExit)
      requires if PendingOrigin(args).Child? then p != cur else args == []
      modifies this`bitmap, this`pcbs, this`cur, this`esp0, this`whichTerm, this`attemptExit
      ensures Value() == Spawn(old(Value()), p, old(PendingOrigin(args))) && bitmap < 0x40
      ensures Idle()
    {
      LinkPcbs(p, args);
      BitSet(bitmap, p);
      bitmap := bitmap | Bit(p);
      esp0 := STACK_BASE - p * TASK_STACK;
    }

    /** sys_execute's second lookup and its read of the program image. */
    method LoadProgram(cmd: seq<byte>, ghost name: seq<byte>) returns (ok: bool)
      requires ValidImage(env.img) && NUL in cmd && CString(cmd) == name
      ensures ok <==> Lookup(env.img.dentries, name).Some? &&
                      ReadResult(env.img, Lookup(env.img.dentries, name).value.inode, 0, PROGRAM_LIMIT) >= 0
    {
      SameProgram(env.img, cmd, name, [0, 0, 0, 0]);
      var prog := ReadDentryByName(env.img, cmd);
      if prog.None? { return false; }
      var image := new byte[PROGRAM_LIMIT](i => NUL);
      var n := ReadData(env.img, prog.value.inode, 0, image, PROGRAM_LIMIT);
      return n != -1;
    }

    /** setup_paging: the new process's program page, in its own directory. */
    method MapSlot(p: int)
      requires Valid() && IsPid(p)
      modifies this`dirs, this`loaded
      ensures Value() == MapProgram(old(Value()), p)
    {
      dirs := dirs[p := dirs[p][USER_INDEX := SHELL_ENTRY + p * FOUR_MB]];
      loaded := p;
    }

    /** sys_execute once a number is found: paging, loading, linking. */
    method StartProgram(cmd: seq<byte>, p: int, args: seq<byte>, ghost name: seq<byte>) returns (ok: bool)
      requires Valid() && IsPid(p) && NUL in cmd && CString(cmd) == name
      requires whichTerm in {0, 1, 2, 4} && (whichTerm != 0 ==> !attemptExit)
      requires if PendingOrigin(args).Child? then p != cur else args == []
      modifies this
      ensures (Value(), ok) == Start(old(Value()), env.img, name, p, old(PendingOrigin(args))) && bitmap < 0x40
      ensures ok ==> Idle()
      ensures !ok ==> whichTerm == old(whichTerm) && attemptExit == old(attemptExit)
    {
      MapSlot(p);
      ok := LoadProgram(cmd, name);
      if ok {
        Link(p, args);
      }
    }

    /** sys_execute's parsing and program check. */
    method Check(command: seq<byte>, stack: seq<byte>, cmdStack: byte)
        returns (ok: bool, cmd: seq<byte>, args: seq<byte>)
      requires ValidEnv(env) && |stack| == 4 && Ends(command) && |Token(command)| < CMD_SIZE
      ensures ok == Executable(env.img, Token(command), stack) && NUL in cmd && CString(cmd) == Token(command)
      ensures args == Arguments(command)
    {
      var buffer, saved := SplitCommand(command, cmdStack);
      cmd := buffer[..];
      args := CString(saved[..]);
      SameProgram(env.img, cmd, Token(command), stack);
      var elf := new byte[4](i requires 0 <= i < 4 => stack[i]);
      assert elf[..] == stack;
      ok := CheckExe(env.img, cmd, elf);
    }

    /** sys_execute; `stack` is the uninitialised header buffer, `cmdStack` the last byte of the command
        buffer. The result 0 stands for the started program. */
    method SysExecute(command: seq<byte>, stack: seq<byte>, cmdStack: byte) returns (r: int)
      requires Valid() && |stack| == 4 && Ends(command) && |Token(command)| < CMD_SIZE
      requires whichTerm in {0, 1, 2, 4} && (whichTerm != 0 ==> !attemptExit)
      requires if PendingOrigin([]).Child? then cur in ActiveOf(bitmap) else Arguments(command) == []
      modifies this
      ensures var origin := old(PendingOrigin(Arguments(command)));
              (Value(), r == 0) == Execute(old(Value()), env, Token(command), stack, origin) && bitmap < 0x40
      ensures r == 0 ==> Idle()
      ensures r != 0 ==> r == -1 && whichTerm == old(whichTerm) && attemptExit == old(attemptExit)
    {
      var ok, cmd, args := Check(command, stack, cmdStack);
      if !ok { return -1; }
      var free := FindFree();
      if free.None? { return -1; }
      ok := StartProgram(cmd, free.value, args, Token(command));
      return if ok then 0 else -1;
    }

    method CloseDescriptors()
      requires PcbsShape(pcbs) && IsPid(cur)
      modifies this`pcbs
      ensures pcbs == old(pcbs)[cur := CloseAll(old(pcbs)[cur])]
    {
      var i := 0;
      while i < MAX_OPEN_FILES
        invariant 0 <= i <= MAX_OPEN_FILES && PcbsShape(pcbs)
        invariant pcbs == old(pcbs)[cur := old(pcbs)[cur].(fds := pcbs[cur].fds)]
        invariant forall j :: 0 <= j < MAX_OPEN_FILES ==>
                    pcbs[cur].fds[j] == if j < i then old(pcbs)[cur].fds[j].(flags := Closed) else old(pcbs)[cur].fds[j]
      {
        pcbs := pcbs[cur := pcbs[cur].(fds := pcbs[cur].fds[i := pcbs[cur].fds[i].(flags := Closed)])];
        i := i + 1;
      }
      assert pcbs[cur].fds == CloseAll(old(pcbs)[cur]).fds;
    }

    /** sys_halt's first half: close everything and free the number, whose bit is known to be set. */
    method ReleaseCurrent()
      requires Valid() && pcbs[cur].pid == cur && cur in ActiveOf(bitmap)
      modifies this`pcbs, this`bitmap
      ensures Value() == Release(old(Value())) && Valid()
    {
      CloseDescriptors();
      BitCleared(bitmap, cur);
      bitmap := bitmap - Bit(pcbs[cur].pid);
    }

    method ResumeParent(parent: int)
      requires Valid() && IsPid(parent)
      modifies this`pcbs, this`cur, this`loaded, this`esp0
      ensures Value() == Resume(old(Value()), parent)
    {
      cur := parent;
      pcbs := pcbs[cur := pcbs[cur].(child := NOBODY)];
      loaded := pcbs[cur].pid;
      esp0 := STACK_BASE - pcbs[cur].pid * TASK_STACK;
    }

    method SysHalt(stack: seq<byte>, cmdStack: byte)
      requires Valid() && Idle() && |stack| == 4 && pcbs[cur].pid == cur && cur in ActiveOf(bitmap)
      modifies this
      ensures Value() == Halt(old(Value()), env, stack) && bitmap < 0x40 && Idle()
    {
      var parent := pcbs[cur].parent;
      ReleaseCurrent();
      if parent == NOBODY {
        attemptExit := true;
        ShellToken([]);
        ShellStarts(Value(), env, stack, Respawn, cur);
        var r := SysExecute(SHELL + [NUL], stack, cmdStack);
      } else {
        ResumeParent(parent);
      }
    }

    /** schedule: the loop ends because the current process itself is an active leaf. */
    method Schedule()
      requires Valid() && Leaf(Value(), cur)
      modifies this`cur, this`cursor, this`loaded, this`esp0
      ensures NextUp(old(Value()), cur) && Value() == RunNext(old(Value()), cur)
      ensures Value() == Tick(old(Value()))
    {
      ghost var k := Value();
      var before := cur;
      cur := cursor;
      while bitmap & Bit(cursor) == 0 || pcbs[cur].child != NOBODY
        invariant IsPid(cursor) && cur == cursor && Value() == k.(cur := cur, cursor := cursor)
        invariant forall r :: Leaf(k, r) ==> Ahead(k.cursor, cursor) <= Ahead(k.cursor, r)
        decreases NUM_PROCESS - Ahead(k.cursor, cursor)
      {
        assert !Leaf(k, cursor) && Leaf(k, k.cur);
        LeafAhead(k, cursor);
        cursor := cursor + 1;
        if cursor == NUM_PROCESS { cursor := 0; }
        cur := cursor;
      }
      NextUpUnique(k, cur, SearchFrom(k, k.cursor));
      SwitchTo(before);
    }

    /** schedule's second half: advance the cursor past the selected process and switch to it. */
    method SwitchTo(before: int)
      requires |pcbs| == NUM_PROCESS && IsPid(cur) && cur == cursor
      modifies this`cursor, this`loaded, this`esp0
      ensures cursor == Succ(cur)
      ensures loaded == if before == cur then old(loaded) else pcbs[cur].pid
      ensures esp0 == if before == cur then old(esp0) else StackTop(pcbs[cur].pid)
    {
      if cursor == NUM_PROCESS - 1 { cursor := 0; } else { cursor := cursor + 1; }
      if before != cur {
        loaded := pcbs[cur].pid;
        esp0 := STACK_BASE - pcbs[cur].pid * TASK_STACK;
      }
    }

    method SetShell(t: int)
      requires 1 <= t <= 3
      modifies this`numShells
      ensures ShellsOf(numShells) == old(ShellsOf(numShells)) + {t}
    {
      ShellSet(numShells, t);
      numShells := numShells | ShellBit(t);
    }

    method MarkLaunch(t: int)
      requires 1 <= t <= 3
      modifies this`numShells, this`shown, this`whichTerm
      ensures Value() == old(Value()).(shells := old(Value()).shells + {t}, shown := t)
      ensures PendingOrigin([]) == Launch(t) && whichTerm in {1, 2, 4}
    {
      SetShell(t);
      shown := t;
      whichTerm := if t == 1 then 1 else if t == 2 then 2 else 4;
    }

    /** First launch of a terminal's shell; control does not come back to screenChange. */
    method LaunchShell(t: int, stack: seq<byte>, cmdStack: byte)
      requires Valid() && Idle() && |stack| == 4 && 1 <= t <= 3 && LowestFree(Value().active).Some?
      modifies this
      ensures bitmap < 0x40 && Idle()
      ensures var k := old(Value());
              Value() == Execute(k.(shells := k.shells + {t}, shown := t), env, SHELL, stack, Launch(t)).0
    {
      MarkLaunch(t);
      ShellToken([NUL]);
      ShellStarts(Value(), env, stack, Launch(t), LowestFree(Value().active).value);
      var r := SysExecute(SHELL + [NEWLINE, NUL], stack, cmdStack);
    }

    method Launchable(t: int) returns (launched: bool, full: bool)
      requires Valid() && 1 <= t <= 3
      ensures launched <==> t in Value().shells
      ensures full <==> LowestFree(Value().active).None?
    {
      FullBitmap(bitmap);
      return numShells & ShellBit(t) != 0, bitmap == 0x3F;
    }

    /** The part of screenChange that concerns processes. */
    method ScreenChange(t: int, stack: seq<byte>, cmdStack: byte)
      requires Valid() && Idle() && |stack| == 4 && 1 <= t <= 3
      modifies this
      ensures Value() == Switch(old(Value()), env, t, stack) && bitmap < 0x40 && Idle()
    {
      if t == shown { return; }
      var launched, full := Launchable(t);
      if full && !launched { return; }
      if !launched {
        LaunchShell(t, stack, cmdStack);
        return;
      }
      shown := t;
    }

    method FindFd(fds: seq<Desc>) returns (r: Option<int>)
      requires |fds| == MAX_OPEN_FILES
      ensures r == FreeFd(fds, 2)
    {
      var i := 2;
      while fds[i].flags != Closed
        invariant 2 <= i < MAX_OPEN_FILES && FreeFd(fds, 2) == FreeFd(fds, i)
        decreases MAX_OPEN_FILES - i
      {
        if i >= MAX_OPEN_FILES - 1 { return None; }
        i := i + 1;
      }
      return Some(i);
    }

    method Describe(entry: Dentry, name: seq<byte>, was: Desc) returns (d: Desc)
      requires NUL in name
      ensures d == Opened(entry, name, was)
    {
      var diff := StrNCmp(name, TERMINAL_NAME, 8);
      CStringUnique(TERMINAL_NAME, 8);
      if diff == 0 || entry.kind == KIND_TERM { return Desc(Open(TermFile), 0, 0); }
      if entry.kind == KIND_DIR { return Desc(Open(DirFile), 0, 0); }
      if entry.kind == KIND_FILE { return Desc(Open(RegFile), entry.inode, 0); }
      if entry.kind == KIND_RTC { return Desc(Open(RtcFile), 0, 0); }
      return was;
    }

    method SysOpen(name: seq<byte>) returns (r: int)
      requires Valid() && NUL in name
      modifies this`pcbs
      ensures (Value(), r) == OpenFile(old(Value()), env, name)
    {
      var free := FindFd(pcbs[cur].fds);
      if free.None? { return -1; }
      var entry := ReadDentryByName(env.img, name);
      if entry.None? { return -1; }
      var d := Describe(entry.value, name, pcbs[cur].fds[free.value]);
      pcbs := pcbs[cur := pcbs[cur].(fds := pcbs[cur].fds[free.value := d])];
      return free.value;
    }

    method SysClose(fd: int) returns (r: int)
      requires Valid()
      modifies this`pcbs
      ensures (Value(), r) == CloseFile(old(Value()), fd)
    {
      if 2 <= fd < MAX_OPEN_FILES {
        if pcbs[cur].fds[fd].flags.Open? {
          pcbs := pcbs[cur := pcbs[cur].(fds := pcbs[cur].fds[fd := pcbs[cur].fds[fd].(flags := Closed)])];
          return 0;
        }
      }
      return -1;
    }

    method Advance(fd: int, amount: nat)
      requires Valid() && 0 <= fd < MAX_OPEN_FILES
      modifies this`pcbs
      ensures var d := old(pcbs[cur].fds[fd]);
              Value() == SetFd(old(Value()), fd, d.(position := d.position + amount))
    {
      var d := pcbs[cur].fds[fd];
      pcbs := pcbs[cur := pcbs[cur].(fds := pcbs[cur].fds[fd := d.(position := d.position + amount)])];
    }

    /** reg_file_read: the file's bytes from the old position on, and nothing else. */
    method ReadRegular(fd: int, buf: array<byte>, nbytes: nat) returns (r: int)
      requires Valid() && Reads(fd, RegFile) && nbytes <= buf.Length
      modifies this`pcbs, buf
      ensures (Value(), r) == ReadFile(old(Value()), env, fd, nbytes, 0)
      ensures r >= 0 ==>
        var d := old(pcbs[cur].fds[fd]);
        buf[..r] == File(env.img, d.inode)[d.position..d.position + r] && buf[r..] == old(buf[r..])
    {
      var d := pcbs[cur].fds[fd];
      r := ReadData(env.img, d.inode, d.position, buf, nbytes);
      if r > 0 { Advance(fd, r); }
    }

    /** dir_read's test for the end of the directory. */
    method AtDirectoryEnd(position: nat, nbytes: nat, following: seq<byte>) returns (end: bool)
      requires Valid() && NUL in following
      ensures end <==>
        nbytes == 0 || position >= |env.img.dentries| || EndMarker(env.img.dentries[position])
    {
      if position >= |env.img.dentries| { return true; }
      var name := env.img.dentries[position].name;
      var diff := StrNCmp([NUL], name + following, nbytes);
      EmptyName(name, following, nbytes);
      return diff == 0;
    }

    /** dir_read: the name of the entry at the position, cut or padded to the request. */
    method ReadDirectory(fd: int, buf: array<byte>, nbytes: nat, following: seq<byte>) returns (r: int)
      requires Valid() && Reads(fd, DirFile) && nbytes <= buf.Length && NUL in following
      modifies this`pcbs, buf
      ensures (Value(), r) == ReadFile(old(Value()), env, fd, nbytes, 0) && r >= 0
      ensures var d := old(pcbs[cur].fds[fd]);
        && buf[r..] == old(buf[r..])
        && (r > 0 ==> buf[..r] == Padded(env.img.dentries[d.position].name + following, r))
    {
      var d := pcbs[cur].fds[fd];
      var end := AtDirectoryEnd(d.position, nbytes, following);
      if end { return 0; }
      CopyName(d.position, buf, nbytes, following);
      Advance(fd, 1);
      return nbytes;
    }

    method CopyName(position: nat, buf: array<byte>, nbytes: nat, following: seq<byte>)
      requires Valid() && position < |env.img.dentries| && nbytes <= buf.Length && NUL in following
      modifies buf
      ensures buf[..nbytes] == Padded(env.img.dentries[position].name + following, nbytes)
      ensures buf[nbytes..] == old(buf[nbytes..])
    {
      StrNCpy(buf, env.img.dentries[position].name + following, nbytes);
    }

    /** sys_read; `device` is what a terminal or clock read returns, `following` what stands behind the
        name of a directory entry. */
    method SysRead(fd: int, buf: array<byte>, nbytes: nat, device: int, following: seq<byte>) returns (r: int)
      requires Valid() && nbytes <= buf.Length && NUL in following
      modifies this`pcbs, buf
      ensures (Value(), r) == ReadFile(old(Value()), env, fd, nbytes, device)
      ensures old(Reads(fd, RegFile) || Reads(fd, DirFile)) && r >= 0 ==>
        buf[..r] == BytesRead(env.img, old(pcbs[cur].fds[fd]), r, following) && buf[r..] == old(buf[r..])
    {
      if fd != 0 && !(2 <= fd < MAX_OPEN_FILES) { return -1; }
      if pcbs[cur].fds[fd].flags == Closed { return -1; }
      if pcbs[cur].fds[fd].flags == Open(RegFile) {
        r := ReadRegular(fd, buf, nbytes);
      } else if pcbs[cur].fds[fd].flags == Open(DirFile) {
        r := ReadDirectory(fd, buf, nbytes, following);
      } else {
        r := device;
      }
    }

    /** sys_getargs. */
    method SysGetArgs(buf: array<byte>, nbytes: int) returns (r: int)
      requires Valid() && NUL !in pcbs[cur].arguments && NUL in buf[..]
      requires |pcbs[cur].arguments| <= Unsigned(nbytes) ==> |pcbs[cur].arguments| <= buf.Length
      modifies buf
      ensures (buf[..], r) == GotArgs(pcbs[cur].arguments, old(buf[..]), nbytes)
    {
      var stored := pcbs[cur].arguments + [NUL];
      assert stored[..|stored| - 1] == pcbs[cur].arguments && stored[|stored| - 1] == NUL;
      CStringUnique(stored, |stored| - 1);
      r := GetArgs(stored, buf, nbytes);
    }

    /** A readable descriptor of that kind is open. */
    predicate Reads(fd: int, kind: Kind)
      requires Valid()
      reads this
    {
      (fd == 0 || 2 <= fd < MAX_OPEN_FILES) && pcbs[cur].fds[fd].flags == Open(kind)
    }

    /** vidmap and add_vidmap; `stored` is what is written through the pointer. */
    method SysVidmap(pointer: int) returns (r: int, stored: Option<int>)
      requires Valid()
      modifies this`dirs, this`loaded
      ensures (Value(), r) == Vidmap(old(Value()), env, pointer)
      ensures stored == if r == 0 then Some(PROGRAM_START + FOUR_MB) else None
    {
      if pointer < PROGRAM_START || pointer >= PROGRAM_START + FOUR_MB { return -1, None; }
      stored := Some(PROGRAM_START + FOUR_MB);
      var index := (PROGRAM_START + FOUR_MB) / FOUR_MB;
      var p := pcbs[cur].pid;
      dirs := dirs[p := dirs[p][index := env.layout.vidmap + USER_PRESENT]];
      loaded := p;
      r := 0;
    }
  }

  /** The test for the end of the directory, which looks at no more bytes than requested. */
  lemma EmptyName(name: seq<byte>, following: seq<byte>, n: nat)
    requires |name| == NAME_LENGTH
    ensures Bounded([NUL], n) == Bounded(name + following, n) <==> n == 0 || Bounded(name, NAME_LENGTH) == []
  {
    assert CString([NUL]) == [];
    if n > 0 {
      assert (name + following)[..Min(n, |name + following|)][0] == name[0] == name[..NAME_LENGTH][0];
    }
  }

  /** The shell always starts when a slot is free. */
  lemma ShellStarts(k: Kernel, env: Env, stack: seq<byte>, origin: Origin, free: int)
    requires Shape(k) && ValidEnv(env) && |stack| == 4 && IsPid(free) && free !in k.active
    ensures Execute(k, env, SHELL, stack, origin).1
  {
  }

  lemma ShellToken(tail: seq<byte>)
    requires tail == [] || tail == [NUL]
    ensures var command := SHELL + (if tail == [] then [NUL] else [NEWLINE, NUL]);
            Ends(command) && Token(command) == SHELL && Arguments(command) == []
  {
    var rest := if tail == [] then [NUL] else [NEWLINE, NUL];
    assert (SHELL + rest)[5] in LINE_ENDS && (SHELL + rest)[5..] == rest;
    BeforeStop(SHELL, rest, TOKEN_ENDS);
    assert Before(rest, LINE_ENDS) == [];
  }

  /** The command buffer and the bare token name the same program. */
  lemma SameProgram(img: Image, cmd: seq<byte>, name: seq<byte>, stack: seq<byte>)
    requires ValidImage(img) && |stack| == 4 && CString(cmd) == name && NUL in cmd
    ensures Scannable(cmd, NAME_LENGTH) && Lookup(img.dentries, cmd) == Lookup(img.dentries, name)
    ensures Executable(img, cmd, stack) == Executable(img, name, stack)
  {
    BoundedCString(cmd, NAME_LENGTH);
    LookupSameName(img.dentries, cmd, name);
  }
}
