/**
 * The second part of `handle_cgi_request`: the fork, the child that sends
 * the program's standard output to a capture file named after its process
 * id, and the parent that waits, then answers with the capture file's
 * size and contents and removes it.
 */
module CgiProcess {
  import opened Libc
  import opened Wrappers
  import opened FileSystem
  import opened Response
  import opened Cgi

  /** What `fork()` returned to the server: -1, or the child's process id. */
  datatype Fork = ForkFailed | Forked(pid: nat)

  /**
   * How the child ended: it could not create the capture file, could not
   * redirect its standard output to it, could not start the program, or
   * the program ran and wrote `stdout`.
   */
  datatype ChildRun = CreateFailed | RedirectFailed | ExecFailed | Ran(stdout: seq<Octet>)

  /** The `execvp(program, args)` call the child makes. */
  datatype Exec = Exec(file: string, argv: seq<string>)

  /** What the handler leaves behind: the bytes on the connection, the files, the program started. */
  datatype Outcome = Outcome(wire: string, fs: Fs, exec: Option<Exec>)

  const InternalError: string := "Internal Server Error"

  /** `snprintf(temp_filename, 256, "/tmp/cgi_output_%d.txt", pid)`. */
  function CaptureName(pid: nat): string
  {
    "/tmp/cgi_output_" + Decimal(pid) + ".txt"
  }

  /** Different children never share a capture file. */
  lemma CaptureNameInjective(m: nat, n: nat)
    requires CaptureName(m) == CaptureName(n)
    ensures m == n
  {
    var a, b := CaptureName(m), CaptureName(n);
    assert |Decimal(m)| == |Decimal(n)|;
    assert a[16..16 + |Decimal(m)|] == Decimal(m);
    assert b[16..16 + |Decimal(n)|] == Decimal(n);
    DecimalInjective(m, n);
  }

  /** The name always fits the 256-byte buffer, so `snprintf` never cuts it. */
  lemma CaptureNameFits(pid: nat)
    requires pid < 0x8000_0000
    ensures |CaptureName(pid)| < 256
  {
    DecimalBound(pid);
  }

  /**
   * The child: `open(O_WRONLY | O_CREAT | O_TRUNC)` of the capture file,
   * `dup2` onto standard output, then `execvp`; the files it leaves and
   * the program it starts, if it gets that far.
   */
  function ChildEffect(fs: Fs, name: string, exec: Exec, child: ChildRun): (r: (Fs, Option<Exec>))
    ensures child.CreateFailed? ==> r.0 == fs
    ensures !child.CreateFailed? ==> name in r.0.files
  {
    match child
    case CreateFailed => (fs, None)
    case RedirectFailed => (CreateTruncated(fs, name), None)
    case ExecFailed => (CreateTruncated(fs, name), Some(exec))
    case Ran(stdout) => (WriteAll(CreateTruncated(fs, name), name, stdout), Some(exec))
  }

  /** The `200 OK` head of a CGI answer: plain text, the capture file's size. */
  function CgiHead(size: nat): Head
  {
    Head(200, "OK", "text/plain", size)
  }

  /**
   * The parent after `waitpid`: `stat` of the capture file (500 when it
   * fails), the head, then `open` (a 500 page after the head when it
   * fails), the copy of the file, and `remove`.
   */
  function ParentAnswer(fs: Fs, name: string): (r: (string, Fs))
    ensures r.1 == if name in fs.files && name !in fs.openErrors then Remove(fs, name) else fs
    ensures name in fs.files ==> HeadText(CgiHead(|fs.files[name].data|)) <= r.0
  {
    match Stat(fs, name)
    case None => (ErrorPage(500, InternalError), fs)
    case Some(st) =>
      var head := HeadText(CgiHead(st.size));
      match Open(fs, name)
      case OpenFailed(_) => (head + ErrorPage(500, InternalError), fs)
      case Opened(data) => (head + data, Remove(fs, name))
  }

  /** What `handle_cgi_request` does for the target `t` (the C string in `filename`). */
  function CgiOutcome(t: string, fs: Fs, fork: Fork, child: ChildRun): (out: Outcome)
    requires |t| >= PrefixLength
    ensures fork.ForkFailed? ==> out.fs == fs && out.exec.None?
    ensures fork.Forked? ==> (out.exec.Some? <==> child.ExecFailed? || child.Ran?)
    ensures out.exec.Some? ==> out.exec.value == Exec(Program(t), Args(t))
  {
    match fork
    case ForkFailed => Outcome(ErrorPage(500, InternalError), fs, None)
    case Forked(pid) =>
      var name := CaptureName(pid);
      var (fs1, exec) := ChildEffect(fs, name, Exec(Program(t), Args(t)), child);
      var (wire, fs2) := ParentAnswer(fs1, name);
      Outcome(wire, fs2, exec)
  }

  /**
   * `execvp` reading its argument vector: the C strings at the indices in
   * `args`, up to the NULL.
   */
  method ReadArgv(buf: seq<char>, args: array<int>, argCount: nat) returns (argv: seq<string>)
    requires argCount < args.Length && args[argCount] == NULL
    requires forall k :: 0 <= k < argCount ==> 0 <= args[k] < |buf|
    ensures |argv| == argCount
    ensures forall k :: 0 <= k < argCount ==> argv[k] == CStrAt(buf, args[k])
  {
    argv := [];
    var i := 0;
    while args[i] != NULL
      invariant 0 <= i <= argCount && |argv| == i
      invariant forall k :: 0 <= k < i ==> argv[k] == CStrAt(buf, args[k])
      decreases argCount - i
    {
      argv := argv + [CStrAt(buf, args[i])];
      i := i + 1;
    }
  }

  /**
   * `handle_cgi_request(fd, filename)`: splits the target in place, forks,
   * and answers as `CgiOutcome` says.
   */
  method HandleCgi(filename: array<char>, fs: Fs, fork: Fork, child: ChildRun) returns (out: Outcome)
    requires filename.Length == BufferSize
    requires PrefixLength <= |CStr(filename[..])| < BufferSize
    modifies filename
    ensures var t := CStr(old(filename[..]));
      forall i :: 0 <= i < BufferSize ==> filename[i] == if IsCut(t, i) then NUL else old(filename[i])
    ensures out == CgiOutcome(CStr(old(filename[..])), fs, fork, child)
  {
    ghost var t := CStr(filename[..]);
    var program, args, argCount := SplitTarget(filename);
    if fork.ForkFailed? {
      return Outcome(ErrorPage(500, InternalError), fs, None);
    }
    var name := CaptureName(fork.pid);
    var argv := ReadArgv(filename[..], args, argCount);
    assert argv == Args(t);
    var path := CStrAt(filename[..], program);
    var effect := ChildEffect(fs, name, Exec(path, argv), child);
    var fs1, exec := effect.0, effect.1;
    var st := Stat(fs1, name);
    if st.None? {
      return Outcome(ErrorPage(500, InternalError), fs1, exec);
    }
    var wire := HeadText(CgiHead(st.value.size));
    var capture := Open(fs1, name);
    if capture.OpenFailed? {
      return Outcome(wire + ErrorPage(500, InternalError), fs1, exec);
    }
    var sent, writes, readCalls := Relay(capture.data);
    return Outcome(wire + sent, Remove(fs1, name), exec);
  }

  // ---------------------------------------------------------------------------
  // What the protocol guarantees
  // ---------------------------------------------------------------------------

  /** A failed fork answers 500, starts nothing and touches no file. */
  lemma ForkFailure(t: string, fs: Fs, child: ChildRun)
    requires |t| >= PrefixLength
    ensures var out := CgiOutcome(t, fs, ForkFailed, child);
      out.fs == fs && out.exec.None? && ReadHead(out.wire).Some? && ReadHead(out.wire).value.head.code == 500
  {
    ErrorPageHead(500, InternalError);
  }

  /** The parent's answer has a readable head: `200` when the capture file exists, else `500`. */
  lemma ParentStatus(fs: Fs, name: string)
    ensures ReadHead(ParentAnswer(fs, name).0).Some?
    ensures ReadHead(ParentAnswer(fs, name).0).value.head.code == if name in fs.files then 200 else 500
  {
    if name in fs.files {
      var size := |fs.files[name].data|;
      match Open(fs, name)
      case OpenFailed(_) => ReadHeadText(CgiHead(size), ErrorPage(500, InternalError));
      case Opened(data) => ReadHeadText(CgiHead(size), data);
    } else {
      ErrorPageHead(500, InternalError);
    }
  }

  /**
   * Every CGI answer starts with a head a client can read, and its status
   * is `200` or `500`: `500` exactly when the fork failed or no capture
   * file exists after the child.
   */
  lemma CgiStatus(t: string, fs: Fs, fork: Fork, child: ChildRun)
    requires |t| >= PrefixLength
    ensures var out := CgiOutcome(t, fs, fork, child);
      && ReadHead(out.wire).Some?
      && (ReadHead(out.wire).value.head.code == 200 || ReadHead(out.wire).value.head.code == 500)
      && (ReadHead(out.wire).value.head.code == 500 <==>
           (fork.ForkFailed? || CaptureName(fork.pid) !in ChildEffect(fs, CaptureName(fork.pid), Exec(Program(t), Args(t)), child).0.files))
  {
    if fork.Forked? {
      var name := CaptureName(fork.pid);
      var fs1 := ChildEffect(fs, name, Exec(Program(t), Args(t)), child).0;
      ParentStatus(fs1, name);
    } else {
      ErrorPageHead(500, InternalError);
    }
  }

  /**
   * The program receives the arguments alone: its `argv[0]` is the first
   * argument, not its own name, and with no argument `argv` is empty.
   */
  lemma ExecArguments(t: string, fs: Fs, pid: nat, child: ChildRun)
    requires |t| >= PrefixLength && (child.ExecFailed? || child.Ran?)
    ensures CgiOutcome(t, fs, Forked(pid), child).exec == Some(Exec(Program(t), Args(t)))
  {
  }

  /** The program and arguments of a target built by `CgiTarget` are the ones it was built from. */
  lemma ExecOfTarget(program: string, args: seq<string>, fs: Fs, pid: nat, child: ChildRun)
    requires forall i :: 0 <= i < |program| ==> program[i] != '?'
    requires forall k :: 0 <= k < |args| ==> args[k] != [] && '&' !in args[k]
    requires child.ExecFailed? || child.Ran?
    ensures CgiOutcome(CgiTarget(program, args), fs, Forked(pid), child).exec == Some(Exec(program, args))
  {
    SplitJoin(program, args);
  }

  /** A capture file the parent can open is sent whole after its head, then removed. */
  lemma ParentServes(fs: Fs, name: string)
    requires name in fs.files && name !in fs.openErrors
    ensures ParentAnswer(fs, name) == (HeadText(CgiHead(|fs.files[name].data|)) + fs.files[name].data, Remove(fs, name))
  {
  }

  /**
   * A program that runs is answered with exactly what it wrote, framed by
   * a `200 OK` plain-text head; the capture file is then removed, so the
   * files are as before except that a stale file of the same name is gone.
   */
  lemma RunAnswered(t: string, fs: Fs, pid: nat, stdout: seq<Octet>)
    requires |t| >= PrefixLength && CaptureName(pid) !in fs.openErrors
    ensures var out := CgiOutcome(t, fs, Forked(pid), Ran(stdout));
      && ReadResponse(out.wire) == Some(Framed(CgiHead(|stdout|), stdout, []))
      && out.fs == Remove(fs, CaptureName(pid))
  {
    var name := CaptureName(pid);
    var fs1 := WriteAll(CreateTruncated(fs, name), name, stdout);
    assert ChildEffect(fs, name, Exec(Program(t), Args(t)), Ran(stdout)).0 == fs1;
    ParentServes(fs1, name);
    assert fs1.files[name].data == stdout;
    assert Remove(fs1, name).files == Remove(fs, name).files;
    ReadResponseExact(CgiHead(|stdout|), stdout);
  }

  /**
   * The capture file is removed exactly when the parent could `stat` and
   * `open` it; on every error path it stays behind.
   */
  lemma RemovedOnlyWhenServed(t: string, fs: Fs, pid: nat, child: ChildRun)
    requires |t| >= PrefixLength
    ensures var name := CaptureName(pid);
      var fs1 := ChildEffect(fs, name, Exec(Program(t), Args(t)), child).0;
      var out := CgiOutcome(t, fs, Forked(pid), child);
      && (name in fs1.files && Open(fs1, name).Opened? ==> out.fs == Remove(fs1, name))
      && (!(name in fs1.files && Open(fs1, name).Opened?) ==> out.fs == fs1)
  {
  }

  /**
   * When the capture file cannot be opened after its head was sent, a
   * second, complete `500` response follows the `200 OK` head on the same
   * connection: a client reads status 200, and a body that is the start of
   * the error page, cut at the declared length.
   */
  lemma OpenFailureAfterHead(t: string, fs: Fs, pid: nat, child: ChildRun)
    requires |t| >= PrefixLength
    requires var fs1 := ChildEffect(fs, CaptureName(pid), Exec(Program(t), Args(t)), child).0;
      CaptureName(pid) in fs1.files && CaptureName(pid) in fs.openErrors
    ensures var fs1 := ChildEffect(fs, CaptureName(pid), Exec(Program(t), Args(t)), child).0;
      var size := |fs1.files[CaptureName(pid)].data|;
      var out := CgiOutcome(t, fs, Forked(pid), child);
      && out.wire == HeadText(CgiHead(size)) + ErrorPage(500, InternalError)
      && ReadHead(out.wire) == Some(Parsed(CgiHead(size), ErrorPage(500, InternalError)))
  {
    var fs1 := ChildEffect(fs, CaptureName(pid), Exec(Program(t), Args(t)), child).0;
    ReadHeadText(CgiHead(|fs1.files[CaptureName(pid)].data|), ErrorPage(500, InternalError));
  }

  /**
   * A child that cannot create its capture file leaves a stale file of the
   * same name in place, and the parent serves that file as if the program
   * had written it.
   */
  lemma StaleCaptureServed(t: string, fs: Fs, pid: nat)
    requires |t| >= PrefixLength
    requires CaptureName(pid) in fs.files && CaptureName(pid) !in fs.openErrors
    ensures var stale := fs.files[CaptureName(pid)].data;
      var out := CgiOutcome(t, fs, Forked(pid), CreateFailed);
      && out.exec.None?
      && ReadResponse(out.wire) == Some(Framed(CgiHead(|stale|), stale, []))
  {
    var stale := fs.files[CaptureName(pid)].data;
    ReadResponseExact(CgiHead(|stale|), stale);
  }

  /** Without a stale file, a child that fails before `execvp` gets its request answered 500. */
  lemma CreateFailureAnswered(t: string, fs: Fs, pid: nat)
    requires |t| >= PrefixLength && CaptureName(pid) !in fs.files
    ensures var out := CgiOutcome(t, fs, Forked(pid), CreateFailed);
      out.fs == fs && ReadHead(out.wire).Some? && ReadHead(out.wire).value.head.code == 500
  {
    ErrorPageHead(500, InternalError);
  }

  /** A program that cannot be started leaves an empty capture file: the answer is `200 OK` with no body. */
  lemma ExecFailureAnsweredEmpty(t: string, fs: Fs, pid: nat)
    requires |t| >= PrefixLength && CaptureName(pid) !in fs.openErrors
    ensures ReadResponse(CgiOutcome(t, fs, Forked(pid), ExecFailed).wire) == Some(Framed(CgiHead(0), [], []))
  {
    var name := CaptureName(pid);
    var fs1 := CreateTruncated(fs, name);
    assert ChildEffect(fs, name, Exec(Program(t), Args(t)), ExecFailed).0 == fs1;
    ParentServes(fs1, name);
    assert HeadText(CgiHead(0)) + fs1.files[name].data == HeadText(CgiHead(0)) + [];
    ReadResponseExact(CgiHead(0), []);
  }
}
