/**
 * `handle_request`: parse the request line, answer 400 when it does not
 * parse, refuse targets holding `..` or `~` with 403, hand targets under
 * `/cgi-like/` to the CGI handler whatever the method, serve the file
 * named by the rest of the target for `HEAD` and `GET`, and answer 501 to
 * any other method.
 */
module Dispatch {
  import opened Libc
  import opened Wrappers
  import opened FileSystem
  import opened Response
  import opened RequestLine
  import opened StaticFile
  import opened Cgi
  import opened CgiProcess

  /** Where a parsed request goes. */
  datatype Route =
    | Forbidden
    | CgiLike
    | Static(path: string, sendContents: bool)
    | NotImplemented

  /** The `strstr` test for a path that could leave the served directory or name a home directory. */
  predicate Traversal(target: string)
  {
    Contains(target, "..") || Contains(target, "~")
  }

  /**
   * The routing chain, in the source's order. The file served is the
   * target without its first character (`filename + 1`); the method is
   * compared with `strcmp`, so case matters.
   */
  function RouteOf(r: Request): (route: Route)
    requires ValidRequest(r)
    ensures route.Forbidden? <==> Traversal(r.target)
    ensures route.CgiLike? <==> !Traversal(r.target) && StartsWith(r.target, "/cgi-like/")
    ensures route.Static? ==>
      && (r.verb == "GET" || r.verb == "HEAD")
      && route.path == r.target[1..]
      && (route.sendContents <==> r.verb == "GET")
    ensures route.NotImplemented? <==>
      !Traversal(r.target) && !StartsWith(r.target, "/cgi-like/") && r.verb != "GET" && r.verb != "HEAD"
  {
    if Traversal(r.target) then Forbidden
    else if StartsWith(r.target, "/cgi-like/") then CgiLike
    else if r.verb == "HEAD" then Static(r.target[1..], false)
    else if r.verb == "GET" then Static(r.target[1..], true)
    else NotImplemented
  }

  /**
   * What the server cannot decide itself when it answers one request: the
   * files, what `fork` returns and how the CGI child ends.
   */
  datatype World = World(fs: Fs, fork: Fork, child: ChildRun)

  /** The answer to a request that parsed. */
  function Answer(r: Request, w: World): Outcome
    requires ValidRequest(r)
  {
    match RouteOf(r)
    case Forbidden => Outcome(ErrorPage(403, "Permission Denied"), w.fs, None)
    case CgiLike => CgiOutcome(r.target, w.fs, w.fork, w.child)
    case Static(path, sendContents) => Outcome(SendFileResponse(w.fs, path, sendContents), w.fs, None)
    case NotImplemented => Outcome(ErrorPage(501, "Not Implemented"), w.fs, None)
  }

  /** What `handle_request` does with the line `getline` read from the connection. */
  function Respond(line: string, w: World): Outcome
  {
    match ParseRequest(line)
    case None => Outcome(ErrorPage(400, "Bad Request"), w.fs, None)
    case Some(r) => Answer(r, w)
  }

  /**
   * The 256-byte `filename` buffer after `sscanf`: the target and the NUL
   * that ends it. The bytes after that NUL are whatever the stack held;
   * they are never read, and here they are NUL too.
   */
  method TargetBuffer(target: string) returns (filename: array<char>)
    requires |target| < BufferSize && NUL !in target
    ensures fresh(filename) && filename.Length == BufferSize
    ensures CStr(filename[..]) == target
  {
    filename := new char[BufferSize](i => if 0 <= i < |target| then target[i] else NUL);
    assert filename[..][0..|target|] == target;
    CStrAtIs(filename[..], 0, target);
    assert filename[..][0..] == filename[..];
  }

  /** `handle_request`, on the line read and the world the request meets. */
  method HandleRequest(line: string, w: World) returns (out: Outcome)
    ensures out == Respond(line, w)
  {
    var parsed := ParseRequest(line);
    if parsed.None? {
      return Outcome(ErrorPage(400, "Bad Request"), w.fs, None);
    }
    out := HandleParsed(parsed.value, w);
  }

  /** The routing chain of `handle_request` on the buffers `sscanf` filled. */
  method HandleParsed(r: Request, w: World) returns (out: Outcome)
    requires ValidRequest(r)
    ensures out == Answer(r, w)
  {
    var filename := TargetBuffer(r.target);
    var target := CStr(filename[..]);
    if Contains(target, "..") || Contains(target, "~") {
      return Outcome(ErrorPage(403, "Permission Denied"), w.fs, None);
    }
    if StartsWith(target, "/cgi-like/") {
      out := HandleCgi(filename, w.fs, w.fork, w.child);
      return;
    }
    var sendContents;
    if r.verb == "HEAD" {
      sendContents := false;
    } else if r.verb == "GET" {
      sendContents := true;
    } else {
      return Outcome(ErrorPage(501, "Not Implemented"), w.fs, None);
    }
    var wire, readCalls := SendFile(w.fs, target[1..], sendContents);
    out := Outcome(wire, w.fs, None);
  }

  // ---------------------------------------------------------------------------
  // What a client sees
  // ---------------------------------------------------------------------------

  /**
   * Every answer starts with a head a client can read; its status follows
   * the route: 400, 403 and 501 for the server's own refusals, the status
   * chain of `send_file` for a file, and 200 or 500 for a CGI program.
   */
  lemma RespondStatus(line: string, w: World)
    ensures ReadHead(Respond(line, w).wire).Some?
    ensures var code := ReadHead(Respond(line, w).wire).value.head.code;
      && (ParseRequest(line).None? ==> code == 400)
      && (ParseRequest(line).Some? ==> RouteAllows(ParseRequest(line).value, w, code))
  {
    match ParseRequest(line)
    case None => ErrorPageHead(400, "Bad Request");
    case Some(r) => AnswerStatus(r, w);
  }

  /**
   * The statuses a route can answer with: 403, 501, `send_file`'s status
   * for the file, and 200 or 500 for a CGI program.
   */
  predicate RouteAllows(r: Request, w: World, code: nat)
    requires ValidRequest(r)
  {
    match RouteOf(r)
    case Forbidden => code == 403
    case CgiLike => code == 200 || code == 500
    case Static(path, _) => code == StatusCode(Decide(w.fs, path))
    case NotImplemented => code == 501
  }

  /** The status of the answer to a parsed request is one its route allows. */
  lemma AnswerStatus(r: Request, w: World)
    requires ValidRequest(r)
    ensures ReadHead(Answer(r, w).wire).Some?
    ensures RouteAllows(r, w, ReadHead(Answer(r, w).wire).value.head.code)
  {
    match RouteOf(r)
    case Forbidden => ErrorPageHead(403, "Permission Denied");
    case CgiLike => CgiStatus(r.target, w.fs, w.fork, w.child);
    case Static(path, sendContents) => SendFileStatus(w.fs, path, sendContents);
    case NotImplemented => ErrorPageHead(501, "Not Implemented");
  }

  /** Status 400 means exactly that the request line did not parse. */
  lemma BadRequestExactly(line: string, w: World)
    ensures ReadHead(Respond(line, w).wire).Some?
    ensures ReadHead(Respond(line, w).wire).value.head.code == 400 <==> ParseRequest(line).None?
  {
    RespondStatus(line, w);
  }

  /** An empty or blank line, or a closed connection, is a bad request. */
  lemma BlankLineIsBadRequest(line: string, w: World)
    requires Words(CStr(line)) == []
    ensures Respond(line, w) == Outcome(ErrorPage(400, "Bad Request"), w.fs, None)
  {
    BlankLineRejected(line);
  }

  /**
   * A target holding `..` or `~` is refused with 403 under every method,
   * under `/cgi-like/` too: nothing is read, started or written.
   */
  lemma TraversalRefused(line: string, w: World)
    requires ParseRequest(line).Some? && Traversal(ParseRequest(line).value.target)
    ensures Respond(line, w) == Outcome(ErrorPage(403, "Permission Denied"), w.fs, None)
    ensures ReadResponse(Respond(line, w).wire).Some?
    ensures ReadResponse(Respond(line, w).wire).value.head.code == 403
  {
    ErrorPageRead(403, "Permission Denied");
  }

  /** Neither a file served nor a program started has `..` or `~` in its path. */
  lemma NoTraversalReaches(r: Request, w: World)
    requires ValidRequest(r)
    ensures RouteOf(r).Static? ==> !Contains(RouteOf(r).path, "..") && !Contains(RouteOf(r).path, "~")
    ensures Answer(r, w).exec.Some? ==>
      !Contains(Answer(r, w).exec.value.file, "..") && !Contains(Answer(r, w).exec.value.file, "~")
  {
    if RouteOf(r).Static? {
      StaticPathSafe(r);
    }
    if Answer(r, w).exec.Some? {
      assert RouteOf(r) == CgiLike;
      ProgramSafe(r.target, w);
    }
  }

  lemma StaticPathSafe(r: Request)
    requires ValidRequest(r) && RouteOf(r).Static?
    ensures !Contains(RouteOf(r).path, "..") && !Contains(RouteOf(r).path, "~")
  {
    assert r.target == r.target[..1] + r.target[1..];
  }

  lemma ProgramSafe(t: string, w: World)
    requires |t| >= PrefixLength && !Traversal(t)
    requires CgiOutcome(t, w.fs, w.fork, w.child).exec.Some?
    ensures !Contains(CgiOutcome(t, w.fs, w.fork, w.child).exec.value.file, "..")
    ensures !Contains(CgiOutcome(t, w.fs, w.fork, w.child).exec.value.file, "~")
  {
    var file := CgiOutcome(t, w.fs, w.fork, w.child).exec.value.file;
    assert file == t[PrefixLength..QueryMark(t)];
    if Contains(file, "..") {
      ContainsSlice(t, PrefixLength, QueryMark(t), "..");
    }
    if Contains(file, "~") {
      ContainsSlice(t, PrefixLength, QueryMark(t), "~");
    }
  }

  /**
   * A target under `/cgi-like/` goes to the CGI handler whatever the
   * method: two request lines with the same such target and any methods
   * get the same answer.
   */
  lemma CgiIgnoresMethod(line1: string, line2: string, w: World)
    requires ParseRequest(line1).Some? && ParseRequest(line2).Some?
    requires ParseRequest(line1).value.target == ParseRequest(line2).value.target
    requires StartsWith(ParseRequest(line1).value.target, "/cgi-like/")
    ensures Respond(line1, w) == Respond(line2, w)
  {
  }

  /**
   * `GET` of any other target sends `send_file`'s full response for the
   * target without its first character, and changes no file.
   */
  lemma GetServesFile(line: string, w: World)
    requires ParseRequest(line).Some?
    requires var r := ParseRequest(line).value;
      r.verb == "GET" && !Traversal(r.target) && !StartsWith(r.target, "/cgi-like/")
    ensures var r := ParseRequest(line).value;
      Respond(line, w) == Outcome(SendFileResponse(w.fs, r.target[1..], true), w.fs, None)
  {
  }

  /**
   * `HEAD` and `GET` of the same file send the same head, and `HEAD` stops
   * there: the `GET` answer is the `HEAD` answer followed by the file's
   * bytes when the file is served, and the same error page otherwise.
   */
  lemma HeadIsGetWithoutBody(head: string, get: string, w: World)
    requires ParseRequest(head).Some? && ParseRequest(get).Some?
    requires ParseRequest(head).value.verb == "HEAD" && ParseRequest(get).value.verb == "GET"
    requires ParseRequest(head).value.target == ParseRequest(get).value.target
    requires var t := ParseRequest(get).value.target; !Traversal(t) && !StartsWith(t, "/cgi-like/")
    ensures var path := ParseRequest(get).value.target[1..];
      && (Decide(w.fs, path).Serve? ==> Respond(get, w).wire == Respond(head, w).wire + w.fs.files[path].data)
      && (!Decide(w.fs, path).Serve? ==> Respond(get, w).wire == Respond(head, w).wire)
  {
    var path := ParseRequest(get).value.target[1..];
    if Decide(w.fs, path).Serve? {
      HeadHasNoBody(w.fs, path);
    }
  }

  /**
   * Any method other than exactly `GET` or `HEAD` outside `/cgi-like/` is
   * answered 501; `strcmp` is case-sensitive, so `get` is one of them.
   */
  lemma OtherMethodsNotImplemented(line: string, w: World)
    requires ParseRequest(line).Some?
    requires var r := ParseRequest(line).value;
      r.verb != "GET" && r.verb != "HEAD" && !Traversal(r.target) && !StartsWith(r.target, "/cgi-like/")
    ensures Respond(line, w) == Outcome(ErrorPage(501, "Not Implemented"), w.fs, None)
    ensures ReadResponse(Respond(line, w).wire).Some?
    ensures ReadResponse(Respond(line, w).wire).value.head.code == 501
  {
    assert RouteOf(ParseRequest(line).value) == NotImplemented;
    ErrorPageRead(501, "Not Implemented");
  }

  /** Only a CGI request can change the files or start a program. */
  lemma OnlyCgiHasEffects(line: string, w: World)
    requires ParseRequest(line).None? || RouteOf(ParseRequest(line).value) != CgiLike
    ensures Respond(line, w).fs == w.fs && Respond(line, w).exec.None?
  {
  }
}
