/**
 * `send_file(fd, path, send_contents)`: the status chain over `stat` and
 * `open`, the `200 OK` head with the file's size, and the copy of the
 * file's bytes when the contents are asked for.
 */
module StaticFile {
  import opened Libc
  import opened Wrappers
  import opened FileSystem
  import opened Response

  /** Where the status chain ends. */
  datatype Status = NotFound | Denied | ServerError | Serve(size: nat, data: seq<Octet>)

  /**
   * The chain of checks, in the order the source makes them: `stat`, the
   * file type, the other-read bit, then `open`, whose `EACCES` is reported
   * as 403 and any other failure as 500.
   */
  function Decide(fs: Fs, path: string): (s: Status)
    ensures s == NotFound <==> path !in fs.files
    ensures s == Denied <==> (path in fs.files &&
      (!IsRegular(fs.files[path].mode) || !OthersMayRead(fs.files[path].mode) || Open(fs, path) == OpenFailed(EACCES)))
    ensures s == ServerError <==> (path in fs.files && IsRegular(fs.files[path].mode) && OthersMayRead(fs.files[path].mode)
      && Open(fs, path).OpenFailed? && Open(fs, path).errno != EACCES)
    ensures s.Serve? <==> (path in fs.files && IsRegular(fs.files[path].mode) && OthersMayRead(fs.files[path].mode)
      && Open(fs, path).Opened?)
    ensures s.Serve? ==> s.size == |s.data| && s.data == fs.files[path].data
  {
    match Stat(fs, path)
    case None => NotFound
    case Some(st) =>
      if !IsRegular(st.mode) then Denied
      else if !OthersMayRead(st.mode) then Denied
      else match Open(fs, path)
        case OpenFailed(errno) => if errno == EACCES then Denied else ServerError
        case Opened(data) => Serve(st.size, data)
  }

  /** The `200 OK` head `send_file` prints for a file of `size` bytes. */
  function OkHead(size: nat): Head
  {
    Head(200, "OK", "text/html", size)
  }

  /** What `send_file` writes on the connection once the chain has ended in `s`. */
  function StatusResponse(s: Status, sendContents: bool): string
  {
    match s
    case NotFound => ErrorPage(404, "Not Found")
    case Denied => ErrorPage(403, "Permission Denied")
    case ServerError => ErrorPage(500, "Internal Server Error")
    case Serve(size, data) => HeadText(OkHead(size)) + (if sendContents then data else [])
  }

  /** What `send_file` writes on the connection. */
  function SendFileResponse(fs: Fs, path: string, sendContents: bool): string
  {
    StatusResponse(Decide(fs, path), sendContents)
  }

  /**
   * `send_file`: returns what it writes and how many times it calls `read`
   * on the file, which is never when the contents are not asked for.
   */
  method SendFile(fs: Fs, path: string, sendContents: bool) returns (wire: string, readCalls: nat)
    ensures wire == SendFileResponse(fs, path, sendContents)
    ensures readCalls == (if sendContents && Decide(fs, path).Serve? then |ChunkSizes(Decide(fs, path).size)| + 1 else 0)
  {
    readCalls := 0;
    var st := Stat(fs, path);
    if st.None? {
      wire := ErrorPage(404, "Not Found");
      return;
    }
    if !IsRegular(st.value.mode) {
      wire := ErrorPage(403, "Permission Denied");
      return;
    }
    if !OthersMayRead(st.value.mode) {
      wire := ErrorPage(403, "Permission Denied");
      return;
    }
    var file := Open(fs, path);
    if file.OpenFailed? {
      if file.errno == EACCES {
        wire := ErrorPage(403, "Permission Denied");
      } else {
        wire := ErrorPage(500, "Internal Server Error");
      }
      return;
    }
    wire := HeadText(OkHead(st.value.size));
    if sendContents {
      var sent, writes;
      sent, writes, readCalls := Relay(file.data);
      wire := wire + sent;
    }
  }

  /**
   * A served GET is read back by a client as a `200 OK` `text/html`
   * response whose body is exactly the file, with nothing left over.
   */
  lemma GetReadsFile(fs: Fs, path: string)
    requires Decide(fs, path).Serve?
    ensures ReadResponse(SendFileResponse(fs, path, true))
         == Some(Framed(OkHead(|fs.files[path].data|), fs.files[path].data, []))
  {
    ReadResponseExact(OkHead(|fs.files[path].data|), fs.files[path].data);
  }

  /** A served HEAD carries the same head as the GET and no byte after it. */
  lemma HeadHasNoBody(fs: Fs, path: string)
    requires Decide(fs, path).Serve?
    ensures ReadHead(SendFileResponse(fs, path, false)) == Some(Parsed(OkHead(|fs.files[path].data|), []))
    ensures SendFileResponse(fs, path, true) == SendFileResponse(fs, path, false) + fs.files[path].data
  {
    ReadHeadText(OkHead(|fs.files[path].data|), []);
    assert HeadText(OkHead(|fs.files[path].data|)) + [] == HeadText(OkHead(|fs.files[path].data|));
  }

  /** The status code of each end of the chain. */
  function StatusCode(s: Status): nat
  {
    match s
    case NotFound => 404
    case Denied => 403
    case ServerError => 500
    case Serve(_, _) => 200
  }

  /** The status a client reads off the response for each end of the chain. */
  lemma StatusResponseCode(s: Status, sendContents: bool)
    ensures ReadHead(StatusResponse(s, sendContents)).Some?
    ensures ReadHead(StatusResponse(s, sendContents)).value.head.code == StatusCode(s)
  {
    match s
    case NotFound => ErrorPageHead(404, "Not Found");
    case Denied => ErrorPageHead(403, "Permission Denied");
    case ServerError => ErrorPageHead(500, "Internal Server Error");
    case Serve(size, data) => ReadHeadText(OkHead(size), if sendContents then data else []);
  }

  /** The status a client reads off the response `send_file` writes. */
  lemma SendFileStatus(fs: Fs, path: string, sendContents: bool)
    ensures ReadHead(SendFileResponse(fs, path, sendContents)).Some?
    ensures ReadHead(SendFileResponse(fs, path, sendContents)).value.head.code == StatusCode(Decide(fs, path))
  {
    StatusResponseCode(Decide(fs, path), sendContents);
  }
}
