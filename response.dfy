/**
 * What the server writes on the connection: the response head that
 * `send_error`, `send_file` and the CGI handler print with `dprintf`, the
 * error page of `send_error`, and the read/write loop that copies a file
 * to the connection through a 1024-byte buffer.
 */
module Response {
  import opened Libc
  import opened Wrappers

  /** The size of the copy buffer (`char buffer[1024]`). */
  const ChunkSize: nat := 1024

  /** A response head: status line, `Content-Type` and `Content-Length`. */
  datatype Head = Head(code: nat, reason: string, contentType: string, length: nat)

  /**
   * The head as printed: `HTTP/1.0 <code> <reason>`, the two header lines
   * and the empty line, each ended by CR LF.
   */
  function HeadText(h: Head): string
  {
    "HTTP/1.0 " + (Decimal(h.code) + (" " + (h.reason + ("\r\nContent-Type: " + (h.contentType +
      ("\r\nContent-Length: " + (Decimal(h.length) + "\r\n\r\n")))))))
  }

  /** The body `send_error` renders: `<html><body><h1><code> <message></h1></body></html>` and CR LF. */
  function ErrorBody(code: nat, message: string): string
  {
    "<html><body><h1>" + Decimal(code) + " " + message + "</h1></body></html>\r\n"
  }

  /**
   * `send_error(fd, code, message)`: a `text/html` head whose declared
   * length is `strlen(message) + 20`, followed by the rendered body.
   */
  function ErrorPage(code: nat, message: string): (page: string)
    ensures HeadText(Head(code, message, "text/html", |message| + 20)) <= page
    ensures 100 <= code < 1000 ==>
      |page| == |HeadText(Head(code, message, "text/html", |message| + 20))| + (|message| + 20) + 21
  {
    var page := HeadText(Head(code, message, "text/html", |message| + 20)) + ErrorBody(code, message);
    if 100 <= code < 1000 then ErrorBodyLength(code, message); page else page
  }

  /** For a three-digit code the rendered body is 41 characters longer than the message. */
  lemma ErrorBodyLength(code: nat, message: string)
    requires 100 <= code < 1000
    ensures |ErrorBody(code, message)| == |message| + 41
  {
    DecimalLength3(code);
  }

  // ---------------------------------------------------------------------------
  // Reading a response back
  // ---------------------------------------------------------------------------

  /** A head read off the wire and the bytes that follow it. */
  datatype Parsed = Parsed(head: Head, after: string)

  /** A number read off the wire and what follows it. */
  datatype Number = Number(value: nat, rest: string)

  function Expect(s: string, literal: string): (r: Option<string>)
    ensures r.Some? <==> StartsWith(s, literal)
    ensures r.Some? ==> s == literal + r.value
  {
    if StartsWith(s, literal) then Some(s[|literal|..]) else None
  }

  function ReadNumber(s: string): (r: Option<Number>)
    ensures r.Some? ==> |r.value.rest| < |s|
  {
    var n := DigitRun(s);
    if n == 0 then None else Some(Number(DigitsValue(s[..n]), s[n..]))
  }

  /** The text up to the next CR, and what follows it. */
  function ReadLine(s: string): (r: (string, string))
    ensures r.0 + r.1 == s && '\r' !in r.0
  {
    var n := RunLen(s, {'\r'});
    assert s == s[..n] + s[n..];
    (s[..n], s[n..])
  }

  /**
   * How a client reads a head off the wire: the literal parts must match,
   * the code and the length are decimal numbers, the reason and the
   * content type run up to the next CR.
   */
  function ReadHead(s: string): Option<Parsed>
  {
    var a :- Expect(s, "HTTP/1.0 ");
    var code :- ReadNumber(a);
    var b :- Expect(code.rest, " ");
    var (reason, c) := ReadLine(b);
    var d :- Expect(c, "\r\nContent-Type: ");
    var (contentType, e) := ReadLine(d);
    var f :- Expect(e, "\r\nContent-Length: ");
    var length :- ReadNumber(f);
    var g :- Expect(length.rest, "\r\n\r\n");
    Some(Parsed(Head(code.value, reason, contentType, length.value), g))
  }

  lemma ExpectAppend(literal: string, rest: string)
    ensures Expect(literal + rest, literal) == Some(rest)
  {
    assert (literal + rest)[..|literal|] == literal;
    assert (literal + rest)[|literal|..] == rest;
  }

  lemma ReadNumberDecimal(n: nat, rest: string)
    requires rest != [] && !IsDigit(rest[0])
    ensures ReadNumber(Decimal(n) + rest) == Some(Number(n, rest))
  {
    var s := Decimal(n) + rest;
    var k := |Decimal(n)|;
    assert s[..k] == Decimal(n) && s[k..] == rest;
    DigitRunIs(s, k);
    DigitsValueDecimal(n);
  }

  lemma ReadLineStops(w: string, rest: string)
    requires '\r' !in w && rest != [] && rest[0] == '\r'
    ensures ReadLine(w + rest) == (w, rest)
  {
    var s := w + rest;
    forall i | 0 <= i < |w| ensures s[i] !in {'\r'} {
      assert s[i] == w[i];
    }
    RunLenIs(s, {'\r'}, |w|);
    assert s[..|w|] == w && s[|w|..] == rest;
  }

  /**
   * Reading back a printed head gives the head and the bytes after it,
   * provided the reason and the content type hold no CR.
   */
  lemma ReadHeadText(h: Head, body: string)
    requires '\r' !in h.reason && '\r' !in h.contentType
    ensures ReadHead(HeadText(h) + body) == Some(Parsed(h, body))
  {
    var tail4 := "\r\n\r\n" + body;
    var tail3 := Decimal(h.length) + tail4;
    var tail2 := "\r\nContent-Length: " + tail3;
    var tail1 := h.contentType + tail2;
    var tail0 := "\r\nContent-Type: " + tail1;
    var rtail := h.reason + tail0;
    var sp := " " + rtail;
    var all := Decimal(h.code) + sp;
    assert HeadText(h) + body == "HTTP/1.0 " + all;
    ExpectAppend("HTTP/1.0 ", all);
    ReadNumberDecimal(h.code, sp);
    ExpectAppend(" ", rtail);
    ReadLineStops(h.reason, tail0);
    ExpectAppend("\r\nContent-Type: ", tail1);
    ReadLineStops(h.contentType, tail2);
    ExpectAppend("\r\nContent-Length: ", tail3);
    ReadNumberDecimal(h.length, tail4);
    ExpectAppend("\r\n\r\n", body);
  }

  /** The head of an error page reads back as the code, the message and the declared length. */
  lemma ErrorPageHead(code: nat, message: string)
    requires '\r' !in message
    ensures ReadHead(ErrorPage(code, message))
         == Some(Parsed(Head(code, message, "text/html", |message| + 20), ErrorBody(code, message)))
  {
    ReadHeadText(Head(code, message, "text/html", |message| + 20), ErrorBody(code, message));
  }

  /**
   * A client that trusts `Content-Length` takes that many bytes after the
   * head; `Framed` is that body and what is left over.
   */
  datatype Framed = Framed(head: Head, body: string, excess: string)

  function ReadResponse(s: string): (r: Option<Framed>)
    ensures r.Some? ==> |r.value.body| == r.value.head.length
  {
    var p :- ReadHead(s);
    if |p.after| < p.head.length then None
    else Some(Framed(p.head, p.after[..p.head.length], p.after[p.head.length..]))
  }

  /** A head followed by exactly `length` bytes is read back as that head and body. */
  lemma ReadResponseExact(h: Head, body: string)
    requires '\r' !in h.reason && '\r' !in h.contentType && |body| == h.length
    ensures ReadResponse(HeadText(h) + body) == Some(Framed(h, body, []))
  {
    ReadHeadText(h, body);
    var p := ReadHead(HeadText(h) + body).value;
    assert p.after[..p.head.length] == body && p.after[p.head.length..] == [];
  }

  /**
   * The error page declares 21 bytes fewer than it renders: a client that
   * trusts the header reads a body cut before `\r\n` and the end of
   * `</html>`, and 21 bytes are left over on the connection.
   */
  lemma ErrorPageRead(code: nat, message: string)
    requires 100 <= code < 1000 && '\r' !in message
    ensures ReadResponse(ErrorPage(code, message)).Some?
    ensures var r := ReadResponse(ErrorPage(code, message)).value;
      && r.head == Head(code, message, "text/html", |message| + 20)
      && r.body == ErrorBody(code, message)[..|message| + 20]
      && |r.excess| == 21
  {
    var body := ErrorBody(code, message);
    ErrorBodyLength(code, message);
    ReadHeadText(Head(code, message, "text/html", |message| + 20), body);
  }

  // ---------------------------------------------------------------------------
  // The copy loop
  // ---------------------------------------------------------------------------

  /** The sizes of the successive `write`s that copy `n` bytes through the buffer. */
  function ChunkSizes(n: nat): seq<nat>
    decreases n
  {
    if n == 0 then [] else if n <= ChunkSize then [n] else [ChunkSize] + ChunkSizes(n - ChunkSize)
  }

  function Sum(xs: seq<nat>): nat
  {
    if xs == [] then 0 else xs[0] + Sum(xs[1..])
  }

  /**
   * The writes add up to the file, every write is 1 to 1024 bytes, all but
   * the last are full, and there are `ceil(n / 1024)` of them.
   */
  lemma {:induction false} ChunkSizesShape(n: nat)
    ensures Sum(ChunkSizes(n)) == n
    ensures |ChunkSizes(n)| == (n + ChunkSize - 1) / ChunkSize
    ensures forall k :: 0 <= k < |ChunkSizes(n)| ==> 0 < ChunkSizes(n)[k] <= ChunkSize
    ensures forall k :: 0 <= k < |ChunkSizes(n)| - 1 ==> ChunkSizes(n)[k] == ChunkSize
    decreases n
  {
    if n > ChunkSize {
      ChunkSizesShape(n - ChunkSize);
      var cs := ChunkSizes(n);
      assert cs == [ChunkSize] + ChunkSizes(n - ChunkSize);
      assert cs[1..] == ChunkSizes(n - ChunkSize);
    }
  }

  /**
   * `read(file_fd, buffer, sizeof(buffer))` on a regular file whose bytes
   * are `data`, positioned at `offset`: fills the front of the buffer with
   * the next bytes and returns their number, 0 at the end of the file.
   */
  method ReadChunk(data: seq<Octet>, offset: nat, buffer: array<Octet>) returns (bytes: nat)
    requires offset <= |data| && buffer.Length == ChunkSize
    modifies buffer
    ensures bytes == Min(ChunkSize, |data| - offset)
    ensures buffer[..bytes] == data[offset..offset + bytes]
    ensures buffer[bytes..] == old(buffer[bytes..])
  {
    bytes := Min(ChunkSize, |data| - offset);
    forall i | 0 <= i < bytes {
      buffer[i] := data[offset + i];
    }
  }

  /**
   * The loop `while ((bytes = read(...)) > 0) write(fd, buffer, bytes)`:
   * returns what reaches the connection, the size of each `write`, and
   * how many times `read` was called.
   */
  method Relay(data: seq<Octet>) returns (sent: seq<Octet>, writes: seq<nat>, readCalls: nat)
    ensures sent == data
    ensures writes == ChunkSizes(|data|)
    ensures readCalls == |writes| + 1
  {
    var buffer := new Octet[ChunkSize];
    var offset: nat := 0;
    sent, writes := [], [];
    var bytes := ReadChunk(data, offset, buffer);
    readCalls := 1;
    while bytes > 0
      invariant buffer.Length == ChunkSize && offset + bytes <= |data|
      invariant bytes == Min(ChunkSize, |data| - offset)
      invariant buffer[..bytes] == data[offset..offset + bytes]
      invariant sent == data[..offset]
      invariant writes + ChunkSizes(|data| - offset) == ChunkSizes(|data|)
      invariant readCalls == |writes| + 1
      decreases |data| - offset
    {
      assert ChunkSizes(|data| - offset) == [bytes] + ChunkSizes(|data| - offset - bytes);
      assert data[..offset] + data[offset..offset + bytes] == data[..offset + bytes];
      sent := sent + buffer[..bytes];
      writes := writes + [bytes];
      offset := offset + bytes;
      bytes := ReadChunk(data, offset, buffer);
      readCalls := readCalls + 1;
    }
    assert offset == |data| && data[..offset] == data;
    assert ChunkSizes(|data| - offset) == [];
    assert writes + [] == writes;
  }
}
