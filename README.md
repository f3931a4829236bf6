# A verified model of a small HTTP/1.0 server and its client

The server (`httpd.c`) answers one request per connection:

- It reads the request line with `getline` and splits it with `sscanf("%15s %255s %15s")`.
- It refuses bad lines (400) and targets holding `..` or `~` (403).
- It runs the program named after `/cgi-like/` for targets under that prefix, whatever the method.
- It serves `HEAD` and `GET` of any other target from the file named by the target without its first character.
- It answers 501 to every other method.

A CGI request goes through these steps:

1. The target is split in place in the request's 256-byte buffer: the `?` becomes NUL, and `strtok` cuts the arguments at `&`.
2. The server forks.
3. The child redirects its standard output to `/tmp/cgi_output_<pid>.txt` and calls `execvp(program, args)`.
4. The parent waits, then sends a `200 OK` `text/plain` head with the capture file's size.
5. It copies the file to the connection through a 1024-byte buffer and removes it.

The client (`client.c`) accepts a server address and an optional port. The port is parsed with `strtol` and must be consumed whole and lie in 1024..65535. The default is 2828.

The modules follow the program:

- `wrappers.dfy` (`Wrappers`): `Option`
- `libc.dfy` (`Libc`): the libc behaviour the code relies on: `strspn`/`strcspn`, `strtok`'s tokens, `strstr`, NUL-terminated buffers, `printf("%d")`
- `response.dfy` (`Response`): the response head and `send_error`'s page, a reader that parses them back, and the 1024-byte copy loop
- `filesystem.dfy` (`FileSystem`): the files as a map with per-path `open` errors; `stat`, `open`, `O_CREAT|O_TRUNC`, writes, `remove`
- `request_line.dfy` (`RequestLine`): `parse_request`
- `static_file.dfy` (`StaticFile`): `send_file`
- `cgi.dfy` (`Cgi`): the first half of `handle_cgi_request`: the split of the target in place
- `cgi_process.dfy` (`CgiProcess`): the second half: fork, child, parent, relay, `remove`
- `dispatch.dfy` (`Dispatch`): `handle_request`
- `client.dfy` (`Client`): `validate_arguments`, `validate_port`, `strtol` and `main`'s choice of port

How the model is stated:

- Each operation with a loop or in-place update is a `method` proved against a specification function:
  - the split (`Cgi.SplitTarget`, writing NULs into an `array<char>` and filling an `array<int>` of offsets),
  - `execvp` reading `argv` (`CgiProcess.ReadArgv`),
  - the copy loop (`Response.Relay`),
  - `send_file`, the CGI handler and `handle_request`.
- The straight-line logic (routing, the status chain, parsing, formatting) consists of functions.
- Their meaning is pinned down by lemmas against independent partners:
  - the whitespace-separated words of the line,
  - `Tokens` (the pieces `strtok` returns),
  - a reader of the response head,
  - `Join`/`CgiTarget` (building a target from a program and arguments),
  - `Decimal` for `strtol`.

## Model

| member | source | states |
|---|---|---|
| Libc.TokensShape | httpd.c:166-171 | every piece `strtok` returns is non-empty and holds no delimiter |
| Libc.TokensCount | httpd.c:166-171 | a string of length L yields at most (L+1)/2 pieces |
| Libc.TokensJoin | httpd.c:166-171 | splitting a `&`-join of non-empty, `&`-free words gives back exactly those words |
| Libc.CStrAtIs | httpd.c:155 | the characters at `i` followed by a NUL are the C string that starts at `i` |
| Libc.ContainsSlice | httpd.c:129 | `strstr` finds in a string every pattern it finds in a part of it |
| Libc.DigitsValueDecimal | httpd.c:218 | the digits `%d` prints read back as the number |
| Libc.DecimalInjective | httpd.c:218 | distinct numbers print differently |
| Libc.DecimalBound | httpd.c:218 | a non-negative 32-bit `int` prints in at most 10 characters |
| Response.ErrorPage | httpd.c:22-31 | `send_error`'s output starts with a `text/html` head declaring `strlen(message)+20` bytes; for a three-digit code the page runs 21 bytes past that declared length |
| Response.ErrorBodyLength | httpd.c:22-31 | for a three-digit code the rendered page body is `strlen(message)+41` bytes, 21 more than the `Content-Length` the page declares |
| Response.ErrorPageHead | httpd.c:22-31 | the error page's head reads back as the code, the message, `text/html` and length `strlen(message)+20` |
| Response.ErrorPageRead | httpd.c:22-31 | a client trusting `Content-Length` gets the page body cut 21 bytes short, and 21 bytes are left over on the connection |
| Response.ReadHeadText | httpd.c:69-75 | a printed head is parsed back into the same code, reason, content type and length, followed by exactly the bytes after it |
| Response.ReadResponseExact | httpd.c:69-86 | a head followed by exactly `length` bytes is read as that head and body with nothing left over |
| Response.ChunkSizesShape | httpd.c:80-86 | the copy loop's writes add up to the file size; each is 1..1024 bytes; all but the last are full; there are ceil(n/1024) of them |
| Response.ReadChunk | httpd.c:82 | `read` fills the buffer's front with the next `min(1024, remaining)` bytes of the file and leaves the rest of the buffer alone |
| Response.Relay | httpd.c:80-86 | the loop sends exactly the file's bytes; its writes are `ChunkSizes(n)`; it calls `read` once more than it writes |
| RequestLine.ScanString | httpd.c:101 | one `%Ns` conversion stores a non-empty, whitespace-free field of at most N characters, and fails exactly when only whitespace is left |
| RequestLine.ScanStringWords | httpd.c:101 | a conversion takes the first word cut at the width, and what is cut off stays as the next word |
| RequestLine.ScanFields | httpd.c:101 | the conversions store at most one field each, in order, each non-empty, whitespace-free and no wider than its conversion |
| RequestLine.ScanFieldsWords | httpd.c:101 | when no word is wider than its conversion, the fields are exactly the leading words |
| RequestLine.ScanFieldsCount | httpd.c:101 | k words fill at least min(k, 3) conversions |
| RequestLine.ParseRequest | httpd.c:91-105 | an empty read (`getline` ≤ 0) fails; success is exactly three fields scanned; the fields have at most 15, 255 and 15 characters, are non-empty and hold no whitespace or NUL |
| RequestLine.ParseRequestWords | httpd.c:95-104 | a line whose words fit their buffers parses exactly when it has at least three words, into its first three; any further words are ignored |
| RequestLine.ThreeWordsParse | httpd.c:101-104 | three words always parse, however long they are |
| RequestLine.BlankLineRejected | httpd.c:95-104 | a line without a word never parses |
| RequestLine.OverlongMethodSpills | httpd.c:101 | a method longer than 15 characters is cut, its rest becomes the target, and the second word becomes the version |
| StaticFile.Decide | httpd.c:38-67 | the status chain, as if-and-only-if conditions: 404 exactly when `stat` fails; 403 for a non-regular file, no other-read bit or `EACCES`; 500 for any other `open` failure; otherwise the file's bytes |
| StaticFile.SendFile | httpd.c:33-89 | writes the response for the chain's end, and calls `read` only when contents are asked for and the file is served |
| StaticFile.GetReadsFile | httpd.c:69-86 | a served GET is read by a client as `200 OK` `text/html` whose body is exactly the file |
| StaticFile.HeadHasNoBody | httpd.c:69-79 | a served HEAD has the GET's head and no byte after it |
| StaticFile.StatusResponseCode | httpd.c:38-75 | the status a client reads is 404, 403, 500 or 200 according to the chain's end |
| StaticFile.SendFileStatus | httpd.c:33-75 | the status a client reads off `send_file`'s output is the chain's status |
| Cgi.QueryMark | httpd.c:156 | `strchr(program, '?')`: the first `?` after the prefix, or the end |
| Cgi.Program | httpd.c:155-162 | the program name is the text right after `/cgi-like/`: it holds no `?` and ends at the first `?` or at the end of the target |
| Cgi.Args | httpd.c:156-171 | every argument is non-empty and holds no `&`; a target without `?` has no argument |
| Cgi.SplitJoin | httpd.c:155-171 | a target built from a `?`-free program and any list of non-empty, `&`-free arguments, the empty list included, splits back into exactly them |
| Cgi.NoQuery | httpd.c:156-173 | without a `?` the whole rest is the program and there is no argument |
| Cgi.ArgsBound | httpd.c:157-173 | a target that fits the buffer has at most 122 arguments, so `args[arg_count]` stays inside `args[256]` |
| Cgi.StrTok | httpd.c:166-170 | one `strtok` call: it returns NULL when only `&`s are left, else the next piece, writing NUL at the `&` after it and resuming past that |
| Cgi.TokenStep | httpd.c:166-170 | the piece `strtok` finds is the first of the remaining `Tokens` |
| Cgi.CutToken | httpd.c:162-173 | after all cuts, every argument is a NUL-terminated string in place in the buffer |
| Cgi.CutProgram | httpd.c:155-162 | after all cuts, the program name is a NUL-terminated string at offset 10 |
| Cgi.StrTokStep | httpd.c:166-170 | each `strtok` call either ends the loop with every cut made, or yields the next argument and makes exactly the cut after it |
| Cgi.CollectArgs | httpd.c:160-173 | the `strtok` loop fills `args` with the offsets of exactly `Args(t)`, in order, followed by NULL |
| Cgi.SplitTarget | httpd.c:153-173 | the buffer gets a NUL at each cut and is unchanged elsewhere; `program` is the program name and `args[0..arg_count)` are the arguments, followed by NULL |
| CgiProcess.CaptureNameInjective | httpd.c:186 | different children never share a capture file |
| CgiProcess.CaptureNameFits | httpd.c:217-218 | for any pid below 2^31 the capture name fits the 256-byte buffer, so `snprintf` never truncates it |
| CgiProcess.ChildEffect | httpd.c:184-208 | a child that cannot create the capture file changes no file; any other child leaves the capture file in place |
| CgiProcess.ReadArgv | httpd.c:203 | `execvp` reads the C strings at the offsets in `args` up to the NULL |
| CgiProcess.ParentAnswer | httpd.c:212-251 | the parent removes the capture file exactly when it can `stat` and `open` it, and sends the `200 OK` head with the file's size whenever `stat` succeeds |
| CgiProcess.CgiOutcome | httpd.c:153-253 | a failed fork starts nothing and changes no file; after a fork a program is started exactly when the child gets to `execvp` or the program runs, and it is the target's program with the target's arguments |
| CgiProcess.HandleCgi | httpd.c:153-253 | the buffer gets a NUL at each cut and is unchanged elsewhere; the handler's wire bytes, files and started program are those of `CgiOutcome` on the target |
| CgiProcess.ForkFailure | httpd.c:176-181 | a failed fork answers 500, starts nothing and touches no file |
| CgiProcess.ParentStatus | httpd.c:220-233 | the parent's answer is 200 when the capture file exists, else 500 |
| CgiProcess.CgiStatus | httpd.c:176-251 | every CGI answer has a readable head with status 200 or 500; it is 500 exactly when the fork failed or no capture file exists after the child |
| CgiProcess.ExecArguments | httpd.c:203 | the program receives only the arguments: its `argv[0]` is the first argument, not its own name |
| CgiProcess.ExecOfTarget | httpd.c:155-173 | the program and arguments started are the ones the target was built from |
| CgiProcess.RunAnswered | httpd.c:184-251 | a program that runs is answered `200 OK` `text/plain` with exactly its output, and the capture file is then removed |
| CgiProcess.RemovedOnlyWhenServed | httpd.c:220-251 | the capture file is removed exactly when the parent could `stat` and `open` it |
| CgiProcess.OpenFailureAfterHead | httpd.c:228-241 | when the capture file cannot be opened, a complete 500 page follows the `200 OK` head on the same connection |
| CgiProcess.StaleCaptureServed | httpd.c:187-251 | a child that cannot create its capture file leaves a stale file of that name, which is served as the program's output |
| CgiProcess.CreateFailureAnswered | httpd.c:187-225 | with no stale file, such a child's request is answered 500 and no file changes |
| CgiProcess.ExecFailureAnsweredEmpty | httpd.c:203-248 | a program that cannot be started is answered `200 OK` with the empty capture file as body (stdio buffering aside: see "Left out") |
| Dispatch.RouteOf | httpd.c:129-148 | the route is 403 exactly for `..` or `~`; CGI exactly for other targets under `/cgi-like/`; a file only for exactly `GET` (with contents) or `HEAD` (without), on the target minus its first character; 501 exactly for every other method |
| Dispatch.TargetBuffer | httpd.c:117 | the `filename` buffer holds the target as a C string |
| Dispatch.HandleParsed | httpd.c:126-148 | the routing chain on the buffer gives the answer `Answer` specifies |
| Dispatch.HandleRequest | httpd.c:107-151 | the whole handler gives the answer `Respond` specifies |
| Dispatch.RespondStatus | httpd.c:119-148 | every answer has a readable head: 400 for a bad line, 403 for traversal, 501 for other methods, `send_file`'s status for a file, 200 or 500 for CGI |
| Dispatch.AnswerStatus | httpd.c:129-148 | the answer to a parsed request has a status its route allows |
| Dispatch.BadRequestExactly | httpd.c:119-124 | the status is 400 exactly when the request line does not parse |
| Dispatch.BlankLineIsBadRequest | httpd.c:95-124 | an empty or blank line is answered 400 and nothing else happens |
| Dispatch.TraversalRefused | httpd.c:129-132 | a target with `..` or `~` is answered 403 under every method, `/cgi-like/` included; nothing is read, started or written |
| Dispatch.NoTraversalReaches | httpd.c:129-144 | neither a file served nor a program started has `..` or `~` in its path |
| Dispatch.CgiIgnoresMethod | httpd.c:133-136 | requests under `/cgi-like/` with the same target get the same answer, whatever the method |
| Dispatch.GetServesFile | httpd.c:141-144 | `GET` of any other target is `send_file` with contents on the target minus its first character, and changes no file |
| Dispatch.HeadIsGetWithoutBody | httpd.c:137-144 | `GET` answers the `HEAD` answer followed by the file's bytes when served, and the same error page otherwise |
| Dispatch.OtherMethodsNotImplemented | httpd.c:145-148 | any method other than exactly `GET`/`HEAD` outside `/cgi-like/` gets 501, lower-case `get` included |
| Dispatch.OnlyCgiHasEffects | httpd.c:119-148 | only a CGI request can change the files or start a program |
| Client.Clamp | client.c:29 | a value outside `long` becomes `LONG_MIN`/`LONG_MAX`; values inside are kept |
| Client.StrToL | client.c:29 | `strtol` stays within `long`; converting nothing gives 0 and end 0; otherwise the last consumed character is a digit and the next one is not |
| Client.StrToLReads | client.c:29 | on whitespace, a sign, digits and a non-digit, `strtol` gives the signed, clamped number of the digits and ends after them |
| Client.ValidatePort | client.c:26-38 | an accepted port lies in 1024..65535 |
| Client.ValidatePortDigits | client.c:26-38 | whitespace, an optional sign and digits are accepted exactly when not negative and in range, and the port is their value (a leading `+` and leading zeros are allowed) |
| Client.ValidatePortIsWholeParse | client.c:29-37 | on a NUL-free argument, acceptance is exactly: `strtol` consumed everything and its value is in range; the result is that value |
| Client.PortRoundTrip | client.c:26-38 | every port in range written in decimal is accepted as itself |
| Client.EmptyRejected | client.c:29-35 | the empty string converts to 0 and is rejected |
| Client.TrailingTextRejected | client.c:31-35 | an argument ending in anything but a digit, trailing white space included, is rejected |
| Client.NegativeRejected | client.c:31-35 | a negative number is rejected |
| Client.OverflowRejected | client.c:29-35 | a number beyond `LONG_MAX` is clamped and rejected |
| Client.SelectPort | client.c:100-106 | the client proceeds only with 2 or 3 arguments, and with a port in 1024..65535 |
| Client.SelectPortCases | client.c:100-106 | the client proceeds exactly when the argument count is valid and a given port is valid; with three arguments the port is `validate_port`'s |
| Client.DefaultPortIsExplicit | client.c:102-106 | with only a server address the port is 2828, the same as passing `2828` explicitly |

## Left out

- `run_service` and `handle_signal` (httpd.c:16-20, 255-277): the per-connection fork, `SIGCHLD` handling and the `waitpid` drain are process concurrency and signals.
- `fork`, `dup2`, `execvp` and `waitpid` are not executed. Each request is given the outcome as data:
  - `fork` failed or returned a pid;
  - the child could not create the capture file, could not redirect its output, could not start the program, or ran and wrote given bytes.
  
  The child's exit status, which the parent ignores, is not modelled. `execvp`'s search of `PATH` for a program name without a `/` is not modelled; the model records the name and `argv` it is called with.
- The child's `getpid()` is taken to be the pid `fork` returned to the parent, so both derive the capture name from the same number (`CgiProcess.CaptureName`).
- The real `stat`/`open`/`read`/`write`/`remove` calls are a map from paths to mode and contents, plus a per-path `open` error. Not modelled:
  - path resolution, permissions beyond the modelled mode bits and `errno`, and `umask`;
  - short reads and writes (the code ignores `write`'s result);
  - a file that changes between `stat` and `read`. The model reads the same bytes whose size it printed.
- `fdopen` failure and the stream handling of `getline` (httpd.c:109-115): the line `getline` read is a parameter, empty when it returned -1.
- `printf`/`perror`/`fprintf` diagnostics, and `main`, `atoi` and the `net.h` helpers of the server; `net.h` is not part of this model.
- In client.c: `socket`, `connect`, `gethostbyname` and the echo loop of `send_request` are network I/O. The usage message printed before `exit` is also left out; an exit with failure is modelled as `None`.
- `Client.ValidatePort`: `(int)port` is not modelled as a narrowing, because an accepted value lies in 1024..65535 and fits an `int`.
- `CgiProcess.ExecFailureAnsweredEmpty`: the capture file is taken to be empty after a failed `execvp`. In the program the child then calls `exit(1)` (httpd.c:207), which flushes the standard output stream it inherited, and by then descriptor 1 is the capture file. When the server's standard output is not a terminal, the text of earlier `printf` calls (httpd.c:126, httpd.c:296) may still sit in that stream's buffer. It then lands in the capture file and is served as the `200` body. So the body is empty only when that buffer was empty; stdio buffering is not modelled.
- `CgiProcess.RunAnswered`: `Ran(stdout)` takes the program's output as its only effect on the files. `out.fs == Remove(fs, CaptureName(pid))` therefore holds only for programs that change no file themselves; what a program does besides writing to its standard output is not modelled.
- `CgiProcess.CaptureName`: the pid is a natural number; `CaptureNameFits` shows that every pid of a 32-bit `pid_t` fits the buffer, so the truncation `snprintf` could make never happens.
