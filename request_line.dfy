/**
 * The request-line parser of the server (`parse_request`): one line read
 * with `getline`, split by `sscanf(line, "%15s %255s %15s", ...)` into the
 * method, the target and the protocol version.
 */
module RequestLine {
  import opened Libc
  import opened Wrappers

  /** The widths of the three conversions; the buffers are char[16], char[256], char[16]. */
  const MethodWidth: nat := 15
  const TargetWidth: nat := 255
  const VersionWidth: nat := 15
  const Format: seq<nat> := [MethodWidth, TargetWidth, VersionWidth]

  /** What `sscanf` returns when the input ends before the first conversion. */
  const EOF: int := -1

  /** The three fields of a request line; `verb` is the method (the source's `type` buffer). */
  datatype Request = Request(verb: string, target: string, version: string)

  /** What a `%<width>s` conversion can store: non-empty, bounded, free of whitespace and NUL. */
  predicate IsField(f: string, width: nat)
  {
    0 < |f| <= width && NoneIn(f, Whitespace) && NUL !in f
  }

  predicate ValidRequest(r: Request)
  {
    IsField(r.verb, MethodWidth) && IsField(r.target, TargetWidth) && IsField(r.version, VersionWidth)
  }

  datatype Scanned = Scanned(field: string, rest: string)

  /**
   * One `%<width>s` conversion on the unread input `s`: skip whitespace,
   * then take at most `width` non-whitespace characters. It fails only when
   * the input is exhausted.
   */
  function ScanString(s: string, width: nat): (r: Option<Scanned>)
    requires width > 0
    ensures r.None? <==> SkipDelims(s, Whitespace) == []
    ensures r.Some? ==> 0 < |r.value.field| <= width && NoneIn(r.value.field, Whitespace)
    ensures r.Some? && NUL !in s ==> NUL !in r.value.field && NUL !in r.value.rest
  {
    SkipDelimsSuffix(s, Whitespace);
    var t := SkipDelims(s, Whitespace);
    var n := Min(width, RunLen(t, Whitespace));
    if n == 0 then None else Some(Scanned(t[..n], t[n..]))
  }

  /**
   * The fields a format of `%<width>s` conversions stores, in order,
   * stopping at the first conversion that fails. A space between two
   * conversions matches any amount of whitespace, even none, which the
   * next `%s` skips anyway, so it needs no step of its own.
   */
  function ScanFields(s: string, widths: seq<nat>): (fields: seq<string>)
    requires forall i :: 0 <= i < |widths| ==> widths[i] > 0
    ensures |fields| <= |widths|
    ensures forall k :: 0 <= k < |fields| ==> 0 < |fields[k]| <= widths[k] && NoneIn(fields[k], Whitespace)
    ensures NUL !in s ==> forall k :: 0 <= k < |fields| ==> NUL !in fields[k]
    decreases |widths|
  {
    if widths == [] then []
    else match ScanString(s, widths[0])
      case None => []
      case Some(sc) => [sc.field] + ScanFields(sc.rest, widths[1..])
  }

  /**
   * `parse_request`: `line` is what `getline` read (empty when it returned
   * -1 at end of stream or on error); `sscanf` sees it up to its first NUL.
   */
  function ParseRequest(line: string): (r: Option<Request>)
    ensures |line| == 0 ==> r.None?
    ensures r.Some? <==> |line| > 0 && |ScanFields(CStr(line), Format)| == 3
    ensures r.Some? ==> ValidRequest(r.value)
  {
    if |line| == 0 then None
    else
      var fields := ScanFields(CStr(line), Format);
      var matched := if fields == [] then EOF else |fields|;
      if matched == 3 && |fields[1]| > 0 then Some(Request(fields[0], fields[1], fields[2])) else None
  }

  // ---------------------------------------------------------------------------
  // The parser against the words of the line
  // ---------------------------------------------------------------------------

  /** The whitespace-separated words of `s`. */
  function Words(s: string): seq<string>
  {
    Tokens(s, Whitespace)
  }

  /**
   * One conversion takes the first word, cut at the width; what is cut off
   * stays in the input as a word of its own.
   */
  lemma ScanStringWords(s: string, width: nat)
    requires width > 0
    ensures ScanString(s, width).None? <==> Words(s) == []
    ensures ScanString(s, width).Some? ==>
      var w := Words(s)[0];
      var sc := ScanString(s, width).value;
      && sc.field == w[..Min(width, |w|)]
      && Words(sc.rest) == (if |w| > width then [w[width..]] else []) + Words(s)[1..]
  {
    var t := SkipDelims(s, Whitespace);
    if t != [] {
      var n := RunLen(t, Whitespace);
      if width < n {
        ScanStringCut(s, width);
      } else {
        assert Words(s) == [t[..n]] + Tokens(t[n..], Whitespace);
        assert ScanString(s, width) == Some(Scanned(t[..n], t[n..]));
      }
    }
  }

  /** The case of `ScanStringWords` where the first word is longer than the width. */
  lemma ScanStringCut(s: string, width: nat)
    requires 0 < width < RunLen(SkipDelims(s, Whitespace), Whitespace)
    ensures Words(s) != [] && |Words(s)[0]| > width
    ensures ScanString(s, width) == Some(Scanned(Words(s)[0][..width], ScanString(s, width).value.rest))
    ensures Words(ScanString(s, width).value.rest) == [Words(s)[0][width..]] + Words(s)[1..]
  {
    var t := SkipDelims(s, Whitespace);
    var n := RunLen(t, Whitespace);
    var ws := Words(s);
    assert ws == [t[..n]] + Tokens(t[n..], Whitespace);
    assert ws[0] == t[..n] && ws[1..] == Tokens(t[n..], Whitespace);
    assert ScanString(s, width) == Some(Scanned(t[..width], t[width..]));
    assert ws[0][..width] == t[..width];
    TokensInsideRun(t, Whitespace, width);
    assert ws[0][width..] == t[width..n];
  }

  /** When no word is wider than its conversion, the fields are the leading words. */
  lemma {:induction false} ScanFieldsWords(s: string, widths: seq<nat>)
    requires forall i :: 0 <= i < |widths| ==> widths[i] > 0
    requires forall i :: 0 <= i < |widths| && i < |Words(s)| ==> |Words(s)[i]| <= widths[i]
    ensures ScanFields(s, widths) == Words(s)[..Min(|widths|, |Words(s)|)]
    decreases |widths|
  {
    var ws := Words(s);
    if widths != [] {
      ScanStringWords(s, widths[0]);
      if ws != [] {
        var sc := ScanString(s, widths[0]).value;
        assert |ws[0]| <= widths[0];
        assert sc.field == ws[0];
        assert Words(sc.rest) == ws[1..];
        forall i | 0 <= i < |widths[1..]| && i < |ws[1..]|
          ensures |ws[1..][i]| <= widths[1..][i]
        {
          assert ws[1..][i] == ws[i + 1];
        }
        ScanFieldsWords(sc.rest, widths[1..]);
        assert ScanFields(s, widths) == [ws[0]] + ScanFields(sc.rest, widths[1..]);
        PrefixCons(ws, |widths|);
      }
    }
  }

  /** Taking a prefix of a non-empty sequence keeps its head. */
  lemma PrefixCons<T>(xs: seq<T>, m: nat)
    requires xs != [] && m > 0
    ensures xs[..Min(m, |xs|)] == [xs[0]] + xs[1..][..Min(m - 1, |xs| - 1)]
  {
  }

  /** Every word yields at least one field: k words fill at least k conversions. */
  lemma {:induction false} ScanFieldsCount(s: string, widths: seq<nat>)
    requires forall i :: 0 <= i < |widths| ==> widths[i] > 0
    ensures |ScanFields(s, widths)| >= Min(|widths|, |Words(s)|)
    decreases |widths|
  {
    if widths != [] {
      ScanStringWords(s, widths[0]);
      if Words(s) != [] {
        var sc := ScanString(s, widths[0]).value;
        assert |Words(sc.rest)| >= |Words(s)| - 1;
        ScanFieldsCount(sc.rest, widths[1..]);
      }
    }
  }

  /**
   * A line whose words fit their buffers parses exactly when it has at
   * least three words, and then the request is the first three words:
   * anything after the third is ignored.
   */
  lemma ParseRequestWords(line: string)
    requires var ws := Words(CStr(line));
      && (|ws| > 0 ==> |ws[0]| <= MethodWidth)
      && (|ws| > 1 ==> |ws[1]| <= TargetWidth)
      && (|ws| > 2 ==> |ws[2]| <= VersionWidth)
    ensures ParseRequest(line).Some? <==> |Words(CStr(line))| >= 3
    ensures |Words(CStr(line))| >= 3 ==>
      var ws := Words(CStr(line));
      ParseRequest(line) == Some(Request(ws[0], ws[1], ws[2]))
  {
    var s := CStr(line);
    var ws := Words(s);
    ScanFieldsWords(s, Format);
    if |ws| > 0 {
      assert |line| > 0;
    }
  }

  /** Three words always give a request, however long they are. */
  lemma ThreeWordsParse(line: string)
    requires |Words(CStr(line))| >= 3
    ensures ParseRequest(line).Some?
  {
    ScanFieldsCount(CStr(line), Format);
    assert |line| > 0;
  }

  /** A line without a word (an empty or blank line) never parses. */
  lemma BlankLineRejected(line: string)
    requires Words(CStr(line)) == []
    ensures ParseRequest(line).None?
  {
    ScanStringWords(CStr(line), MethodWidth);
  }

  /**
   * An over-long method is cut at 15 characters and its remainder becomes
   * the target; the second word then becomes the version.
   */
  lemma OverlongMethodSpills(line: string)
    requires var ws := Words(CStr(line));
      |ws| >= 2 && MethodWidth < |ws[0]| <= MethodWidth + TargetWidth && |ws[1]| <= VersionWidth
    ensures var ws := Words(CStr(line));
      ParseRequest(line) == Some(Request(ws[0][..MethodWidth], ws[0][MethodWidth..], ws[1]))
  {
    var s := CStr(line);
    var ws := Words(s);
    ScanStringWords(s, MethodWidth);
    var sc1 := ScanString(s, MethodWidth).value;
    assert sc1.field == ws[0][..MethodWidth];
    assert Words(sc1.rest) == [ws[0][MethodWidth..]] + ws[1..];
    ScanStringWords(sc1.rest, TargetWidth);
    var sc2 := ScanString(sc1.rest, TargetWidth).value;
    assert sc2.field == ws[0][MethodWidth..];
    assert Words(sc2.rest) == ws[1..];
    ScanStringWords(sc2.rest, VersionWidth);
    var sc3 := ScanString(sc2.rest, VersionWidth).value;
    assert sc3.field == ws[1];
    assert Format[1..] == [TargetWidth, VersionWidth] && Format[1..][1..] == [VersionWidth];
    assert ScanFields(sc2.rest, [VersionWidth]) == [sc3.field];
    assert ScanFields(sc1.rest, [TargetWidth, VersionWidth]) == [sc2.field, sc3.field];
    assert ScanFields(s, Format) == [sc1.field, sc2.field, sc3.field];
    assert |line| > 0;
  }
}
