/**
 * The client's command line: `validate_arguments` (a server address and an
 * optional port), `validate_port` (`strtol` in base 10, the whole argument
 * consumed, a value in 1024..65535) and `main`'s choice between the given
 * port and the default 2828.
 */
module Client {
  import opened Libc
  import opened Wrappers

  const DefaultPort: int := 2828
  const MinArgs: nat := 2
  const MaxArgs: nat := 3
  const PortArgIndex: nat := 2
  const MinPort: int := 1024
  const MaxPort: int := 65535

  /** `LONG_MIN` and `LONG_MAX` of a 64-bit `long`. */
  const LongMin: int := -0x8000_0000_0000_0000
  const LongMax: int := 0x7FFF_FFFF_FFFF_FFFF

  /** What `strtol(s, &end, 10)` yields: the value, and `end` as an index into `s`. */
  datatype Conversion = Conversion(value: int, end: nat)

  /** A value out of the range of `long` is replaced by the nearest bound. */
  function Clamp(v: int): (r: int)
    ensures LongMin <= r <= LongMax
    ensures LongMin <= v <= LongMax ==> r == v
    ensures v > LongMax ==> r == LongMax
    ensures v < LongMin ==> r == LongMin
  {
    if v > LongMax then LongMax else if v < LongMin then LongMin else v
  }

  /** Whether a `-` follows the leading white space. */
  predicate Negative(s: string)
  {
    var i := Span(s, Whitespace);
    i < |s| && s[i] == '-'
  }

  /** The index where the digits start: after the leading white space and an optional sign. */
  function DigitsStart(s: string): (j: nat)
    ensures j <= |s|
  {
    var i := Span(s, Whitespace);
    if i < |s| && (s[i] == '+' || s[i] == '-') then i + 1 else i
  }

  function Signed(negative: bool, magnitude: nat): int
  {
    if negative then -(magnitude as int) else magnitude
  }

  /**
   * `strtol` in base 10 (section 7.22.1.4 of C11): white space, an optional
   * sign, then the longest run of digits; a value beyond the range of
   * `long` is clamped to `LONG_MIN` or `LONG_MAX`. Without a digit nothing
   * is converted: the value is 0 and `end` is the start of the string.
   */
  function StrToL(s: string): (c: Conversion)
    ensures c.end <= |s| && LongMin <= c.value <= LongMax
    ensures c.end == 0 ==> c.value == 0
    ensures 0 < c.end ==> IsDigit(s[c.end - 1])
    ensures 0 < c.end < |s| ==> !IsDigit(s[c.end])
  {
    var j := DigitsStart(s);
    var n := DigitRun(s[j..]);
    if n == 0 then Conversion(0, 0)
    else
      assert s[j..][n - 1] == s[j + n - 1] && s[j..][..n][n - 1] == s[j..][n - 1];
      Conversion(Clamp(Signed(Negative(s), DigitsValue(s[j..][..n]))), j + n)
  }

  /**
   * `validate_port`: the port, or `None` where the client prints the
   * error and exits with failure: `*endptr != '\0'`, or a value outside
   * 1024..65535.
   */
  function ValidatePort(s: string): (r: Option<int>)
    ensures r.Some? ==> MinPort <= r.value <= MaxPort
  {
    var c := StrToL(s);
    if (c.end < |s| && s[c.end] != NUL) || c.value < MinPort || c.value > MaxPort then None
    else Some(c.value)
  }

  /** `validate_arguments`: the program name, a server address and at most a port. */
  predicate ArgumentsValid(argv: seq<string>)
  {
    MinArgs <= |argv| <= MaxArgs
  }

  /** The port `main` connects to, or `None` when the client exits with failure first. */
  function SelectPort(argv: seq<string>): (r: Option<int>)
    ensures r.Some? ==> MinPort <= r.value <= MaxPort
    ensures r.Some? ==> ArgumentsValid(argv)
  {
    if !ArgumentsValid(argv) then None
    else if |argv| == MaxArgs then ValidatePort(argv[PortArgIndex])
    else Some(DefaultPort)
  }

  // ---------------------------------------------------------------------------
  // strtol against the text it reads
  // ---------------------------------------------------------------------------

  predicate AllWhitespace(ws: string)
  {
    forall i :: 0 <= i < |ws| ==> ws[i] in Whitespace
  }

  predicate IsSign(sign: string)
  {
    sign == "" || sign == "+" || sign == "-"
  }

  /** Where the leading white space of `ws + u` ends, when `u` does not start with white space. */
  lemma {:induction false} SpanAfterWhitespace(ws: string, u: string)
    requires AllWhitespace(ws) && (u == [] || u[0] !in Whitespace)
    ensures Span(ws + u, Whitespace) == |ws|
    decreases |ws|
  {
    if ws != [] {
      assert (ws + u)[1..] == ws[1..] + u;
      SpanAfterWhitespace(ws[1..], u);
    }
  }

  /** After white space and a sign, the digits start; the sign decides whether the number is negative. */
  lemma SignRead(ws: string, sign: string, u: string)
    requires AllWhitespace(ws) && IsSign(sign) && u != [] && IsDigit(u[0])
    ensures DigitsStart(ws + sign + u) == |ws| + |sign|
    ensures Negative(ws + sign + u) == (sign == "-")
  {
    var s := ws + sign + u;
    assert s == ws + (sign + u);
    assert (sign + u)[0] !in Whitespace by {
      if sign == [] { assert (sign + u)[0] == u[0]; }
    }
    SpanAfterWhitespace(ws, sign + u);
    if sign == [] {
      assert s[|ws|] == u[0];
    } else {
      assert s[|ws|] == sign[0];
    }
  }

  /**
   * `strtol` reads white space, a sign and a run of digits, and stops at
   * the first character after the digits: its value is the signed number
   * of the digits, clamped.
   */
  lemma StrToLReads(ws: string, sign: string, ds: string, rest: string)
    requires AllWhitespace(ws) && IsSign(sign) && 0 < |ds| && AllDigits(ds)
    requires rest == [] || !IsDigit(rest[0])
    ensures StrToL(ws + sign + ds + rest)
         == Conversion(Clamp(Signed(sign == "-", DigitsValue(ds))), |ws| + |sign| + |ds|)
  {
    var s := ws + sign + ds + rest;
    assert s == ws + sign + (ds + rest);
    SignRead(ws, sign, ds + rest);
    var j := |ws| + |sign|;
    assert s[j..] == ds + rest;
    DigitRunIs(ds + rest, |ds|) by {
      assert (ds + rest)[..|ds|] == ds;
      if rest != [] { assert (ds + rest)[|ds|] == rest[0]; }
    }
    assert s[j..][..|ds|] == ds;
    StrToLAt(s, j, |ds|);
  }

  /** `strtol` when the digits start at `j` and run for `n > 0` characters. */
  lemma StrToLAt(s: string, j: nat, n: nat)
    requires j <= |s| && DigitsStart(s) == j && 0 < n && DigitRun(s[j..]) == n
    ensures StrToL(s) == Conversion(Clamp(Signed(Negative(s), DigitsValue(s[j..][..n]))), j + n)
  {
  }

  /**
   * A string of white space, an optional sign and digits is accepted
   * exactly when it is not negative and its number is in 1024..65535, and
   * then the port is that number: leading white space, `+` and leading
   * zeros are allowed.
   */
  lemma ValidatePortDigits(ws: string, sign: string, ds: string)
    requires AllWhitespace(ws) && IsSign(sign) && 0 < |ds| && AllDigits(ds)
    ensures ValidatePort(ws + sign + ds)
         == if sign != "-" && MinPort <= DigitsValue(ds) <= MaxPort then Some(DigitsValue(ds)) else None
  {
    assert ws + sign + ds + [] == ws + sign + ds;
    StrToLReads(ws, sign, ds, []);
  }

  /** Every port in range, written in decimal, is accepted as itself. */
  lemma PortRoundTrip(p: int)
    requires MinPort <= p <= MaxPort
    ensures ValidatePort(Decimal(p)) == Some(p)
  {
    DigitsValueDecimal(p);
    assert "" + "" + Decimal(p) == Decimal(p);
    ValidatePortDigits("", "", Decimal(p));
  }

  /**
   * On a NUL-free argument, `validate_port` accepts exactly when `strtol`
   * consumes the whole string and its value is in range, and it returns
   * that value.
   */
  lemma ValidatePortIsWholeParse(s: string)
    requires NUL !in s
    ensures ValidatePort(s).Some? <==> (StrToL(s).end == |s| && MinPort <= StrToL(s).value <= MaxPort)
    ensures ValidatePort(s).Some? ==> ValidatePort(s).value == StrToL(s).value
  {
    var c := StrToL(s);
    if c.end < |s| {
      assert s[c.end] in s;
    }
  }

  /** The empty string converts to 0 and is rejected. */
  lemma EmptyRejected()
    ensures StrToL("") == Conversion(0, 0)
    ensures ValidatePort("").None?
  {
  }

  /** A string that ends in anything but a digit is rejected, trailing white space included. */
  lemma TrailingTextRejected(s: string)
    requires NUL !in s && 0 < |s| && !IsDigit(s[|s| - 1])
    ensures ValidatePort(s).None?
  {
    ValidatePortIsWholeParse(s);
  }

  /** A negative number is never a port, whatever its digits. */
  lemma NegativeRejected(ws: string, ds: string)
    requires AllWhitespace(ws) && 0 < |ds| && AllDigits(ds)
    ensures ValidatePort(ws + "-" + ds).None?
  {
    ValidatePortDigits(ws, "-", ds);
  }

  /** A number too large for `long` is clamped to `LONG_MAX` and so rejected. */
  lemma OverflowRejected(ds: string)
    requires 0 < |ds| && AllDigits(ds) && DigitsValue(ds) > LongMax
    ensures StrToL(ds).value == LongMax
    ensures ValidatePort(ds).None?
  {
    assert "" + "" + ds + [] == ds;
    StrToLReads("", "", ds, []);
  }

  /** With only the server address the port is 2828, the same as giving 2828 explicitly. */
  lemma DefaultPortIsExplicit(program: string, server: string)
    ensures SelectPort([program, server]) == Some(DefaultPort)
    ensures SelectPort([program, server, Decimal(DefaultPort)]) == SelectPort([program, server])
  {
    PortRoundTrip(DefaultPort);
  }

  /**
   * The client goes on exactly when it has a server address and at most
   * a port, and the port, when given, is valid; it then connects to that
   * port.
   */
  lemma SelectPortCases(argv: seq<string>)
    ensures SelectPort(argv).Some? <==> (ArgumentsValid(argv) && (|argv| == MaxArgs ==> ValidatePort(argv[PortArgIndex]).Some?))
    ensures |argv| == MaxArgs ==> SelectPort(argv) == ValidatePort(argv[PortArgIndex])
  {
  }
}
