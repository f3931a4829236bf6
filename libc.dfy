/**
 * The behaviour of the C library string and formatting routines that the
 * server and the client rely on: `isspace`, `strspn`/`strcspn`, `strtok`,
 * `strstr`, `strncmp`, NUL-terminated buffers and `printf("%d")`.
 */
module Libc {

  /** A C `char`: one octet. */
  type Octet = c: char | c as int < 0x100

  const NUL: char := '\0'

  /** The characters `isspace` accepts in the C locale. */
  const Whitespace: set<char> := {' ', '\t', '\n', '\U{000B}', '\U{000C}', '\r'}

  function Min(a: int, b: int): int { if a <= b then a else b }

  predicate NoneIn(s: string, delims: set<char>)
  {
    forall i :: 0 <= i < |s| ==> s[i] !in delims
  }

  // ---------------------------------------------------------------------------
  // Spans and tokens (strspn, strcspn, strtok)
  // ---------------------------------------------------------------------------

  /** What is left of `s` after its leading delimiters (`s + strspn(s, delims)`). */
  function SkipDelims(s: string, delims: set<char>): (r: string)
    ensures |r| <= |s|
    ensures r == [] || r[0] !in delims
    ensures forall i :: 0 <= i < |s| - |r| ==> s[i] in delims
    decreases |s|
  {
    if s != [] && s[0] in delims then SkipDelims(s[1..], delims) else s
  }

  /** What `SkipDelims` leaves is a suffix of its input. */
  lemma {:induction false} SkipDelimsSuffix(s: string, delims: set<char>)
    ensures SkipDelims(s, delims) == s[|s| - |SkipDelims(s, delims)|..]
    decreases |s|
  {
    if s != [] && s[0] in delims {
      SkipDelimsSuffix(s[1..], delims);
    }
  }

  /** The length of the leading run of delimiters of `s` (`strspn(s, delims)`). */
  function Span(s: string, delims: set<char>): (n: nat)
    ensures n <= |s|
    ensures forall i :: 0 <= i < n ==> s[i] in delims
    ensures n < |s| ==> s[n] !in delims
    decreases |s|
  {
    if s == [] || s[0] !in delims then 0 else 1 + Span(s[1..], delims)
  }

  /** Skipping the delimiters drops exactly the leading run `Span` measures. */
  lemma {:induction false} SkipDelimsSpan(s: string, delims: set<char>)
    ensures SkipDelims(s, delims) == s[Span(s, delims)..]
    decreases |s|
  {
    if s != [] && s[0] in delims {
      SkipDelimsSpan(s[1..], delims);
      assert s[1..][Span(s[1..], delims)..] == s[Span(s, delims)..];
    }
  }

  /** The length of the leading run of non-delimiters of `s` (`strcspn(s, delims)`). */
  function RunLen(s: string, delims: set<char>): (n: nat)
    ensures n <= |s|
    ensures forall i :: 0 <= i < n ==> s[i] !in delims
    ensures n < |s| ==> s[n] in delims
    decreases |s|
  {
    if s == [] || s[0] in delims then 0 else 1 + RunLen(s[1..], delims)
  }

  /** The two facts that fix `RunLen`: no delimiter before `n`, and one at `n` unless `n` is the end. */
  lemma RunLenIs(s: string, delims: set<char>, n: nat)
    requires n <= |s|
    requires forall i :: 0 <= i < n ==> s[i] !in delims
    requires n < |s| ==> s[n] in delims
    ensures RunLen(s, delims) == n
  {
  }

  /**
   * The maximal non-empty runs of non-delimiters of `s`, in order: the
   * tokens that `strtok(s, delims)` followed by `strtok(NULL, delims)`
   * calls return.
   */
  function Tokens(s: string, delims: set<char>): seq<string>
    decreases |s|
  {
    var t := SkipDelims(s, delims);
    if t == [] then []
    else
      var n := RunLen(t, delims);
      [t[..n]] + Tokens(t[n..], delims)
  }

  /** Every token is non-empty and holds no delimiter. */
  lemma {:induction false} TokensShape(s: string, delims: set<char>)
    ensures forall k :: 0 <= k < |Tokens(s, delims)| ==>
      Tokens(s, delims)[k] != [] && NoneIn(Tokens(s, delims)[k], delims)
    decreases |s|
  {
    var t := SkipDelims(s, delims);
    if t != [] {
      var n := RunLen(t, delims);
      var ts := Tokens(s, delims);
      assert ts == [t[..n]] + Tokens(t[n..], delims);
      TokensShape(t[n..], delims);
      forall k | 0 <= k < |ts| ensures ts[k] != [] && NoneIn(ts[k], delims) {
        if k > 0 {
          assert ts[k] == Tokens(t[n..], delims)[k - 1];
        }
      }
    }
  }

  /** A leading delimiter never starts a token. */
  lemma TokensSkipDelim(s: string, delims: set<char>)
    requires s != [] && s[0] in delims
    ensures Tokens(s, delims) == Tokens(s[1..], delims)
  {
  }

  /**
   * Starting inside a run: the tokens of `t[j..]` are the rest of the first
   * run of `t` followed by the tokens after that run.
   */
  lemma {:induction false} TokensInsideRun(t: string, delims: set<char>, j: nat)
    requires 0 < j < RunLen(t, delims)
    ensures Tokens(t[j..], delims)
         == [t[j..RunLen(t, delims)]] + Tokens(t[RunLen(t, delims)..], delims)
  {
    var n := RunLen(t, delims);
    var u := t[j..];
    assert SkipDelims(u, delims) == u;
    RunLenIs(u, delims, n - j);
    assert u[..n - j] == t[j..n];
    assert u[n - j..] == t[n..];
  }

  /** No input of length L yields more than (L + 1) / 2 tokens. */
  lemma {:induction false} TokensCount(s: string, delims: set<char>)
    ensures |Tokens(s, delims)| <= (|s| + 1) / 2
    decreases |s|
  {
    var t := SkipDelims(s, delims);
    if t != [] {
      var n := RunLen(t, delims);
      var rest := t[n..];
      assert |Tokens(s, delims)| == 1 + |Tokens(rest, delims)|;
      if rest != [] {
        TokensSkipDelim(rest, delims);
        TokensCount(rest[1..], delims);
      }
    }
  }

  /** `s` with every delimiter removed. */
  function Strip(s: string, delims: set<char>): (r: string)
    ensures |r| <= |s|
    decreases |s|
  {
    if s == [] then []
    else (if s[0] in delims then [] else [s[0]]) + Strip(s[1..], delims)
  }

  lemma {:induction false} StripAppend(a: string, b: string, delims: set<char>)
    ensures Strip(a + b, delims) == Strip(a, delims) + Strip(b, delims)
    decreases |a|
  {
    if a == [] {
      assert a + b == b;
    } else {
      var x := if a[0] in delims then [] else [a[0]];
      assert (a + b)[0] == a[0];
      assert (a + b)[1..] == a[1..] + b;
      assert Strip(a + b, delims) == x + Strip(a[1..] + b, delims);
      StripAppend(a[1..], b, delims);
      assert x + (Strip(a[1..], delims) + Strip(b, delims)) == (x + Strip(a[1..], delims)) + Strip(b, delims);
    }
  }

  lemma {:induction false} StripNone(a: string, delims: set<char>)
    requires NoneIn(a, delims)
    ensures Strip(a, delims) == a
    decreases |a|
  {
    if a != [] {
      StripNone(a[1..], delims);
    }
  }

  function Concat(ss: seq<string>): string
    decreases |ss|
  {
    if ss == [] then [] else ss[0] + Concat(ss[1..])
  }

  /**
   * The tokens, put back together, are the input without its delimiters:
   * nothing else is lost, duplicated or reordered.
   */
  lemma {:induction false} TokensConcat(s: string, delims: set<char>)
    ensures Concat(Tokens(s, delims)) == Strip(s, delims)
    decreases |s|
  {
    var t := SkipDelims(s, delims);
    StripSkipped(s, delims);
    if t != [] {
      var n := RunLen(t, delims);
      var ts := Tokens(s, delims);
      assert ts == [t[..n]] + Tokens(t[n..], delims);
      assert ts[0] == t[..n] && ts[1..] == Tokens(t[n..], delims);
      TokensConcat(t[n..], delims);
      StripRun(t, delims);
    } else {
      assert Tokens(s, delims) == [];
    }
  }

  lemma StripSkipped(s: string, delims: set<char>)
    ensures Strip(s, delims) == Strip(SkipDelims(s, delims), delims)
  {
    var t := SkipDelims(s, delims);
    var skipped := s[..|s| - |t|];
    SkipDelimsSuffix(s, delims);
    assert s == skipped + t;
    StripAppend(skipped, t, delims);
    StripAllDelims(skipped, delims);
  }

  lemma StripRun(t: string, delims: set<char>)
    ensures Strip(t, delims) == t[..RunLen(t, delims)] + Strip(t[RunLen(t, delims)..], delims)
  {
    var n := RunLen(t, delims);
    assert t == t[..n] + t[n..];
    StripAppend(t[..n], t[n..], delims);
    StripNone(t[..n], delims);
  }

  lemma {:induction false} StripAllDelims(a: string, delims: set<char>)
    requires forall i :: 0 <= i < |a| ==> a[i] in delims
    ensures Strip(a, delims) == []
    decreases |a|
  {
    if a != [] {
      StripAllDelims(a[1..], delims);
    }
  }

  /** `ws` with one `sep` between neighbours. */
  function Join(ws: seq<string>, sep: char): string
    decreases |ws|
  {
    if ws == [] then []
    else if |ws| == 1 then ws[0]
    else ws[0] + [sep] + Join(ws[1..], sep)
  }

  /** A run of non-delimiters followed by a delimiter (or the end) is the first token. */
  lemma TokensOfRun(w: string, rest: string, delims: set<char>)
    requires w != [] && NoneIn(w, delims)
    requires rest == [] || rest[0] in delims
    ensures Tokens(w + rest, delims) == [w] + Tokens(rest, delims)
  {
    var s := w + rest;
    assert SkipDelims(s, delims) == s;
    RunLenIs(s, delims, |w|);
    assert s[..|w|] == w && s[|w|..] == rest;
  }

  /** Splitting a join of separator-free, non-empty words gives the words back. */
  lemma {:induction false} TokensJoin(ws: seq<string>, sep: char)
    requires forall k :: 0 <= k < |ws| ==> ws[k] != [] && sep !in ws[k]
    ensures Tokens(Join(ws, sep), {sep}) == ws
    decreases |ws|
  {
    if ws != [] {
      assert NoneIn(ws[0], {sep}) by {
        forall i | 0 <= i < |ws[0]| ensures ws[0][i] != sep {
          assert ws[0][i] in ws[0];
        }
      }
    }
    if |ws| == 1 {
      TokensOfRun(ws[0], [], {sep});
      assert ws[0] + [] == ws[0];
    } else if |ws| > 1 {
      assert ws == [ws[0]] + ws[1..];
      var rest := [sep] + Join(ws[1..], sep);
      assert Join(ws, sep) == ws[0] + rest by {
        assert ws[0] + [sep] + Join(ws[1..], sep) == ws[0] + ([sep] + Join(ws[1..], sep));
      }
      TokensOfRun(ws[0], rest, {sep});
      TokensSkipDelim(rest, {sep});
      assert rest[1..] == Join(ws[1..], sep);
      TokensJoin(ws[1..], sep);
      assert Tokens(Join(ws, sep), {sep}) == [ws[0]] + ws[1..];
    }
  }

  // ---------------------------------------------------------------------------
  // NUL-terminated buffers, strstr, strncmp
  // ---------------------------------------------------------------------------

  /** The C string held by a char buffer: everything before its first NUL. */
  function CStr(s: string): (r: string)
    ensures |r| <= |s| && r == s[..|r|]
    ensures NUL !in r
    ensures |r| < |s| ==> s[|r|] == NUL
  {
    s[..RunLen(s, {NUL})]
  }

  /** The C string that starts at index `i` of a buffer (a `char *` pointing at `buf + i`). */
  function CStrAt(s: string, i: nat): string
    requires i <= |s|
  {
    CStr(s[i..])
  }

  /** A C string is found at `i` when its characters are there and a NUL follows them. */
  lemma CStrAtIs(s: string, i: nat, w: string)
    requires i + |w| < |s|
    requires s[i..i + |w|] == w && NUL !in w && s[i + |w|] == NUL
    ensures CStrAt(s, i) == w
  {
    var u := s[i..];
    forall j | 0 <= j < |w| ensures u[j] !in {NUL} {
      assert u[j] == w[j];
    }
    RunLenIs(u, {NUL}, |w|);
  }

  predicate StartsWith(s: string, prefix: string)
  {
    |prefix| <= |s| && s[..|prefix|] == prefix
  }

  /** `strstr(s, pat) != NULL`. */
  predicate Contains(s: string, pat: string)
    decreases |s|
  {
    StartsWith(s, pat) || (s != [] && Contains(s[1..], pat))
  }

  /** A pattern found in a prefix of `s` is found in `s`. */
  lemma {:induction false} ContainsPrefix(s: string, j: nat, pat: string)
    requires j <= |s| && Contains(s[..j], pat)
    ensures Contains(s, pat)
    decreases j
  {
    if StartsWith(s[..j], pat) {
      assert s[..j][..|pat|] == s[..|pat|];
    } else {
      assert s[..j][1..] == s[1..][..j - 1];
      ContainsPrefix(s[1..], j - 1, pat);
    }
  }

  /** A pattern found in a suffix of `s` is found in `s`. */
  lemma {:induction false} ContainsSuffix(s: string, i: nat, pat: string)
    requires i <= |s| && Contains(s[i..], pat)
    ensures Contains(s, pat)
    decreases i
  {
    if i > 0 {
      assert s[1..][i - 1..] == s[i..];
      ContainsSuffix(s[1..], i - 1, pat);
    }
  }

  /** A pattern found in a slice of `s` is found in `s`: `strstr` on a part never finds more. */
  lemma ContainsSlice(s: string, i: nat, j: nat, pat: string)
    requires i <= j <= |s| && Contains(s[i..j], pat)
    ensures Contains(s, pat)
  {
    assert s[i..j] == s[i..][..j - i];
    ContainsPrefix(s[i..], j - i, pat);
    ContainsSuffix(s, i, pat);
  }

  // ---------------------------------------------------------------------------
  // Decimal digits (printf "%d" and its inverse)
  // ---------------------------------------------------------------------------

  predicate IsDigit(c: char) { '0' <= c <= '9' }

  predicate AllDigits(s: string)
  {
    forall i :: 0 <= i < |s| ==> IsDigit(s[i])
  }

  function DigitChar(d: nat): (c: Octet)
    requires d < 10
    ensures IsDigit(c)
  {
    ('0' as int + d) as char
  }

  function DigitValue(c: char): (d: nat)
    requires IsDigit(c)
    ensures d < 10
  {
    c as int - '0' as int
  }

  /** The text `printf("%d", n)` writes for a non-negative `n`: digits, no leading zero. */
  function Decimal(n: nat): (r: seq<Octet>)
    ensures 0 < |r| && AllDigits(r)
    ensures r[0] == '0' ==> n == 0
    decreases n
  {
    if n < 10 then [DigitChar(n)] else Decimal(n / 10) + [DigitChar(n % 10)]
  }

  /** The number a string of decimal digits denotes. */
  function DigitsValue(ds: string): nat
    requires AllDigits(ds)
    decreases |ds|
  {
    if ds == [] then 0 else 10 * DigitsValue(ds[..|ds| - 1]) + DigitValue(ds[|ds| - 1])
  }

  /** Reading back what `Decimal` writes gives the number. */
  lemma {:induction false} DigitsValueDecimal(n: nat)
    ensures DigitsValue(Decimal(n)) == n
    decreases n
  {
    if n >= 10 {
      var r := Decimal(n);
      assert r[..|r| - 1] == Decimal(n / 10);
      DigitsValueDecimal(n / 10);
    }
  }

  lemma DecimalInjective(m: nat, n: nat)
    requires Decimal(m) == Decimal(n)
    ensures m == n
  {
    DigitsValueDecimal(m);
    DigitsValueDecimal(n);
  }

  function Pow10(k: nat): nat
  {
    if k == 0 then 1 else 10 * Pow10(k - 1)
  }

  /** A number below 10^k is written with at most k characters. */
  lemma {:induction false} DecimalLength(n: nat, k: nat)
    requires 0 < k && n < Pow10(k)
    ensures |Decimal(n)| <= k
    decreases k
  {
    if n >= 10 {
      assert k != 1;
      assert n / 10 < Pow10(k - 1);
      DecimalLength(n / 10, k - 1);
    }
  }

  /** A non-negative 32-bit `int` is written with at most 10 characters. */
  lemma DecimalBound(n: nat)
    requires n < 0x8000_0000
    ensures |Decimal(n)| <= 10
  {
    assert Pow10(10) == 10_000_000_000;
    DecimalLength(n, 10);
  }

  /** Three-digit numbers are written with three characters. */
  lemma DecimalLength3(n: nat)
    requires 100 <= n < 1000
    ensures |Decimal(n)| == 3
  {
    assert 10 <= n / 10 < 100 && 1 <= n / 10 / 10 < 10;
    assert |Decimal(n / 10 / 10)| == 1;
    assert |Decimal(n / 10)| == 2;
  }

  /** The length of the leading run of digits of `s`. */
  function DigitRun(s: string): (n: nat)
    ensures n <= |s| && AllDigits(s[..n])
    ensures n < |s| ==> !IsDigit(s[n])
    decreases |s|
  {
    if s == [] || !IsDigit(s[0]) then 0 else 1 + DigitRun(s[1..])
  }

  lemma {:induction false} DigitRunIs(s: string, n: nat)
    requires n <= |s| && AllDigits(s[..n])
    requires n < |s| ==> !IsDigit(s[n])
    ensures DigitRun(s) == n
    decreases n
  {
    if n > 0 {
      assert s[..n][0] == s[0];
      assert s[1..][..n - 1] == s[..n][1..];
      DigitRunIs(s[1..], n - 1);
    }
  }
}
