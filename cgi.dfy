/**
 * `handle_cgi_request`: the split of the target held in the request's
 * `filename` buffer into a program name and an argument vector, done in
 * place with NUL writes and `strtok`, and the fork / capture-file / relay
 * protocol around the program's run.
 */
module Cgi {
  import opened Libc
  import opened Wrappers
  import opened FileSystem
  import opened Response

  /** The length of `/cgi-like/`, which `program = filename + 10` skips. */
  const PrefixLength: nat := 10
  /** `char filename[256]` and `char *args[256]`. */
  const BufferSize: nat := 256
  /** `NULL` among the buffer indices that model `char *` values. */
  const NULL: int := -1
  /** The delimiters `strtok` is given. */
  const Amp: set<char> := {'&'}

  // ---------------------------------------------------------------------------
  // What the split means, on the target as a string
  // ---------------------------------------------------------------------------

  /** The index of the first `?` after the prefix (`strchr(program, '?')`), or the end. */
  function QueryMark(t: string): (q: nat)
    requires |t| >= PrefixLength
    ensures PrefixLength <= q <= |t|
    ensures forall i :: PrefixLength <= i < q ==> t[i] != '?'
    ensures q < |t| ==> t[q] == '?'
  {
    PrefixLength + RunLen(t[PrefixLength..], {'?'})
  }

  /** The program name: everything after the prefix up to the first `?`. */
  function Program(t: string): (p: string)
    requires |t| >= PrefixLength
    ensures PrefixLength + |p| <= |t| && t[PrefixLength..PrefixLength + |p|] == p
    ensures '?' !in p
    ensures PrefixLength + |p| == |t| || t[PrefixLength + |p|] == '?'
  {
    t[PrefixLength..QueryMark(t)]
  }

  /** The arguments: the non-empty `&`-separated pieces after the `?`, none without one. */
  function Args(t: string): (a: seq<string>)
    requires |t| >= PrefixLength
    ensures forall k :: 0 <= k < |a| ==> a[k] != [] && '&' !in a[k]
    ensures '?' !in t[PrefixLength..] ==> a == []
  {
    if QueryMark(t) < |t| then
      assert t[PrefixLength..][QueryMark(t) - PrefixLength] == '?';
      TokensShape(t[QueryMark(t) + 1..], Amp);
      Tokens(t[QueryMark(t) + 1..], Amp)
    else []
  }

  /**
   * The positions the split overwrites with NUL: the `?`, and each `&`
   * that ends an argument (the first `&` after a non-empty piece).
   */
  predicate IsCut(t: string, i: int)
    requires |t| >= PrefixLength
  {
    var q := QueryMark(t);
    (i == q && q < |t|) || (q + 1 < i < |t| && t[i] == '&' && t[i - 1] != '&')
  }

  /** The target that runs `program` with `args`: `/cgi-like/<program>?<arg>&<arg>...`. */
  function CgiTarget(program: string, args: seq<string>): string
  {
    "/cgi-like/" + (program + ("?" + Join(args, '&')))
  }

  /** A target built from a program name and arguments splits back into them. */
  lemma SplitJoin(program: string, args: seq<string>)
    requires forall i :: 0 <= i < |program| ==> program[i] != '?'
    requires forall k :: 0 <= k < |args| ==> args[k] != [] && '&' !in args[k]
    ensures Program(CgiTarget(program, args)) == program
    ensures Args(CgiTarget(program, args)) == args
  {
    var j := Join(args, '&');
    var u := program + ("?" + j);
    var t := CgiTarget(program, args);
    assert t == "/cgi-like/" + u;
    assert t[PrefixLength..] == u;
    forall i | 0 <= i < |program| ensures u[i] !in {'?'} {
      assert u[i] == program[i];
    }
    RunLenIs(u, {'?'}, |program|);
    assert QueryMark(t) == PrefixLength + |program|;
    assert t[PrefixLength..QueryMark(t)] == program;
    assert t[QueryMark(t) + 1..] == j;
    TokensJoin(args, '&');
    assert Amp == {'&'};
    assert Args(t) == Tokens(j, Amp);
    assert Args(t) == args;
    assert Program(t) == program;
  }

  /** Without a `?` the whole rest of the target is the program and there is no argument. */
  lemma NoQuery(t: string)
    requires |t| >= PrefixLength && forall i :: PrefixLength <= i < |t| ==> t[i] != '?'
    ensures Program(t) == t[PrefixLength..] && Args(t) == []
  {
    var u := t[PrefixLength..];
    forall i | 0 <= i < |u| ensures u[i] !in {'?'} {
      assert u[i] == t[PrefixLength + i];
    }
    RunLenIs(u, {'?'}, |u|);
  }

  /** A target that fits the buffer has at most 122 arguments, so `args[arg_count]` stays inside `args[256]`. */
  lemma ArgsBound(t: string)
    requires PrefixLength <= |t| < BufferSize
    ensures |Args(t)| <= 122
  {
    if QueryMark(t) < |t| {
      TokensCount(t[QueryMark(t) + 1..], Amp);
    }
  }

  // ---------------------------------------------------------------------------
  // The split, in place
  // ---------------------------------------------------------------------------

  /**
   * What one `strtok` call does to a buffer `before` whose C string at
   * `save` is `s`: when only delimiters are left it returns NULL and the
   * buffer is unchanged; otherwise it returns the index of the token, and
   * when a delimiter follows the token it writes a NUL over it and
   * resumes past it, else it resumes at the end of the string.
   */
  ghost predicate StrTokSpec(s: string, save: nat, tok: int, next: nat, before: seq<char>, after: seq<char>)
  {
    var span := Span(s, Amp);
    var end := save + span + RunLen(s[span..], Amp);
    && (span == |s| ==> tok == NULL && next == save + |s| && after == before)
    && (span < |s| && end < save + |s| ==>
          tok == save + span && next == end + 1 && end < |before| && after == before[end := NUL])
    && (span < |s| && end == save + |s| ==> tok == save + span && next == end && after == before)
  }

  /**
   * `strtok` on the buffer, with its saved position passed in and handed
   * back (`save` is where the call resumes; NULL as the first argument
   * means "resume at `save`"): skip the delimiters, return NULL at the
   * end of the string, otherwise return the start of the token and end it
   * with a NUL written over the delimiter that follows it, if any.
   */
  method StrTok(buf: array<char>, save: nat, ghost s: string) returns (tok: int, next: nat)
    requires save <= buf.Length && CStr(buf[save..]) == s
    modifies buf
    ensures StrTokSpec(s, save, tok, next, old(buf[..]), buf[..])
  {
    var str := CStr(buf[save..]);
    var span := Span(str, Amp);
    if span == |str| {
      return NULL, save + |str|;
    }
    var stop := save + span + RunLen(str[span..], Amp);
    if stop < save + |str| {
      buf[stop] := NUL;
      return save + span, stop + 1;
    }
    return save + span, stop;
  }

  /** Where a token lies in the target: after the `?`, `&`-free, ended by `&` or the end. */
  ghost predicate TokenAt(t: string, a: int, w: string)
    requires |t| >= PrefixLength
  {
    QueryMark(t) < a && w != [] && a + |w| <= |t| && t[a..a + |w|] == w && '&' !in w
      && (a + |w| == |t| || t[a + |w|] == '&')
  }

  /** The `&`s `strtok` skips before a token hold no cut and start no argument. */
  lemma SkipStep(t: string, p: nat) returns (a: nat)
    requires PrefixLength <= |t| && QueryMark(t) < p <= |t|
    requires p == QueryMark(t) + 1 || p == |t| || t[p - 1] == '&'
    ensures a == p + Span(t[p..], Amp)
    ensures forall i :: p <= i < a ==> !IsCut(t, i)
    ensures a < |t| ==> t[a] != '&'
    ensures Tokens(t[p..], Amp) == Tokens(t[a..], Amp)
  {
    var s := t[p..];
    var span := Span(s, Amp);
    a := p + span;
    SkipDelimsSpan(s, Amp);
    forall i | p <= i < a ensures !IsCut(t, i) {
      assert t[i] == s[i - p];
      if i > p {
        assert t[i - 1] == s[i - 1 - p];
      }
    }
    assert s[span..] == t[a..];
    if a < |t| {
      assert t[a] == s[span];
      assert SkipDelims(t[a..], Amp) == t[a..];
    } else {
      assert t[a..] == [];
    }
  }

  /** Where `strtok` resumes after a token ending at `stop`: past the `&` it overwrote, if any. */
  function Resume(t: string, stop: nat): nat
  {
    if stop < |t| then stop + 1 else stop
  }

  /**
   * The token `strtok` returns at `a`: it is the first remaining argument,
   * holds no cut, and the `&` that ends it, if any, is a cut.
   */
  lemma TokenStep(t: string, a: nat) returns (stop: nat)
    requires PrefixLength <= |t| && QueryMark(t) < a < |t| && t[a] != '&'
    ensures stop == a + RunLen(t[a..], Amp)
    ensures a < stop <= |t|
    ensures Tokens(t[a..], Amp) == [t[a..stop]] + Tokens(t[Resume(t, stop)..], Amp)
  {
    var w := t[a..];
    var n := RunLen(w, Amp);
    stop := a + n;
    assert w[0] == t[a];
    assert SkipDelims(w, Amp) == w;
    assert Tokens(w, Amp) == [w[..n]] + Tokens(w[n..], Amp);
    assert w[..n] == t[a..stop] && w[n..] == t[stop..];
    if stop < |t| {
      assert t[stop] == w[n];
      TokensSkipDelim(t[stop..], Amp);
      assert t[stop..][1..] == t[stop + 1..];
    }
  }

  /** The same token, as it lies in the target. */
  lemma TokenStepAt(t: string, a: nat, stop: nat)
    requires PrefixLength <= |t| && QueryMark(t) < a < |t| && t[a] != '&'
    requires stop == a + RunLen(t[a..], Amp)
    ensures TokenAt(t, a, t[a..stop])
  {
    var w := t[a..];
    var n := RunLen(w, Amp);
    assert w[0] == t[a];
    assert w[..n] == t[a..stop];
    assert '&' !in w[..n] by {
      forall i | 0 <= i < n ensures w[..n][i] != '&' {
        assert w[i] !in Amp;
      }
    }
    if stop < |t| {
      assert t[stop] == w[n];
    }
    assert a + |t[a..stop]| == stop;
  }

  /** The token `strtok` returns at `a` holds no cut, and the `&` that ends it, if any, is a cut. */
  lemma TokenCuts(t: string, a: nat, stop: nat)
    requires PrefixLength <= |t| && QueryMark(t) < a < |t| && t[a] != '&'
    requires stop == a + RunLen(t[a..], Amp)
    ensures forall i :: a <= i < stop ==> !IsCut(t, i)
    ensures stop < |t| ==> IsCut(t, stop)
  {
    var w := t[a..];
    forall i | a <= i < stop ensures !IsCut(t, i) {
      assert t[i] == w[i - a];
    }
    if stop < |t| {
      assert t[stop] == w[stop - a];
      assert t[stop - 1] == w[stop - a - 1];
    }
  }

  /** The buffer `b` holding the target `t`, once the cuts before index `p` are made, in order. */
  ghost function CutUpTo(b: seq<char>, t: string, p: nat): (r: seq<char>)
    requires |t| >= PrefixLength && p <= |b|
    ensures |r| == |b|
    decreases p
  {
    if p == 0 then b
    else if IsCut(t, p - 1) then CutUpTo(b, t, p - 1)[p - 1 := NUL]
    else CutUpTo(b, t, p - 1)
  }

  /** Each position of the buffer once the cuts before `p` are made. */
  lemma {:induction false} CutUpToAt(b: seq<char>, t: string, p: nat, i: nat)
    requires |t| >= PrefixLength && p <= |b| && i < |b|
    ensures CutUpTo(b, t, p)[i] == if i < p && IsCut(t, i) then NUL else b[i]
    decreases p
  {
    if p > 0 {
      CutUpToAt(b, t, p - 1, i);
    }
  }

  /** Passing positions that are no cut changes nothing. */
  lemma {:induction false} CutSkip(b: seq<char>, t: string, p: nat, m: nat)
    requires |t| >= PrefixLength && p <= m <= |b|
    requires forall i :: p <= i < m ==> !IsCut(t, i)
    ensures CutUpTo(b, t, p) == CutUpTo(b, t, m)
    decreases m
  {
    if p < m {
      CutSkip(b, t, p, m - 1);
    }
  }

  /** Nothing is cut before the `?`. */
  lemma CutNone(b: seq<char>, t: string)
    requires |t| >= PrefixLength && QueryMark(t) <= |b|
    ensures CutUpTo(b, t, QueryMark(t)) == b
  {
    CutSkip(b, t, 0, QueryMark(t));
  }

  /** Making the cut at `i` is writing a NUL there. */
  lemma CutAt(b: seq<char>, t: string, i: nat)
    requires |t| >= PrefixLength && i < |b| && IsCut(t, i)
    ensures CutUpTo(b, t, i)[i := NUL] == CutUpTo(b, t, i + 1)
  {
  }

  /** Before any cut at or after `p`, the target from `p` on and its NUL are in place. */
  lemma TailKept(b: seq<char>, t: string, p: nat)
    requires |t| >= PrefixLength && |t| < |b| && t == b[..|t|] && b[|t|] == NUL
    requires p <= |t|
    ensures CutUpTo(b, t, p)[p..|t|] == t[p..] && CutUpTo(b, t, p)[|t|] == NUL
  {
    var c := CutUpTo(b, t, p);
    forall j | p <= j < |t| ensures c[j] == t[j] {
      CutUpToAt(b, t, p, j);
    }
    CutUpToAt(b, t, p, |t|);
  }

  /** Before any cut at or after `p`, the string at `p` is the rest of the target. */
  lemma CutTail(b: seq<char>, t: string, p: nat)
    requires |t| >= PrefixLength && |t| < |b| && t == b[..|t|] && b[|t|] == NUL && NUL !in t
    requires p <= |t|
    ensures CStrAt(CutUpTo(b, t, p), p) == t[p..]
  {
    TailKept(b, t, p);
    assert NUL !in t[p..] by {
      forall j | 0 <= j < |t[p..]| ensures t[p..][j] != NUL {
        assert t[p..][j] == t[p + j];
      }
    }
    CStrAtIs(CutUpTo(b, t, p), p, t[p..]);
  }

  /** No cut falls inside the program name, so its characters stay in place. */
  lemma ProgramKept(b: seq<char>, t: string)
    requires |t| >= PrefixLength && |t| < |b| && t == b[..|t|]
    ensures CutUpTo(b, t, |t|)[PrefixLength..QueryMark(t)] == Program(t)
  {
    var c := CutUpTo(b, t, |t|);
    var q := QueryMark(t);
    forall j | PrefixLength <= j < q ensures c[j] == t[j] {
      assert !IsCut(t, j);
      CutUpToAt(b, t, |t|, j);
    }
    assert c[PrefixLength..q] == t[PrefixLength..q];
  }

  /** Once every cut is made, the program name is a C string in place. */
  lemma CutProgram(b: seq<char>, t: string)
    requires |t| >= PrefixLength && |t| < |b| && t == b[..|t|] && b[|t|] == NUL && NUL !in t
    ensures CStrAt(CutUpTo(b, t, |t|), PrefixLength) == Program(t)
  {
    var w := Program(t);
    ProgramKept(b, t);
    assert NUL !in w by {
      forall j | 0 <= j < |w| ensures w[j] != NUL {
        assert w[j] == t[PrefixLength + j];
      }
    }
    CutUpToAt(b, t, |t|, QueryMark(t));
    CStrAtIs(CutUpTo(b, t, |t|), PrefixLength, w);
  }

  /** No cut falls inside a token, so its characters stay in place. */
  lemma TokenKept(b: seq<char>, t: string, a: nat, w: string)
    requires |t| >= PrefixLength && |t| < |b| && t == b[..|t|]
    requires TokenAt(t, a, w)
    ensures CutUpTo(b, t, |t|)[a..a + |w|] == w
  {
    var c := CutUpTo(b, t, |t|);
    forall j | a <= j < a + |w| ensures c[j] == w[j - a] {
      assert t[j] == w[j - a];
      CutUpToAt(b, t, |t|, j);
    }
  }

  /** A token ends at a cut, or at the NUL after the target. */
  lemma TokenEnd(b: seq<char>, t: string, a: nat, w: string)
    requires |t| >= PrefixLength && |t| < |b| && b[|t|] == NUL
    requires TokenAt(t, a, w)
    ensures CutUpTo(b, t, |t|)[a + |w|] == NUL
  {
    if a + |w| < |t| {
      assert w[|w| - 1] == t[a + |w| - 1];
      assert IsCut(t, a + |w|);
    }
    CutUpToAt(b, t, |t|, a + |w|);
  }

  /** Once every cut is made, each token is a C string in place. */
  lemma CutToken(b: seq<char>, t: string, a: nat, w: string)
    requires |t| >= PrefixLength && |t| < |b| && t == b[..|t|] && b[|t|] == NUL && NUL !in t
    requires TokenAt(t, a, w)
    ensures CStrAt(CutUpTo(b, t, |t|), a) == w
  {
    TokenKept(b, t, a, w);
    TokenEnd(b, t, a, w);
    assert NUL !in w by {
      forall j | 0 <= j < |w| ensures w[j] != NUL {
        assert w[j] == t[a + j];
      }
    }
    CStrAtIs(CutUpTo(b, t, |t|), a, w);
  }

  /** The end of the `strtok` loop: only `&`s are left, so no argument and no cut. */
  lemma AdvanceEnd(b: seq<char>, t: string, p: nat)
    requires PrefixLength <= |t| < |b| && QueryMark(t) < p <= |t|
    requires p == QueryMark(t) + 1 || p == |t| || t[p - 1] == '&'
    requires Span(t[p..], Amp) == |t| - p
    ensures Tokens(t[p..], Amp) == [] && CutUpTo(b, t, p) == CutUpTo(b, t, |t|)
  {
    var a' := SkipStep(t, p);
    assert t[|t|..] == [];
    CutSkip(b, t, p, |t|);
  }

  /**
   * A turn of the `strtok` loop that finds a token at `a`, after the `&`s
   * it skips from `p`, ending at `stop`: the token is the next argument.
   */
  lemma AdvanceToken(t: string, p: nat, a: nat, stop: nat)
    requires PrefixLength <= |t| && QueryMark(t) < p <= |t|
    requires p == QueryMark(t) + 1 || p == |t| || t[p - 1] == '&'
    requires a == p + Span(t[p..], Amp) < |t|
    requires stop == a + RunLen(t[a..], Amp)
    ensures a < stop <= |t|
    ensures TokenAt(t, a, t[a..stop])
    ensures Tokens(t[p..], Amp) == [t[a..stop]] + Tokens(t[Resume(t, stop)..], Amp)
  {
    var a' := SkipStep(t, p);
    assert a' == a;
    var e := TokenStep(t, a);
    assert e == stop;
    TokenStepAt(t, a, stop);
  }

  /** The same turn: the cuts made so far reach the `&` after the token, if any. */
  lemma AdvanceCut(b: seq<char>, t: string, p: nat, a: nat, stop: nat)
    requires PrefixLength <= |t| < |b| && QueryMark(t) < p <= |t|
    requires p == QueryMark(t) + 1 || p == |t| || t[p - 1] == '&'
    requires a == p + Span(t[p..], Amp) < |t|
    requires stop == a + RunLen(t[a..], Amp)
    ensures stop < |t| ==> CutUpTo(b, t, p)[stop := NUL] == CutUpTo(b, t, stop + 1)
    ensures stop == |t| ==> CutUpTo(b, t, p) == CutUpTo(b, t, |t|)
  {
    var a' := SkipStep(t, p);
    assert a' == a;
    TokenCuts(t, a, stop);
    CutSkip(b, t, p, stop);
    if stop < |t| {
      CutAt(b, t, stop);
    }
  }

  /**
   * One `strtok` call of the split, on the buffer `before` in which the cuts
   * before `p` are made: it either finds no argument left, or returns the
   * next argument, makes the cut after it, and resumes past that cut.
   */
  lemma StrTokStep(b: seq<char>, t: string, p: nat, before: seq<char>, after: seq<char>, tok: int, next: nat)
      returns (stop: nat)
    requires PrefixLength <= |t| < |b| && QueryMark(t) < p <= |t|
    requires p == QueryMark(t) + 1 || p == |t| || t[p - 1] == '&'
    requires before == CutUpTo(b, t, p)
    requires StrTokSpec(t[p..], p, tok, next, before, after)
    ensures tok == NULL ==> next == |t| && Tokens(t[p..], Amp) == [] && after == CutUpTo(b, t, |t|)
    ensures tok != NULL ==>
      && p <= tok < stop <= |t| && next == Resume(t, stop)
      && TokenAt(t, tok, t[tok..stop])
      && Tokens(t[p..], Amp) == [t[tok..stop]] + Tokens(t[next..], Amp)
      && after == CutUpTo(b, t, next)
      && (next == |t| || t[next - 1] == '&')
  {
    if Span(t[p..], Amp) == |t[p..]| {
      AdvanceEnd(b, t, p);
      stop := |t|;
    } else {
      stop := StrTokFound(b, t, p, before, after, tok, next);
    }
  }

  /** `StrTokStep` when an argument is left: `strtok` returns it. */
  lemma StrTokFound(b: seq<char>, t: string, p: nat, before: seq<char>, after: seq<char>, tok: int, next: nat)
      returns (stop: nat)
    requires PrefixLength <= |t| < |b| && QueryMark(t) < p <= |t|
    requires p == QueryMark(t) + 1 || p == |t| || t[p - 1] == '&'
    requires before == CutUpTo(b, t, p)
    requires StrTokSpec(t[p..], p, tok, next, before, after)
    requires Span(t[p..], Amp) < |t[p..]|
    ensures p <= tok < stop <= |t| && next == Resume(t, stop)
    ensures TokenAt(t, tok, t[tok..stop])
    ensures Tokens(t[p..], Amp) == [t[tok..stop]] + Tokens(t[next..], Amp)
    ensures after == CutUpTo(b, t, next)
    ensures next == |t| || t[next - 1] == '&'
  {
    stop := SpecFoundAt(t, p, tok, next, before, after);
    FoundToken(t, p, tok, stop, next);
    FoundCut(b, t, p, tok, stop, next, before, after);
  }

  /** The cut `strtok` makes after a token is the next one in order. */
  lemma FoundCut(b: seq<char>, t: string, p: nat, tok: nat, stop: nat, next: nat, before: seq<char>, after: seq<char>)
    requires PrefixLength <= |t| < |b| && QueryMark(t) < p <= |t|
    requires p == QueryMark(t) + 1 || p == |t| || t[p - 1] == '&'
    requires tok == p + Span(t[p..], Amp) < |t|
    requires stop == tok + RunLen(t[tok..], Amp) && next == Resume(t, stop)
    requires before == CutUpTo(b, t, p)
    requires after == if stop < |t| then before[stop := NUL] else before
    ensures after == CutUpTo(b, t, next)
  {
    AdvanceCut(b, t, p, tok, stop);
  }

  lemma DropDrop(s: string, i: nat, j: nat)
    requires i + j <= |s|
    ensures s[i..][j..] == s[i + j..]
  {
  }

  /** `AdvanceToken` stated for the token `strtok` returns and the position it resumes at. */
  lemma FoundToken(t: string, p: nat, tok: nat, stop: nat, next: nat)
    requires PrefixLength <= |t| && QueryMark(t) < p <= |t|
    requires p == QueryMark(t) + 1 || p == |t| || t[p - 1] == '&'
    requires tok == p + Span(t[p..], Amp) < |t|
    requires stop == tok + RunLen(t[tok..], Amp) && next == Resume(t, stop)
    ensures tok < stop <= |t|
    ensures TokenAt(t, tok, t[tok..stop])
    ensures Tokens(t[p..], Amp) == [t[tok..stop]] + Tokens(t[next..], Amp)
    ensures next == |t| || t[next - 1] == '&'
  {
    AdvanceToken(t, p, tok, stop);
    RunEnd(t, tok, stop);
  }

  /** A run of non-`&` characters ends at an `&` or at the end. */
  lemma RunEnd(t: string, a: nat, stop: nat)
    requires a <= |t| && stop == a + RunLen(t[a..], Amp)
    ensures stop <= |t|
    ensures Resume(t, stop) == |t| || t[Resume(t, stop) - 1] == '&'
  {
    if stop < |t| {
      assert t[a..][stop - a] == t[stop];
    }
  }

  /** `SpecFound` on the rest of the target from `p`. */
  lemma SpecFoundAt(t: string, p: nat, tok: int, next: nat, before: seq<char>, after: seq<char>) returns (stop: nat)
    requires p <= |t| && StrTokSpec(t[p..], p, tok, next, before, after) && Span(t[p..], Amp) < |t[p..]|
    ensures tok == p + Span(t[p..], Amp) < |t|
    ensures stop == tok + RunLen(t[tok..], Amp) <= |t|
    ensures next == Resume(t, stop)
    ensures stop < |t| ==> stop < |before|
    ensures after == if stop < |t| then before[stop := NUL] else before
  {
    var end := SpecFound(t[p..], p, tok, next, before, after);
    DropDrop(t, p, Span(t[p..], Amp));
    stop := end;
  }

  /** What `StrTokSpec` says of a call that finds a token. */
  lemma SpecFound(s: string, save: nat, tok: int, next: nat, before: seq<char>, after: seq<char>) returns (end: nat)
    requires StrTokSpec(s, save, tok, next, before, after) && Span(s, Amp) < |s|
    ensures end == save + Span(s, Amp) + RunLen(s[Span(s, Amp)..], Amp) && end <= save + |s|
    ensures tok == save + Span(s, Amp)
    ensures end < save + |s| ==> next == end + 1 && end < |before|
    ensures end == save + |s| ==> next == end
    ensures after == if end < save + |s| then before[end := NUL] else before
  {
    end := save + Span(s, Amp) + RunLen(s[Span(s, Amp)..], Amp);
  }

  /** The arguments `ws` lie in the target at the indices `starts`. */
  ghost predicate TokensAt(t: string, starts: seq<int>, ws: seq<string>)
    requires |t| >= PrefixLength
  {
    |starts| == |ws| && forall k :: 0 <= k < |ws| ==> TokenAt(t, starts[k], ws[k])
  }

  lemma TokensAtAppend(t: string, starts: seq<int>, ws: seq<string>, a: int, w: string)
    requires |t| >= PrefixLength && TokensAt(t, starts, ws) && TokenAt(t, a, w)
    ensures TokensAt(t, starts + [a], ws + [w])
  {
  }

  /** Moving the next argument from the ones left to the ones found keeps them adding up. */
  lemma AppendFound(found: seq<string>, w: string, left: seq<string>, later: seq<string>, all: seq<string>)
    requires found + left == all && left == [w] + later
    ensures (found + [w]) + later == all
  {
  }

  /** The buffer `b` holds the target `t` as a C string. */
  ghost predicate Holds(b: seq<char>, t: string)
  {
    PrefixLength <= |t| < |b| && t == b[..|t|] && b[|t|] == NUL && NUL !in t
  }

  /**
   * The state of the `strtok` loop on the buffer `b0` that held the target
   * `t`: `strtok` resumes at `p` (at the end once `done`), the buffer `buf`
   * has the cuts before `p` made, and the arguments `found` so far lie at
   * the indices `starts`; with the ones left after `p` they are all the
   * arguments.
   */
  ghost predicate SplitState(b0: seq<char>, t: string, p: nat, done: bool, buf: seq<char>,
                             found: seq<string>, starts: seq<int>)
  {
    && Holds(b0, t) && QueryMark(t) < p <= |t|
    && (!done ==> p == QueryMark(t) + 1 || p == |t| || t[p - 1] == '&')
    && buf == CutUpTo(b0, t, p)
    && (!done ==> found + Tokens(t[p..], Amp) == Args(t))
    && (done ==> found == Args(t) && p == |t|)
    && TokensAt(t, starts, found)
  }

  /** The loop state before the first `strtok` call, once the `?` is cut. */
  lemma SplitStart(b0: seq<char>, t: string, buf: seq<char>)
    requires Holds(b0, t) && QueryMark(t) < |t|
    requires buf == CutUpTo(b0, t, QueryMark(t) + 1)
    ensures SplitState(b0, t, QueryMark(t) + 1, false, buf, [], [])
  {
  }

  /**
   * One `strtok` call of the loop: from a loop state and what the call did,
   * the next loop state, with the argument `w` it found, if any.
   */
  lemma SplitStep(b0: seq<char>, t: string, p: nat, before: seq<char>, after: seq<char>,
                  found: seq<string>, starts: seq<int>, tok: int, next: nat) returns (w: string)
    requires SplitState(b0, t, p, false, before, found, starts)
    requires StrTokSpec(t[p..], p, tok, next, before, after)
    ensures tok == NULL ==> next == |t| && SplitState(b0, t, next, true, after, found, starts)
    ensures tok != NULL ==> p < next && SplitState(b0, t, next, false, after, found + [w], starts + [tok])
    ensures tok != NULL ==> |found| < |Args(t)|
  {
    var stop := StrTokStep(b0, t, p, before, after, tok, next);
    if tok == NULL {
      w := [];
    } else {
      w := t[tok..stop];
      AppendFound(found, w, Tokens(t[p..], Amp), Tokens(t[next..], Amp), Args(t));
      TokensAtAppend(t, starts, found, tok, w);
      assert |found + [w] + Tokens(t[next..], Amp)| == |Args(t)|;
    }
  }

  /** In a loop state the C string at `p` is what is left of the target. */
  lemma SplitRest(b0: seq<char>, t: string, p: nat, done: bool, buf: seq<char>, found: seq<string>, starts: seq<int>)
    requires SplitState(b0, t, p, done, buf, found, starts)
    ensures CStr(buf[p..]) == t[p..] && |found| <= |Args(t)|
  {
    CutTail(b0, t, p);
    if !done {
      assert |found + Tokens(t[p..], Amp)| == |Args(t)|;
    }
  }

  /**
   * One `strtok(NULL, "&")` call of the loop, from a loop state: the state
   * after it, with the argument `w` it found when it returns one.
   */
  method NextArg(filename: array<char>, p: nat, ghost b0: seq<char>, ghost t: string,
                 ghost found: seq<string>, ghost starts: seq<int>) returns (tok: int, next: nat, ghost w: string)
    requires SplitState(b0, t, p, false, filename[..], found, starts)
    modifies filename
    ensures tok == NULL ==> SplitState(b0, t, next, true, filename[..], found, starts)
    ensures tok != NULL ==>
      p < next && |found| < |Args(t)| && SplitState(b0, t, next, false, filename[..], found + [w], starts + [tok])
  {
    ghost var before := filename[..];
    SplitRest(b0, t, p, false, before, found, starts);
    assert filename[p..] == before[p..];
    tok, next := StrTok(filename, p, t[p..]);
    w := SplitStep(b0, t, p, before, filename[..], found, starts, tok, next);
  }

  /**
   * The `strtok` loop of `handle_cgi_request`, started just past the `?`
   * (already overwritten): it collects the indices of the arguments in
   * `args`, ends them with NULL, and leaves every cut made.
   */
  method CollectArgs(filename: array<char>, q: nat, ghost b0: seq<char>, ghost t: string)
      returns (args: array<int>, argCount: nat)
    requires filename.Length == |b0| == BufferSize && Holds(b0, t)
    requires q == QueryMark(t) < |t|
    requires filename[..] == CutUpTo(b0, t, q + 1)
    modifies filename
    ensures filename[..] == CutUpTo(b0, t, |t|)
    ensures fresh(args) && args.Length == BufferSize
    ensures argCount == |Args(t)| < BufferSize && args[argCount] == NULL
    ensures TokensAt(t, args[..argCount], Args(t))
  {
    ArgsBound(t);
    args := new int[BufferSize];
    argCount := 0;
    ghost var found: seq<string> := [];
    ghost var starts: seq<int> := [];
    var p := q + 1;
    var done := false;
    SplitStart(b0, t, filename[..]);
    while !done
      invariant SplitState(b0, t, p, done, filename[..], found, starts)
      invariant args.Length == BufferSize && argCount == |starts| && args[..argCount] == starts
      decreases |t| - p, if done then 0 else 1
    {
      var tok, next, w := NextArg(filename, p, b0, t, found, starts);
      if tok == NULL {
        done := true;
      } else {
        ghost var buf := filename[..];
        args[argCount] := tok;
        argCount := argCount + 1;
        found := found + [w];
        starts := starts + [tok];
        assert args[..argCount] == starts;
        assert filename[..] == buf;
      }
      p := next;
    }
    args[argCount] := NULL;
    assert args[..argCount] == starts;
  }

  /**
   * Once every cut is made, the program name and each argument are C
   * strings in place, and the buffer differs from the original exactly at
   * the cuts.
   */
  lemma SplitDone(b0: seq<char>, t: string, starts: seq<int>)
    requires Holds(b0, t) && TokensAt(t, starts, Args(t))
    ensures CStrAt(CutUpTo(b0, t, |t|), PrefixLength) == Program(t)
    ensures forall k :: 0 <= k < |starts| ==>
      0 <= starts[k] < |t| && CStrAt(CutUpTo(b0, t, |t|), starts[k]) == Args(t)[k]
    ensures forall i :: 0 <= i < |b0| ==> CutUpTo(b0, t, |t|)[i] == if IsCut(t, i) then NUL else b0[i]
  {
    CutProgram(b0, t);
    forall k | 0 <= k < |starts|
      ensures 0 <= starts[k] < |t| && CStrAt(CutUpTo(b0, t, |t|), starts[k]) == Args(t)[k]
    {
      CutToken(b0, t, starts[k], Args(t)[k]);
    }
    forall i | 0 <= i < |b0|
      ensures CutUpTo(b0, t, |t|)[i] == if IsCut(t, i) then NUL else b0[i]
    {
      CutUpToAt(b0, t, |t|, i);
    }
  }

  /**
   * The first part of `handle_cgi_request` on the request's `filename`
   * buffer: `program` points just past the prefix, the `?` is overwritten
   * with NUL, `strtok` cuts the rest at `&`, and `args` receives the
   * pieces followed by a NULL.
   */
  method SplitTarget(filename: array<char>) returns (program: nat, args: array<int>, argCount: nat)
    requires filename.Length == BufferSize
    requires PrefixLength <= |CStr(filename[..])| < BufferSize
    modifies filename
    ensures var t := CStr(old(filename[..]));
      forall i :: 0 <= i < BufferSize ==> filename[i] == if IsCut(t, i) then NUL else old(filename[i])
    ensures program == PrefixLength && CStrAt(filename[..], program) == Program(CStr(old(filename[..])))
    ensures fresh(args) && args.Length == BufferSize
    ensures argCount == |Args(CStr(old(filename[..])))| && argCount < BufferSize
    ensures forall k :: 0 <= k < argCount ==>
      0 <= args[k] < BufferSize && CStrAt(filename[..], args[k]) == Args(CStr(old(filename[..])))[k]
    ensures args[argCount] == NULL
  {
    ghost var t := CStr(filename[..]);
    ghost var b0 := filename[..];
    var len := |CStr(filename[..])|;
    program := PrefixLength;
    assert filename[PrefixLength..len] == t[PrefixLength..];
    var q := PrefixLength + RunLen(filename[PrefixLength..len], {'?'});
    CutNone(b0, t);
    if q < len {
      filename[q] := NUL;
      CutAt(b0, t, q);
      args, argCount := CollectArgs(filename, q, b0, t);
    } else {
      CutSkip(b0, t, q, len);
      args := new int[BufferSize];
      argCount := 0;
      args[argCount] := NULL;
      assert TokensAt(t, args[..argCount], Args(t));
    }
    SplitDone(b0, t, args[..argCount]);
  }
}
