/** Character-level routines of the shell: `trim`, `split_tokens`, and a
    model of the C library's `strtok_r`, on which both the whitespace
    tokenizer and the `&` segmentation of a line rest.
    C strings are modelled as sequences of characters holding no NUL byte. */
module Text {

  datatype Option<T> = None | Some(value: T)

  /** Capacity of a `tokens` array; `split_tokens` keeps its last slot for NULL. */
  const MAX_TOKENS: nat := 100

  /** The delimiters of `trim` and `split_tokens`. */
  const Whitespace: set<char> := {' ', '\t', '\n'}

  /** The delimiter that separates the parallel commands of one line. */
  const Ampersand: set<char> := {'&'}

  function Min(a: int, b: int): int { if a < b then a else b }

  predicate Blank(s: seq<char>) { forall i :: 0 <= i < |s| ==> s[i] in Whitespace }

  /** Number of leading characters of `s` that are in `d` (C's strspn). */
  function Span(s: seq<char>, d: set<char>): (n: nat)
    ensures n <= |s|
    ensures forall i :: 0 <= i < n ==> s[i] in d
    ensures n < |s| ==> s[n] !in d
  {
    if s != [] && s[0] in d then 1 + Span(s[1..], d) else 0
  }

  /** Number of leading characters of `s` that are not in `d` (C's strcspn). */
  function CSpan(s: seq<char>, d: set<char>): (n: nat)
    ensures n <= |s|
    ensures forall i :: 0 <= i < n ==> s[i] !in d
    ensures n < |s| ==> s[n] in d
  {
    if s != [] && s[0] !in d then 1 + CSpan(s[1..], d) else 0
  }

  /** The three properties of CSpan determine it. */
  lemma CSpanIs(s: seq<char>, d: set<char>, n: nat)
    requires n <= |s|
    requires forall i :: 0 <= i < n ==> s[i] !in d
    requires n < |s| ==> s[n] in d
    ensures CSpan(s, d) == n
  {
  }

  /** Number of trailing characters of `s` that are in `d`. */
  function BackSpan(s: seq<char>, d: set<char>): (n: nat)
    ensures n <= |s|
    ensures forall i :: |s| - n <= i < |s| ==> s[i] in d
    ensures n < |s| ==> s[|s| - n - 1] !in d
  {
    if s != [] && s[|s| - 1] in d then 1 + BackSpan(s[..|s| - 1], d) else 0
  }

  // ---------------------------------------------------------------- trim

  /** Index of the first character `trim` keeps. */
  function TrimStart(s: seq<char>): nat { Span(s, Whitespace) }

  /** Index one past the last character `trim` keeps. */
  function TrimEnd(s: seq<char>): (e: nat)
    ensures TrimStart(s) <= e <= |s|
  {
    |s| - BackSpan(s[TrimStart(s)..], Whitespace)
  }

  /** What `trim` returns: `s` without its leading and trailing blanks. */
  function Trimmed(s: seq<char>): seq<char> { s[TrimStart(s)..TrimEnd(s)] }

  /** The C `trim`: first advance past leading blanks, then walk a pointer
      back from the last character, cutting blanks off the end. */
  method Trim(s: seq<char>) returns (t: seq<char>)
    ensures t == Trimmed(s)
  {
    var start := 0;
    while start < |s| && s[start] in Whitespace
      invariant 0 <= start <= |s|
      invariant forall i :: 0 <= i < start ==> s[i] in Whitespace
    {
      start := start + 1;
    }
    assert start == TrimStart(s);
    // `end` indexes the last character still kept
    var end := |s| - 1;
    while end > start && s[end] in Whitespace
      invariant start - 1 <= end < |s|
      invariant start < |s| ==> start <= end
      invariant forall i :: end < i < |s| ==> s[i] in Whitespace
    {
      end := end - 1;
    }
    ghost var rest := s[start..];
    assert forall i :: end - start < i < |rest| ==> rest[i] in Whitespace;
    assert end + 1 - start < |rest| ==> rest[end - start] !in Whitespace;
    assert BackSpan(rest, Whitespace) == |s| - end - 1;
    t := s[start..end + 1];
  }

  /** `trim` removes a blank prefix and a blank suffix and nothing else:
      the kept part starts and ends with a non-blank character. */
  lemma TrimmedIsCore(s: seq<char>)
    ensures Trimmed(s) == s[TrimStart(s)..TrimEnd(s)]
    ensures Blank(s[..TrimStart(s)]) && Blank(s[TrimEnd(s)..])
    ensures Trimmed(s) != [] ==> Trimmed(s)[0] !in Whitespace && Trimmed(s)[|Trimmed(s)| - 1] !in Whitespace
  {
    var a, rest := TrimStart(s), s[TrimStart(s)..];
    var n := BackSpan(rest, Whitespace);
    assert forall i :: TrimEnd(s) <= i < |s| ==> s[i] == rest[i - a];
  }

  /** `trim` yields the empty string exactly for blank input. */
  lemma TrimmedEmptyIff(s: seq<char>)
    ensures Trimmed(s) == [] <==> Blank(s)
  {
    if Trimmed(s) == [] {
      TrimmedIsCore(s);
      assert s == s[..TrimStart(s)] + s[TrimEnd(s)..];
    }
  }

  /** Trimming twice is trimming once. */
  lemma TrimmedIdempotent(s: seq<char>)
    ensures Trimmed(Trimmed(s)) == Trimmed(s)
  {
    var t := Trimmed(s);
    TrimmedIsCore(s);
    assert TrimStart(t) == 0;
    assert BackSpan(t, Whitespace) == 0;
  }

  // ------------------------------------------------------------ tokens

  /** The maximal runs of characters outside `d`, in order: the tokens that
      repeated `strtok_r` calls with delimiter set `d` hand out. */
  function Tokens(s: seq<char>, d: set<char>): (ts: seq<seq<char>>)
    ensures |ts| <= |s|
    ensures forall k :: 0 <= k < |ts| ==> ts[k] != [] && forall i :: 0 <= i < |ts[k]| ==> ts[k][i] !in d
    decreases |s|
  {
    if s == [] then []
    else if s[0] in d then Tokens(s[1..], d)
    else
      var n := CSpan(s, d);
      [s[..n]] + Tokens(s[n..], d)
  }

  /** The tokens are made of exactly the non-delimiter characters of `s`,
      in their original order. */
  function Concat(ts: seq<seq<char>>): seq<char>
  {
    if ts == [] then [] else ts[0] + Concat(ts[1..])
  }

  function Strip(s: seq<char>, d: set<char>): (r: seq<char>)
    ensures forall i :: 0 <= i < |r| ==> r[i] !in d
  {
    if s == [] then [] else (if s[0] in d then [] else [s[0]]) + Strip(s[1..], d)
  }

  lemma {:induction false} StripAppend(a: seq<char>, b: seq<char>, d: set<char>)
    ensures Strip(a + b, d) == Strip(a, d) + Strip(b, d)
    decreases |a|
  {
    if a != [] {
      assert (a + b)[0] == a[0] && (a + b)[1..] == a[1..] + b;
      StripAppend(a[1..], b, d);
    } else {
      assert a + b == b;
    }
  }

  lemma {:induction false} StripClean(a: seq<char>, d: set<char>)
    requires forall i :: 0 <= i < |a| ==> a[i] !in d
    ensures Strip(a, d) == a
    decreases |a|
  {
    if a != [] {
      StripClean(a[1..], d);
    }
  }

  /** Tokenizing keeps every non-delimiter character, in source order. */
  lemma {:induction false} TokensKeepOrder(s: seq<char>, d: set<char>)
    ensures Concat(Tokens(s, d)) == Strip(s, d)
    decreases |s|
  {
    if s == [] {
    } else if s[0] in d {
      TokensKeepOrder(s[1..], d);
    } else {
      var n := CSpan(s, d);
      TokensKeepOrder(s[n..], d);
      assert s == s[..n] + s[n..];
      StripAppend(s[..n], s[n..], d);
      StripClean(s[..n], d);
      assert Tokens(s, d)[1..] == Tokens(s[n..], d);
    }
  }

  /** There is no token exactly when every character is a delimiter. */
  lemma {:induction false} TokensEmptyIff(s: seq<char>, d: set<char>)
    ensures Tokens(s, d) == [] <==> forall i :: 0 <= i < |s| ==> s[i] in d
    decreases |s|
  {
    if s != [] && s[0] in d {
      TokensEmptyIff(s[1..], d);
      assert forall i :: 1 <= i < |s| ==> s[i] == s[1..][i - 1];
    }
  }

  lemma {:induction false} TokensSkipLeading(p: seq<char>, m: seq<char>, d: set<char>)
    requires forall i :: 0 <= i < |p| ==> p[i] in d
    ensures Tokens(p + m, d) == Tokens(m, d)
    decreases |p|
  {
    if p != [] {
      assert (p + m)[0] == p[0] && (p + m)[1..] == p[1..] + m;
      TokensSkipLeading(p[1..], m, d);
    } else {
      assert p + m == m;
    }
  }

  lemma {:induction false} TokensSkipTrailing(m: seq<char>, q: seq<char>, d: set<char>)
    requires forall i :: 0 <= i < |q| ==> q[i] in d
    ensures Tokens(m + q, d) == Tokens(m, d)
    decreases |m|
  {
    if m == [] {
      assert m + q == q;
      TokensEmptyIff(q, d);
    } else if m[0] in d {
      assert (m + q)[1..] == m[1..] + q;
      TokensSkipTrailing(m[1..], q, d);
    } else {
      var n := CSpan(m, d);
      assert m + q == m[..n] + (m[n..] + q);
      assert (m + q)[..n] == m[..n];
      if n < |m| {
        assert (m + q)[n] == m[n];
      } else if q != [] {
        assert (m + q)[n] == q[0];
      }
      CSpanIs(m + q, d, n);
      assert (m + q)[n..] == m[n..] + q;
      TokensSkipTrailing(m[n..], q, d);
    }
  }

  /** Trimming does not change the whitespace tokens of a string. */
  lemma TokensOfTrimmed(s: seq<char>)
    ensures Tokens(Trimmed(s), Whitespace) == Tokens(s, Whitespace)
  {
    TrimmedIsCore(s);
    var a, e := TrimStart(s), TrimEnd(s);
    assert s == s[..a] + (s[a..e] + s[e..]);
    TokensSkipLeading(s[..a], s[a..e] + s[e..], Whitespace);
    TokensSkipTrailing(s[a..e], s[e..], Whitespace);
  }

  /** A trimmed string that is a single token is that token: it holds no
      blank at all. */
  lemma SingleTokenTrimmed(s: seq<char>)
    requires Trimmed(s) == s && |Tokens(s, Whitespace)| == 1
    ensures Tokens(s, Whitespace)[0] == s
    ensures !Blank(s) && forall i :: 0 <= i < |s| ==> s[i] !in Whitespace
  {
    TrimmedIsCore(s);
    assert s != [];
    var n := CSpan(s, Whitespace);
    if n < |s| {
      var rest := s[n..];
      assert rest[|rest| - 1] == s[|s| - 1];
      TokensEmptyIff(rest, Whitespace);
      assert false;
    }
    assert s[..n] == s;
  }

  // ---------------------------------------------------------- strtok_r

  /** Result of one `strtok_r` call: the token, or None for NULL, and where
      the saved cursor points afterwards. */
  datatype Scan = Scan(token: Option<seq<char>>, next: nat)

  /** One `strtok_r` call on `s` with the saved cursor at `pos`: skip the
      delimiters; at the end of the string return NULL; otherwise the token
      runs up to the next delimiter, which is overwritten and stepped over. */
  function StrTok(s: seq<char>, pos: nat, d: set<char>): (r: Scan)
    requires pos <= |s|
    ensures pos <= r.next <= |s|
    ensures r.token.Some? ==> pos < r.next
    decreases |s| - pos
  {
    if pos == |s| then Scan(None, pos)
    else if s[pos] in d then StrTok(s, pos + 1, d)
    else
      var end := pos + CSpan(s[pos..], d);
      Scan(Some(s[pos..end]), if end == |s| then end else end + 1)
  }

  /** Each `strtok_r` call yields the first token of what remains and leaves
      the cursor where the remaining tokens start; it yields NULL exactly
      when no token remains. */
  lemma {:induction false} StrTokYieldsTokens(s: seq<char>, pos: nat, d: set<char>)
    requires pos <= |s|
    ensures StrTok(s, pos, d).token.None? <==> Tokens(s[pos..], d) == []
    ensures StrTok(s, pos, d).token.Some? ==>
              StrTok(s, pos, d).token.value == Tokens(s[pos..], d)[0] &&
              Tokens(s[StrTok(s, pos, d).next..], d) == Tokens(s[pos..], d)[1..]
    decreases |s| - pos
  {
    if pos == |s| {
      assert s[pos..] == [];
    } else if s[pos] in d {
      assert s[pos..][1..] == s[pos + 1..];
      StrTokYieldsTokens(s, pos + 1, d);
    } else {
      var n := CSpan(s[pos..], d);
      assert s[pos..][n..] == s[pos + n..];
      assert s[pos..][..n] == s[pos..pos + n];
      if pos + n < |s| {
        assert s[pos + n..][1..] == s[pos + n + 1..];
      }
    }
  }

  /** The first `MAX_TOKENS - 1` tokens: all that fit before the NULL slot. */
  function Capped(ts: seq<seq<char>>): seq<seq<char>>
  {
    ts[..Min(|ts|, MAX_TOKENS - 1)]
  }

  /** The C `split_tokens`: call `strtok_r` on space, tab and newline until it
      yields NULL or `MAX_TOKENS - 1` tokens are stored. The returned
      sequence stands for `tokens[0..i)`; the NULL in `tokens[i]` is the
      slot left over, `|tokens| + 1 <= MAX_TOKENS`. */
  method SplitTokens(cmd: seq<char>) returns (tokens: seq<seq<char>>)
    ensures tokens == Capped(Tokens(cmd, Whitespace))
    ensures |tokens| + 1 <= MAX_TOKENS
  {
    ghost var all := Tokens(cmd, Whitespace);
    var pos := 0;  // the saved strtok_r cursor
    assert cmd[0..] == cmd;
    tokens := [];
    var scan := StrTok(cmd, 0, Whitespace);
    while scan.token.Some? && |tokens| < MAX_TOKENS - 1
      invariant pos <= |cmd| && scan == StrTok(cmd, pos, Whitespace)
      invariant |tokens| <= |all| && tokens == all[..|tokens|]
      invariant Tokens(cmd[pos..], Whitespace) == all[|tokens|..]
      invariant |tokens| <= MAX_TOKENS - 1
      decreases |cmd| - pos
    {
      StrTokYieldsTokens(cmd, pos, Whitespace);
      tokens := tokens + [scan.token.value];
      pos := scan.next;
      scan := StrTok(cmd, pos, Whitespace);
    }
    StrTokYieldsTokens(cmd, pos, Whitespace);
  }
}
