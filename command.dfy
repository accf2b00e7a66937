/** Parsing one command segment: the `>` redirection checks and the
    tokenization of the command part (the start of the segment loop body). */
module Command {
  import opened Text

  /** Outcome of parsing a trimmed segment. `Rejected` is a segment the
      shell reports one error for; `NoCommand` a segment it drops silently
      because its command part has no token. */
  datatype Parsed =
    | Rejected
    | NoCommand
    | Accepted(tokens: seq<seq<char>>, outfile: Option<seq<char>>)

  /** Index of the first occurrence of `c` in `s` (C's strchr). */
  function IndexOf(s: seq<char>, c: char): (i: nat)
    requires c in s
    ensures i < |s| && s[i] == c && c !in s[..i]
  {
    if s[0] == c then 0
    else
      assert c in s[1..] by { var j :| 0 <= j < |s| && s[j] == c; assert s[1..][j - 1] == c; }
      var i := 1 + IndexOf(s[1..], c);
      assert s[..i] == [s[0]] + s[1..][..i - 1];
      i
  }

  /** A command from its tokens: none at all leaves nothing to run. */
  function CommandOf(tokens: seq<seq<char>>, outfile: Option<seq<char>>): Parsed
  {
    if tokens == [] then NoCommand else Accepted(tokens, outfile)
  }

  /** Outcome of the redirection checks: the segment is malformed, has no
      `>`, or is cut at its `>` into a command part and an output file. */
  datatype Redirection =
    | Malformed
    | Plain
    | Redirect(part: seq<char>, outfile: seq<char>)

  /** `split_tokens` finds exactly one token in `s`. */
  predicate SingleToken(s: seq<char>)
  {
    |Capped(Tokens(s, Whitespace))| == 1
  }

  /** The output file named by the text after `>`: that text trimmed,
      provided it is exactly one token. */
  function OutputFile(after: seq<char>): Option<seq<char>>
  {
    var out := Trimmed(after);
    if out == [] || !SingleToken(out) then None else Some(out)
  }

  /** Only blanks precede index `at` of `s`. */
  predicate BlankBefore(s: seq<char>, at: nat)
    requires at <= |s|
  {
    forall i :: 0 <= i < at ==> s[i] in Whitespace
  }

  /** The redirection rules: the text before the first `>` must not be
      blank, no second `>` may follow, and the trimmed text after it must
      split into exactly one token, the output file; the command part is
      then the text before the `>`. */
  function RedirectionSpec(cmd: seq<char>): Redirection
  {
    if '>' in cmd then
      var at := IndexOf(cmd, '>');
      if BlankBefore(cmd, at) then Malformed
      else if '>' in cmd[at + 1..] then Malformed
      else
        match OutputFile(cmd[at + 1..])
        case None => Malformed
        case Some(out) => Redirect(cmd[..at], out)
    else
      Plain
  }

  /** What the segment loop makes of a trimmed segment `cmd` before its
      built-in checks: a malformed redirection is rejected, and otherwise
      the command part is tokenized. */
  function ParseSpec(cmd: seq<char>): (r: Parsed)
    ensures r.Accepted? ==> 1 <= |r.tokens| <= MAX_TOKENS - 1
  {
    match RedirectionSpec(cmd)
    case Malformed => Rejected
    case Plain => CommandOf(Capped(Tokens(cmd, Whitespace)), None)
    case Redirect(part, out) => CommandOf(Capped(Tokens(part, Whitespace)), Some(out))
  }

  /** The scan for a character other than space, tab or newline before
      index `at`; the flag stays set when there is none. */
  method ScanBlank(cmd: seq<char>, at: nat) returns (leftEmpty: bool)
    requires at <= |cmd|
    ensures leftEmpty == BlankBefore(cmd, at)
  {
    leftEmpty := true;
    var p := 0;
    while p < at
      invariant 0 <= p <= at
      invariant leftEmpty && BlankBefore(cmd, p)
    {
      if cmd[p] !in Whitespace {
        leftEmpty := false;
        break;
      }
      p := p + 1;
    }
  }

  /** The file-name checks after `>`: `trim` the text, reject it when
      empty, and reject it unless `split_tokens` on a copy finds exactly
      one token. */
  method ReadOutputFile(after: seq<char>) returns (r: Option<seq<char>>)
    ensures r == OutputFile(after)
  {
    var out := Trim(after);
    if out == [] {
      return None;
    }
    var nameTokens := SplitTokens(out);
    if |nameTokens| != 1 {
      return None;
    }
    r := Some(out);
  }

  /** The redirection checks of the segment loop, step by step: `strchr`
      for the first `>`, a scan for a non-blank character before it,
      `strchr` for a second `>`, `trim` and `split_tokens` of the file name,
      and cutting the segment at the `>`. */
  method CheckRedirection(cmd: seq<char>) returns (r: Redirection)
    ensures r == RedirectionSpec(cmd)
  {
    if '>' !in cmd {
      return Plain;
    }
    var at := IndexOf(cmd, '>');
    var leftEmpty := ScanBlank(cmd, at);
    if leftEmpty {
      return Malformed;
    }
    if '>' in cmd[at + 1..] {
      return Malformed;
    }
    var out := ReadOutputFile(cmd[at + 1..]);
    if out.None? {
      return Malformed;
    }
    r := Redirect(cmd[..at], out.value);
  }

  /** The segment loop up to the built-ins: the redirection checks, then
      `split_tokens` of the command part, dropping a segment without tokens. */
  method ParseSegment(cmd: seq<char>) returns (r: Parsed)
    ensures r == ParseSpec(cmd)
  {
    var redirection := CheckRedirection(cmd);
    var part := cmd;
    var outfile: Option<seq<char>> := None;
    match redirection {
      case Malformed =>
        return Rejected;
      case Plain =>
      case Redirect(p, out) =>
        part, outfile := p, Some(out);
    }
    var tokens := SplitTokens(part);
    if |tokens| == 0 {
      return NoCommand;
    }
    r := Accepted(tokens, outfile);
  }

  /** The `tokcount == 0` branch after the redirection checks cannot be
      taken: a segment that is not blank never parses to `NoCommand`. */
  lemma NoCommandUnreachable(cmd: seq<char>)
    requires !Blank(cmd)
    ensures ParseSpec(cmd) != NoCommand
  {
    if '>' in cmd {
      var at := IndexOf(cmd, '>');
      if !BlankBefore(cmd, at) {
        TokensEmptyIff(cmd[..at], Whitespace);
        assert exists i :: 0 <= i < at && cmd[..at][i] !in Whitespace;
      }
    } else {
      TokensEmptyIff(cmd, Whitespace);
    }
  }

  /** A segment without `>` is accepted as a plain command with all its
      tokens (up to the token capacity). */
  lemma PlainCommand(cmd: seq<char>)
    requires '>' !in cmd && !Blank(cmd)
    ensures ParseSpec(cmd) == Accepted(Capped(Tokens(cmd, Whitespace)), None)
  {
    NoCommandUnreachable(cmd);
  }

  /** The text after `>` names an output file exactly when it is one
      token; the file is that token, so it is non-empty and holds no blank. */
  lemma OutputFileRule(after: seq<char>)
    ensures OutputFile(after).Some? <==> |Tokens(after, Whitespace)| == 1
    ensures OutputFile(after).Some? ==>
              OutputFile(after).value == Tokens(after, Whitespace)[0] &&
              forall i :: 0 <= i < |OutputFile(after).value| ==> OutputFile(after).value[i] !in Whitespace
  {
    var out := Trimmed(after);
    TokensOfTrimmed(after);
    if |Tokens(after, Whitespace)| == 1 {
      TrimmedIdempotent(after);
      SingleTokenTrimmed(out);
    }
  }

  /** The output file consists of characters of the text after `>`. */
  lemma OutputFileFrom(after: seq<char>)
    requires OutputFile(after).Some?
    ensures forall i :: 0 <= i < |OutputFile(after).value| ==> OutputFile(after).value[i] in after
  {
    TrimmedIsCore(after);
    var out := Trimmed(after);
    forall i | 0 <= i < |out| ensures out[i] in after {
      assert out[i] == after[TrimStart(after) + i];
    }
  }

  /** A segment with `>` is accepted exactly when something other than
      blanks precedes the first `>`, no second `>` follows, and the text
      after it is one token; otherwise it is rejected. */
  lemma RedirectionRule(cmd: seq<char>)
    requires '>' in cmd
    ensures ParseSpec(cmd) != NoCommand
    ensures var at := IndexOf(cmd, '>');
            ParseSpec(cmd).Accepted? <==>
              !BlankBefore(cmd, at) && '>' !in cmd[at + 1..] && |Tokens(cmd[at + 1..], Whitespace)| == 1
  {
    var at := IndexOf(cmd, '>');
    var after := cmd[at + 1..];
    OutputFileRule(after);
    if BlankBefore(cmd, at) || '>' in after || OutputFile(after).None? {
      assert RedirectionSpec(cmd) == Malformed;
    } else {
      PartHasTokens(cmd, at);
      assert RedirectionSpec(cmd) == Redirect(cmd[..at], OutputFile(after).value);
    }
  }

  /** A command part that is not all blanks has a token. */
  lemma PartHasTokens(cmd: seq<char>, at: nat)
    requires at <= |cmd| && !BlankBefore(cmd, at)
    ensures Capped(Tokens(cmd[..at], Whitespace)) != []
  {
    TokensEmptyIff(cmd[..at], Whitespace);
    assert exists i :: 0 <= i < at && cmd[..at][i] !in Whitespace;
  }

  /** An accepted segment with `>` runs the text before the `>` as its
      command and writes to the one token after it, a file name that is
      non-empty and free of blanks and of `>`. */
  lemma RedirectedCommand(cmd: seq<char>)
    requires '>' in cmd && ParseSpec(cmd).Accepted?
    ensures var at := IndexOf(cmd, '>');
            |Tokens(cmd[at + 1..], Whitespace)| == 1 &&
            ParseSpec(cmd) == Accepted(Capped(Tokens(cmd[..at], Whitespace)),
                                       Some(Tokens(cmd[at + 1..], Whitespace)[0]))
    ensures var f := ParseSpec(cmd).outfile.value;
            f != [] && '>' !in f && forall i :: 0 <= i < |f| ==> f[i] !in Whitespace
  {
    var at := IndexOf(cmd, '>');
    var after := cmd[at + 1..];
    OutputFileRule(after);
    OutputFileFrom(after);
  }
}
