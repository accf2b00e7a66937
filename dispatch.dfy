/** The per-line command dispatch of the shell's main loop: splitting a
    line on `&`, handling each segment in order (built-ins in the shell's
    own process, other commands resolved and forked), collecting the child
    pids for the end-of-line wait, and the session's search path. */
module Dispatch {
  import opened Text
  import opened Command
  import opened Resolution

  /** Capacity of the search-path array. */
  const MAX_PATHS: nat := 100

  /** A process id as the parent sees it after a successful `fork`: the
      negative result is the failure branch and zero is the child's own
      side, so only positive pids are recorded. */
  type Pid = p: int | p > 0 witness 1

  /** The services of the operating system the dispatcher calls, as
      oracles: `access(cwd, p)` says whether path `p` is executable when the
      working directory is `cwd`; `chdir(cwd, dir)` is the new working
      directory, or None when `chdir` fails; `fork(k)` is the child's pid
      when the fork for the `k`-th segment of the line succeeds, or None. */
  datatype Os = Os(
    access: (seq<char>, seq<char>) -> bool,
    chdir: (seq<char>, seq<char>) -> Option<seq<char>>,
    fork: nat -> Option<Pid>)
  {
    /** The `access(·, X_OK) == 0` test with working directory `cwd`. */
    function Executable(cwd: seq<char>): seq<char> -> bool
    {
      p => access(cwd, p)
    }
  }

  /** The state one line leaves for the next: the search path (`paths`,
      `path_count`) and the process's working directory. */
  datatype Session = Session(paths: seq<seq<char>>, cwd: seq<char>)

  /** What handling one segment amounts to: dropped silently, reported with
      one error message, the `exit` built-in, a successful `cd` or `path`,
      or a forked child. */
  datatype Step =
    | Skipped
    | Failed
    | Exited
    | Builtin
    | Launched(pid: int, fullpath: seq<char>, argv: seq<seq<char>>, outfile: Option<seq<char>>)

  /** The session after a line and the steps taken for its segments. */
  datatype LineOutcome = LineOutcome(session: Session, steps: seq<Step>)

  predicate IsBuiltin(name: seq<char>)
  {
    name == "exit" || name == "cd" || name == "path"
  }

  /** The new search path of `path`: the arguments in order, as many as
      the path array holds. */
  function PathArgs(tokens: seq<seq<char>>): seq<seq<char>>
    requires 1 <= |tokens|
  {
    tokens[1..][..Min(|tokens| - 1, MAX_PATHS)]
  }

  /** A tokenized command: the built-ins, checked on the first token before
      any search, and otherwise resolution and `fork`. */
  function CommandSpec(s: Session, tokens: seq<seq<char>>, outfile: Option<seq<char>>, k: nat, os: Os): (Session, Step)
    requires 1 <= |tokens|
  {
    if tokens[0] == "exit" then
      (s, if |tokens| != 1 then Failed else Exited)
    else if tokens[0] == "cd" then
      if |tokens| != 2 then (s, Failed)
      else
        match os.chdir(s.cwd, tokens[1])
        case None => (s, Failed)
        case Some(dir) => (s.(cwd := dir), Builtin)
    else if tokens[0] == "path" then
      (s.(paths := PathArgs(tokens)), Builtin)
    else
      match ResolveSpec(tokens[0], s.paths, os.Executable(s.cwd))
      case None => (s, Failed)
      case Some(fullpath) =>
        match os.fork(k)
        case None => (s, Failed)
        case Some(pid) => (s, Launched(pid, fullpath, tokens, outfile))
  }

  /** One `&`-segment `raw` of a line, the `k`-th: trimmed, dropped when
      blank, parsed, and run. */
  function SegmentSpec(s: Session, raw: seq<char>, k: nat, os: Os): (Session, Step)
  {
    var cmd := Trimmed(raw);
    if cmd == [] then (s, Skipped)
    else
      match ParseSpec(cmd)
      case Rejected => (s, Failed)
      case NoCommand => (s, Skipped)
      case Accepted(tokens, outfile) => CommandSpec(s, tokens, outfile, k, os)
  }

  /** The segments from the `k`-th on, left to right, each seeing the
      session the previous one left; `exit` ends the line (and the shell). */
  function RunSegments(s: Session, segs: seq<seq<char>>, k: nat, os: Os): LineOutcome
    decreases |segs|
  {
    if segs == [] then LineOutcome(s, [])
    else
      var (s1, step) := SegmentSpec(s, segs[0], k, os);
      if step == Exited then LineOutcome(s1, [Exited])
      else
        var rest := RunSegments(s1, segs[1..], k + 1, os);
        LineOutcome(rest.session, [step] + rest.steps)
  }

  /** One line: its `&`-separated segments, run in order. */
  function RunLine(s: Session, line: seq<char>, os: Os): LineOutcome
  {
    RunSegments(s, Tokens(line, Ampersand), 0, os)
  }

  /** Steps `done` already taken, followed by outcome `o`. */
  function Then(done: seq<Step>, o: LineOutcome): LineOutcome
  {
    LineOutcome(o.session, done + o.steps)
  }

  /** Number of error messages the steps print. */
  function Diagnostics(steps: seq<Step>): nat
  {
    multiset(steps)[Failed]
  }

  /** The pids of the children the steps forked, in order. */
  function Pids(steps: seq<Step>): seq<int>
  {
    if steps == [] then []
    else (if steps[0].Launched? then [steps[0].pid] else []) + Pids(steps[1..])
  }

  lemma {:induction false} PidsAppend(a: seq<Step>, b: seq<Step>)
    ensures Pids(a + b) == Pids(a) + Pids(b)
    decreases |a|
  {
    if a == [] {
      assert a + b == b;
    } else {
      assert (a + b)[0] == a[0] && (a + b)[1..] == a[1..] + b;
      PidsAppend(a[1..], b);
    }
  }

  /** Running the segments from the `k`-th on is running the first and
      then, unless it was `exit`, the rest from the session it leaves. */
  lemma RunSegmentsUnfold(s: Session, segs: seq<seq<char>>, k: nat, os: Os, done: seq<Step>, s1: Session, step: Step)
    requires segs != [] && (s1, step) == SegmentSpec(s, segs[0], k, os)
    ensures step == Exited ==> Then(done, RunSegments(s, segs, k, os)) == LineOutcome(s1, done + [Exited])
    ensures step != Exited ==>
              Then(done, RunSegments(s, segs, k, os)) == Then(done + [step], RunSegments(s1, segs[1..], k + 1, os))
  {
  }

  // ------------------------------------------------- properties of a segment

  /** A blank segment (between two `&`, or only spaces) is dropped with no
      error message, and it is the only kind of segment dropped silently:
      the `tokcount == 0` exit is never taken. */
  lemma SkippedIffBlank(s: Session, raw: seq<char>, k: nat, os: Os)
    ensures SegmentSpec(s, raw, k, os).1 == Skipped <==> Blank(raw)
    ensures Blank(raw) ==> SegmentSpec(s, raw, k, os).0 == s
  {
    TrimmedEmptyIff(raw);
    var cmd := Trimmed(raw);
    if cmd != [] {
      TrimmedIsCore(raw);
      assert cmd[0] !in Whitespace;
      NoCommandUnreachable(cmd);
      var parsed := ParseSpec(cmd);
      if parsed.Accepted? {
        CommandEffects(s, parsed.tokens, parsed.outfile, k, os);
        assert SegmentSpec(s, raw, k, os) == CommandSpec(s, parsed.tokens, parsed.outfile, k, os);
      }
    }
  }

  /** The built-ins are decided on the first token alone, before any
      search: their outcome does not depend on what is executable nor on
      `fork`, and they never start a child. */
  lemma BuiltinsNeverSearch(s: Session, tokens: seq<seq<char>>, outfile: Option<seq<char>>, k: nat, os: Os,
                            access: (seq<char>, seq<char>) -> bool, fork: nat -> Option<Pid>)
    requires 1 <= |tokens| && IsBuiltin(tokens[0])
    ensures CommandSpec(s, tokens, outfile, k, os) == CommandSpec(s, tokens, outfile, k, os.(access := access, fork := fork))
    ensures !CommandSpec(s, tokens, outfile, k, os).1.Launched?
  {
  }

  /** `exit` with arguments and `cd` without exactly one argument are
      reported once and change nothing; `exit` alone ends the shell. */
  lemma BuiltinArity(s: Session, tokens: seq<seq<char>>, outfile: Option<seq<char>>, k: nat, os: Os)
    requires 1 <= |tokens|
    ensures tokens[0] == "exit" ==>
              CommandSpec(s, tokens, outfile, k, os) == (s, if |tokens| == 1 then Exited else Failed)
    ensures tokens[0] == "cd" && |tokens| != 2 ==> CommandSpec(s, tokens, outfile, k, os) == (s, Failed)
  {
  }

  /** `path` replaces the whole search path with its arguments, in order,
      and leaves it empty when it has none. The `MAX_PATHS` cap never cuts
      anything: `split_tokens` hands out fewer tokens than that. */
  lemma PathReplacesSearchPath(s: Session, tokens: seq<seq<char>>, outfile: Option<seq<char>>, k: nat, os: Os)
    requires 1 <= |tokens| <= MAX_TOKENS - 1 && tokens[0] == "path"
    ensures CommandSpec(s, tokens, outfile, k, os) == (Session(tokens[1..], s.cwd), Builtin)
    ensures |tokens| == 1 ==> CommandSpec(s, tokens, outfile, k, os).0.paths == []
  {
    assert tokens[1..][..|tokens| - 1] == tokens[1..];
  }

  /** After `path` with no arguments, every command named without a `/`
      that is not a built-in fails with one error until `path` is used
      again. */
  lemma EmptyPathBlocksBareNames(s: Session, tokens: seq<seq<char>>, outfile: Option<seq<char>>, k: nat, os: Os)
    requires s.paths == []
    requires 1 <= |tokens| && !IsBuiltin(tokens[0]) && '/' !in tokens[0]
    ensures CommandSpec(s, tokens, outfile, k, os) == (s, Failed)
  {
    EmptySearchPathFindsNothing(tokens[0], os.Executable(s.cwd));
  }

  /** Segment `raw` is a `path` command. */
  predicate IsPathCommand(raw: seq<char>)
  {
    var parsed := ParseSpec(Trimmed(raw));
    parsed.Accepted? && parsed.tokens[0] == "path"
  }

  /** What one tokenized command does: it is never dropped silently, only
      a successful `cd` or `path` changes the session, and a forked child
      runs the tokens of a non-built-in from the resolved path. */
  lemma CommandEffects(s: Session, tokens: seq<seq<char>>, outfile: Option<seq<char>>, k: nat, os: Os)
    requires 1 <= |tokens|
    ensures var (s1, step) := CommandSpec(s, tokens, outfile, k, os);
            step != Skipped && (s1 != s ==> step == Builtin)
    ensures var (s1, step) := CommandSpec(s, tokens, outfile, k, os);
            step.Launched? ==>
              s1 == s && step.argv == tokens && step.outfile == outfile &&
              !IsBuiltin(tokens[0]) &&
              ResolveSpec(tokens[0], s.paths, os.Executable(s.cwd)) == Some(step.fullpath) &&
              os.fork(k) == Some(step.pid)
  {
  }

  /** A forked child runs the command's own tokens from the path the
      resolver found, with the pid `fork` returned; only `cd` and `path`
      change the session, and only when they succeed. */
  lemma SegmentEffects(s: Session, raw: seq<char>, k: nat, os: Os)
    ensures var (s1, step) := SegmentSpec(s, raw, k, os);
            s1 != s ==> step == Builtin
    ensures var (s1, step) := SegmentSpec(s, raw, k, os);
            step.Launched? ==>
              s1 == s &&
              ParseSpec(Trimmed(raw)) == Accepted(step.argv, step.outfile) &&
              !IsBuiltin(step.argv[0]) &&
              ResolveSpec(step.argv[0], s.paths, os.Executable(s.cwd)) == Some(step.fullpath) &&
              os.fork(k) == Some(step.pid)
  {
    var cmd := Trimmed(raw);
    if cmd != [] && ParseSpec(cmd).Accepted? {
      var parsed := ParseSpec(cmd);
      CommandEffects(s, parsed.tokens, parsed.outfile, k, os);
      assert SegmentSpec(s, raw, k, os) == CommandSpec(s, parsed.tokens, parsed.outfile, k, os);
    }
  }

  // ---------------------------------------------------- properties of a line

  /** Only a `path` command changes the search path: `cd` changes the
      working directory alone. */
  lemma PathKeptBySegment(s: Session, raw: seq<char>, k: nat, os: Os)
    ensures SegmentSpec(s, raw, k, os).0.paths != s.paths ==> IsPathCommand(raw)
  {
    var cmd := Trimmed(raw);
    if cmd != [] && ParseSpec(cmd).Accepted? {
      var tokens := ParseSpec(cmd).tokens;
      assert SegmentSpec(s, raw, k, os) == CommandSpec(s, tokens, ParseSpec(cmd).outfile, k, os);
    }
  }

  /** Segments none of which is a `path` command leave the search path as
      it was, whatever `cd` does. */
  lemma {:induction false} SearchPathKept(s: Session, segs: seq<seq<char>>, k: nat, os: Os)
    requires forall i :: 0 <= i < |segs| ==> !IsPathCommand(segs[i])
    ensures RunSegments(s, segs, k, os).session.paths == s.paths
    decreases |segs|
  {
    if segs != [] {
      var (s1, step) := SegmentSpec(s, segs[0], k, os);
      PathKeptBySegment(s, segs[0], k, os);
      if step != Exited {
        assert forall i :: 0 <= i < |segs[1..]| ==> segs[1..][i] == segs[i + 1];
        SearchPathKept(s1, segs[1..], k + 1, os);
      }
    }
  }

  /** With an empty search path, a segment that starts a child names it
      with a `/`. */
  lemma EmptyPathLaunchesDirect(s: Session, raw: seq<char>, k: nat, os: Os)
    requires s.paths == []
    ensures var step := SegmentSpec(s, raw, k, os).1;
            step.Launched? ==> step.argv != [] && '/' in step.argv[0]
  {
    SegmentEffects(s, raw, k, os);
  }

  /** Every child the steps start is named with a `/`. */
  predicate DirectLaunchesOnly(steps: seq<Step>)
  {
    forall j :: 0 <= j < |steps| && steps[j].Launched? ==> steps[j].argv != [] && '/' in steps[j].argv[0]
  }

  lemma DirectLaunchesCons(step: Step, rest: seq<Step>)
    requires step.Launched? ==> step.argv != [] && '/' in step.argv[0]
    requires DirectLaunchesOnly(rest)
    ensures DirectLaunchesOnly([step] + rest)
  {
    forall j | 0 <= j < |[step] + rest| && ([step] + rest)[j].Launched?
      ensures ([step] + rest)[j].argv != [] && '/' in ([step] + rest)[j].argv[0]
    {
      if j > 0 {
        assert ([step] + rest)[j] == rest[j - 1];
      }
    }
  }

  /** With an empty search path and no `path` command among the segments,
      every child started is one named with a `/`: no bare name runs until
      `path` is used again. */
  lemma {:induction false} EmptyPathLaunchesOnlyDirectNames(s: Session, segs: seq<seq<char>>, k: nat, os: Os)
    requires s.paths == []
    requires forall i :: 0 <= i < |segs| ==> !IsPathCommand(segs[i])
    ensures DirectLaunchesOnly(RunSegments(s, segs, k, os).steps)
    decreases |segs|
  {
    if segs != [] {
      var (s1, step) := SegmentSpec(s, segs[0], k, os);
      PathKeptBySegment(s, segs[0], k, os);
      EmptyPathLaunchesDirect(s, segs[0], k, os);
      if step != Exited {
        assert forall i :: 0 <= i < |segs[1..]| ==> segs[1..][i] == segs[i + 1];
        EmptyPathLaunchesOnlyDirectNames(s1, segs[1..], k + 1, os);
        var rest := RunSegments(s1, segs[1..], k + 1, os).steps;
        assert RunSegments(s, segs, k, os).steps == [step] + rest;
        DirectLaunchesCons(step, rest);
      } else {
        assert RunSegments(s, segs, k, os).steps == [Exited];
      }
    }
  }

  /** One turn of the `&` loop: the `strtok_r` call at cursor `pos` hands
      out segment `k`, the cursor it leaves sees the segments after it, and
      the outcome of the line is this segment's step followed by the rest. */
  lemma LineStep(line: seq<char>, pos: nat, k: nat, segs: seq<seq<char>>, steps: seq<Step>,
                 before: Session, after: Session, step: Step, os: Os)
    requires pos <= |line| && StrTok(line, pos, Ampersand).token.Some?
    requires k <= |segs| && Tokens(line[pos..], Ampersand) == segs[k..]
    requires (after, step) == SegmentSpec(before, StrTok(line, pos, Ampersand).token.value, k, os)
    ensures k < |segs| && Tokens(line[StrTok(line, pos, Ampersand).next..], Ampersand) == segs[k + 1..]
    ensures Pids(steps + [step]) == Pids(steps) + Pids([step])
    ensures Diagnostics(steps + [step]) == Diagnostics(steps) + Diagnostics([step])
    ensures step == Exited ==> Then(steps, RunSegments(before, segs[k..], k, os)) == LineOutcome(after, steps + [Exited])
    ensures step != Exited ==>
              Then(steps, RunSegments(before, segs[k..], k, os)) == Then(steps + [step], RunSegments(after, segs[k + 1..], k + 1, os))
  {
    StrTokYieldsTokens(line, pos, Ampersand);
    assert segs[k..][1..] == segs[k + 1..];
    RunSegmentsUnfold(before, segs[k..], k, os, steps, after, step);
    PidsAppend(steps, [step]);
  }

  /** Every segment of a line is handled unless an `exit` comes first;
      `exit` is the last step. */
  lemma {:induction false} AllSegmentsHandled(s: Session, segs: seq<seq<char>>, k: nat, os: Os)
    ensures var steps := RunSegments(s, segs, k, os).steps;
            |steps| <= |segs| &&
            (Exited !in steps ==> |steps| == |segs|) &&
            (Exited in steps ==> steps[|steps| - 1] == Exited && Exited !in steps[..|steps| - 1])
    decreases |segs|
  {
    if segs != [] {
      var (s1, step) := SegmentSpec(s, segs[0], k, os);
      if step != Exited {
        AllSegmentsHandled(s1, segs[1..], k + 1, os);
        var rest := RunSegments(s1, segs[1..], k + 1, os).steps;
        assert RunSegments(s, segs, k, os).steps == [step] + rest;
        if Exited in rest {
          assert ([step] + rest)[..|rest|] == [step] + rest[..|rest| - 1];
        }
      } else {
        assert RunSegments(s, segs, k, os).steps[..0] == [];
      }
    }
  }

  /** Each step prints at most one error message or starts at most one
      child, never both. */
  lemma {:induction false} OneEffectPerStep(steps: seq<Step>)
    ensures Diagnostics(steps) + |Pids(steps)| <= |steps|
    decreases |steps|
  {
    if steps != [] {
      OneEffectPerStep(steps[1..]);
      assert steps == [steps[0]] + steps[1..];
      assert multiset(steps) == multiset([steps[0]]) + multiset(steps[1..]);
    }
  }

  /** A line prints at most one error message per `&`-segment, and the
      pids recorded plus the error messages never outnumber its segments. */
  lemma OneDiagnosticPerSegment(s: Session, line: seq<char>, os: Os)
    ensures var steps := RunLine(s, line, os).steps;
            Diagnostics(steps) + |Pids(steps)| <= |Tokens(line, Ampersand)|
  {
    AllSegmentsHandled(s, Tokens(line, Ampersand), 0, os);
    OneEffectPerStep(RunLine(s, line, os).steps);
  }

  // ------------------------------------------ the pid array of the line loop

  /** Line 243 as written: `pids[pid_count++] = pid` for each pid in turn,
      into `buffer`, the `MAX_TOKENS`-slot array of line 85, of which the
      first `count` slots are used. None when a store falls past the end of
      the array. */
  function StorePidsAsWritten(buffer: seq<int>, count: nat, pids: seq<int>): (r: Option<seq<int>>)
    requires |buffer| == MAX_TOKENS && count <= MAX_TOKENS
    ensures r.Some? <==> count + |pids| <= MAX_TOKENS
    ensures r.Some? ==> |r.value| == MAX_TOKENS && r.value[..count] == buffer[..count] &&
                        r.value[count..count + |pids|] == pids
    decreases |pids|
  {
    if pids == [] then Some(buffer)
    else if count < MAX_TOKENS then
      var r := StorePidsAsWritten(buffer[count := pids[0]], count + 1, pids[1..]);
      if r.Some? then
        assert r.value[count..count + |pids|] == [pids[0]] + r.value[count + 1..count + |pids|];
        r
      else r
    else None
  }

  /** A plain command name: non-empty, without blanks, `&`, `>` or `/`,
      and not a built-in. */
  predicate Word(c: seq<char>)
  {
    c != [] && !IsBuiltin(c) &&
    forall i :: 0 <= i < |c| ==> c[i] !in Whitespace && c[i] != '&' && c[i] != '>' && c[i] != '/'
  }

  /** The line `c&c&...&c&` with `n` commands. */
  function Repeated(c: seq<char>, n: nat): seq<char>
  {
    if n == 0 then [] else c + "&" + Repeated(c, n - 1)
  }

  /** The segments of `Repeated(c, n)`: `n` times `c`. */
  function Copies(c: seq<char>, n: nat): seq<seq<char>>
  {
    if n == 0 then [] else [c] + Copies(c, n - 1)
  }

  lemma {:induction false} CopiesLength(c: seq<char>, n: nat)
    ensures |Copies(c, n)| == n
  {
    if n > 0 {
      CopiesLength(c, n - 1);
    }
  }

  /** A system where every path is executable, `cd` fails and every fork
      succeeds. */
  function EverythingForks(): Os
  {
    Os((cwd, p) => true, (cwd, dir) => None, (k: nat) => Some((k + 1) as Pid))
  }

  lemma {:induction false} RepeatedSegments(c: seq<char>, n: nat)
    requires Word(c)
    ensures Tokens(Repeated(c, n), Ampersand) == Copies(c, n)
  {
    if n > 0 {
      var line, rest := Repeated(c, n), Repeated(c, n - 1);
      assert line == c + ("&" + rest);
      CSpanIs(line, Ampersand, |c|);
      assert line[..|c|] == c;
      var tail := line[|c|..];
      assert tail == "&" + rest;
      assert tail[0] == '&' && tail[1..] == rest;
      RepeatedSegments(c, n - 1);
    }
  }

  /** With search path `/bin`, a plain command `c` that is executable as
      `/bin/c` forks a child running it. */
  lemma WordLaunches(s: Session, c: seq<char>, k: nat, os: Os)
    requires Word(c) && s.paths == ["/bin"] && os.access(s.cwd, "/bin/" + c) && os.fork(k).Some?
    ensures SegmentSpec(s, c, k, os) == (s, Launched(os.fork(k).value, "/bin/" + c, [c], None))
  {
    assert c[0] !in Whitespace && c[|c| - 1] !in Whitespace;
    assert Span(c, Whitespace) == 0;
    assert BackSpan(c, Whitespace) == 0;
    assert Trimmed(c) == c[0..|c|] == c;
    CSpanIs(c, Whitespace, |c|);
    assert c[|c|..] == [];
    assert Tokens(c, Whitespace) == [c];
    assert ParseSpec(c) == Accepted([c], None);
    assert Join("/bin", c) == "/bin/" + c;
  }

  /** Each of `segs`, run from session `s` as the `k`-th segment onward,
      forks a child and leaves the session as it was. */
  ghost predicate AllLaunch(s: Session, segs: seq<seq<char>>, k: nat, os: Os)
    decreases |segs|
  {
    segs != [] ==>
      var (s1, step) := SegmentSpec(s, segs[0], k, os);
      s1 == s && step.Launched? && AllLaunch(s, segs[1..], k + 1, os)
  }

  /** Segments that each fork a child yield one pid apiece. */
  lemma {:induction false} EveryLaunchRecorded(s: Session, segs: seq<seq<char>>, k: nat, os: Os)
    requires AllLaunch(s, segs, k, os)
    ensures |Pids(RunSegments(s, segs, k, os).steps)| == |segs|
    decreases |segs|
  {
    if segs != [] {
      var (s1, step) := SegmentSpec(s, segs[0], k, os);
      EveryLaunchRecorded(s, segs[1..], k + 1, os);
      RunSegmentsUnfold(s, segs, k, os, [], s1, step);
      var rest := RunSegments(s, segs[1..], k + 1, os).steps;
      assert RunSegments(s, segs, k, os).steps == [step] + rest;
      assert ([step] + rest)[1..] == rest;
    }
  }

  /** The forks for segments `k` to `k + n - 1` all succeed. */
  predicate ForksSucceed(os: Os, k: nat, n: nat)
    decreases n
  {
    n > 0 ==> os.fork(k).Some? && ForksSucceed(os, k + 1, n - 1)
  }

  lemma {:induction false} EverythingForksSucceeds(k: nat, n: nat)
    ensures ForksSucceed(EverythingForks(), k, n)
    decreases n
  {
    if n > 0 {
      EverythingForksSucceeds(k + 1, n - 1);
    }
  }

  /** Copies of a plain command found as `/bin/c` all fork, when every
      fork succeeds. */
  lemma {:induction false} CopiesLaunch(s: Session, c: seq<char>, n: nat, k: nat, os: Os)
    requires Word(c) && s.paths == ["/bin"] && os.access(s.cwd, "/bin/" + c)
    requires ForksSucceed(os, k, n)
    ensures AllLaunch(s, Copies(c, n), k, os)
    decreases n
  {
    if n > 0 {
      var segs := Copies(c, n);
      assert segs[0] == c && segs[1..] == Copies(c, n - 1);
      WordLaunches(s, c, k, os);
      CopiesLaunch(s, c, n - 1, k + 1, os);
      LaunchThenAll(s, segs, k, os);
    }
  }

  lemma LaunchThenAll(s: Session, segs: seq<seq<char>>, k: nat, os: Os)
    requires segs != [] && SegmentSpec(s, segs[0], k, os).0 == s && SegmentSpec(s, segs[0], k, os).1.Launched?
    requires AllLaunch(s, segs[1..], k + 1, os)
    ensures AllLaunch(s, segs, k, os)
  {
  }

  /** A line of `MAX_TOKENS + 1` commands `ls`, all of which fork, makes
      the stores of line 243 run past the end of the pid array. */
  lemma PidArrayOverflows(cwd: seq<char>)
    ensures var pids := Pids(RunLine(Session(["/bin"], cwd), Repeated("ls", MAX_TOKENS + 1), EverythingForks()).steps);
            |pids| == MAX_TOKENS + 1 &&
            StorePidsAsWritten(seq(MAX_TOKENS, _ => 0), 0, pids) == None
  {
    var ls: seq<char> := "ls";
    assert ls[0] == 'l' && ls[1] == 's';
    assert Word(ls);
    var s, os, segs := Session(["/bin"], cwd), EverythingForks(), Copies(ls, MAX_TOKENS + 1);
    RepeatedSegments(ls, MAX_TOKENS + 1);
    EverythingForksSucceeds(0, MAX_TOKENS + 1);
    CopiesLaunch(s, ls, MAX_TOKENS + 1, 0, os);
    CopiesLength(ls, MAX_TOKENS + 1);
    EveryLaunchRecorded(s, segs, 0, os);
  }

  /** The interpreter's session state, updated in place by the built-ins. */
  class Shell {
    var paths: seq<seq<char>>
    var cwd: seq<char>

    ghost predicate Valid()
      reads this
    {
      |paths| <= MAX_PATHS
    }

    function State(): Session
      reads this
    {
      Session(paths, cwd)
    }

    /** The shell starts with the search path `/bin`. */
    constructor (cwd0: seq<char>)
      ensures Valid() && paths == ["/bin"] && cwd == cwd0
    {
      paths := ["/bin"];
      cwd := cwd0;
    }

    /** The `path` built-in: drop the old search path and copy the
        arguments in, while the array has room. */
    method SetPath(tokens: seq<seq<char>>)
      requires 1 <= |tokens|
      modifies this`paths
      ensures Valid()
      ensures paths == PathArgs(tokens)
    {
      paths := [];
      var i := 1;
      while i < |tokens|
        invariant 1 <= i <= |tokens|
        invariant paths == tokens[1..][..Min(i - 1, MAX_PATHS)]
      {
        if |paths| < MAX_PATHS {
          paths := paths + [tokens[i]];
        }
        i := i + 1;
      }
    }

    /** A tokenized command of the segment loop: `exit`, `cd` and `path`
        with their arity checks, else resolution and `fork`. */
    method RunCommand(tokens: seq<seq<char>>, outfile: Option<seq<char>>, k: nat, os: Os) returns (step: Step)
      requires Valid() && 1 <= |tokens|
      modifies this
      ensures Valid()
      ensures (State(), step) == CommandSpec(old(State()), tokens, outfile, k, os)
    {
      if tokens[0] == "exit" {
        step := if |tokens| != 1 then Failed else Exited;
      } else if tokens[0] == "cd" {
        if |tokens| != 2 {
          step := Failed;
        } else {
          var dir := os.chdir(cwd, tokens[1]);
          if dir.None? {
            step := Failed;
          } else {
            cwd := dir.value;
            step := Builtin;
          }
        }
      } else if tokens[0] == "path" {
        SetPath(tokens);
        step := Builtin;
      } else {
        var found, fullpath := Resolve(tokens[0], paths, os.Executable(cwd));
        if !found {
          step := Failed;
        } else {
          var pid := os.fork(k);
          if pid.None? {
            step := Failed;
          } else {
            step := Launched(pid.value, fullpath, tokens, outfile);
          }
        }
      }
    }

    /** The body of the segment loop for the `k`-th segment `raw`. */
    method RunSegment(raw: seq<char>, k: nat, os: Os) returns (step: Step)
      requires Valid()
      modifies this
      ensures Valid()
      ensures (State(), step) == SegmentSpec(old(State()), raw, k, os)
    {
      var cmd := Trim(raw);
      if cmd == [] {
        return Skipped;
      }
      var parsed := ParseSegment(cmd);
      match parsed {
        case Rejected =>
          step := Failed;
        case NoCommand =>
          step := Skipped;
        case Accepted(tokens, outfile) =>
          step := RunCommand(tokens, outfile, k, os);
      }
    }

    /** The parent's bookkeeping for one segment: an error message is
        counted, a forked child's pid appended. */
    static method Record(step: Step, pids: seq<int>, diagnostics: nat) returns (pids': seq<int>, diagnostics': nat)
      ensures pids' == pids + Pids([step])
      ensures diagnostics' == diagnostics + Diagnostics([step])
    {
      pids', diagnostics' := pids, diagnostics;
      if step == Failed {
        diagnostics' := diagnostics + 1;
      } else if step.Launched? {
        pids' := pids + [step.pid];
      }
    }

    /** One line: `strtok_r` on `&` hands out the segments, each is run in
        turn, every error message is counted and every forked child's pid
        recorded for the wait at the end of the line. */
    method ProcessLine(line: seq<char>, os: Os) returns (pids: seq<int>, diagnostics: nat, exited: bool)
      requires Valid()
      modifies this
      ensures Valid()
      ensures var o := RunLine(old(State()), line, os);
              State() == o.session && pids == Pids(o.steps) &&
              diagnostics == Diagnostics(o.steps) && exited == (Exited in o.steps)
    {
      ghost var segs := Tokens(line, Ampersand);
      ghost var total := RunLine(State(), line, os);
      ghost var steps: seq<Step> := [];
      pids, diagnostics, exited := [], 0, false;
      var pos, k := 0, 0;
      assert line[0..] == line;
      var scan := StrTok(line, 0, Ampersand);
      while scan.token.Some? && !exited
        invariant Valid()
        invariant pos <= |line| && scan == StrTok(line, pos, Ampersand)
        invariant k <= |segs| && Tokens(line[pos..], Ampersand) == segs[k..]
        invariant !exited ==> total == Then(steps, RunSegments(State(), segs[k..], k, os))
        invariant exited ==> total == LineOutcome(State(), steps)
        invariant pids == Pids(steps) && diagnostics == Diagnostics(steps) && exited == (Exited in steps)
        decreases |line| - pos
      {
        ghost var before := State();
        var step := RunSegment(scan.token.value, k, os);
        LineStep(line, pos, k, segs, steps, before, State(), step, os);
        steps := steps + [step];
        pids, diagnostics := Record(step, pids, diagnostics);
        exited := step == Exited;
        pos := scan.next;
        k := k + 1;
        scan := StrTok(line, pos, Ampersand);
      }
      if !exited {
        StrTokYieldsTokens(line, pos, Ampersand);
        assert segs[k..] == [] && steps + [] == steps;
      }
    }
  }
}
