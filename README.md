# wish: a verified model of the command dispatcher

`wish` is a small Unix shell. It reads lines, either interactively or from a
batch file. Each line is split on `&` into segments that run in parallel, and
each segment is one command. A command may end in one `> file` redirection.
The commands `exit`, `cd` and `path` are built-ins that run inside the shell.
Any other command name is resolved to an executable, using the session's
search path when the name holds no `/`. The shell forks a child for it, and
at the end of the line it waits for every child it forked.

This project models that dispatcher, from `trim` and `split_tokens` through
the whole segment loop of `main`, in four Dafny modules:

- `Text` (text.dfy): `trim` and `split_tokens`, with `strtok_r`
  modelled as a cursor function `StrTok`. `trim` is specified by
  `Trimmed`, the string without its leading and trailing blanks.
  `split_tokens` and `strtok_r` are specified by `Tokens`, the maximal runs
  of non-delimiter characters.
- `Command` (command.dfy): the redirection checks and the tokenizing
  of a trimmed segment. The spec function `ParseSpec` gives the outcome:
  rejected, no command, or a token list with an optional output file.
- `Resolution` (resolution.dfy): search-path resolution and the argument
  vector of the `/bin/sh` fallback.
- `Dispatch` (dispatch.dfy): the built-ins, `fork`, the `&` loop of one
  line and the collection of child pids. The class `Shell` holds the state
  that the built-ins update in place: the search path (`paths`, `path_count`)
  and the working directory. Each method of `Shell` is proved against a
  spec function:
  - `SetPath` against `PathArgs`;
  - `RunCommand` against `CommandSpec`;
  - `RunSegment` against `SegmentSpec`;
  - `Record` against `Pids` and `Diagnostics`;
  - `ProcessLine` against `RunLine`.

The operating system appears as three oracles in the datatype `Os`:

- `access` says whether a path is executable, given a working directory;
- `chdir` gives the new working directory, or failure;
- `fork` gives the child's pid for the k-th segment of the line, or failure.
  The pid is positive (type `Pid`): a negative result is the failure
  branch, and zero is seen only by the child.

Each segment yields one `Step`:

- `Skipped`: dropped silently;
- `Failed`: one error message;
- `Exited`: the `exit` built-in;
- `Builtin`: a successful `cd` or `path`;
- `Launched`: a forked child, with its pid, resolved path, argument vector
  and output file.

## Model

| member | source | states |
|---|---|---|
| Text.Span | enunciado/wish.c:24 | the number of leading delimiter characters: all characters before it are delimiters, and the next is not |
| Text.CSpan | enunciado/wish.c:37 | the length of the leading run of non-delimiters, where `strtok_r` ends a token |
| Text.BackSpan | enunciado/wish.c:25-29 | the number of trailing blanks: all of them are blanks, and the character before them is not |
| Text.Trim | enunciado/wish.c:22-31 | the forward skip, then the backward scan toward the start, yield exactly `Trimmed(s)`, the string without its leading and trailing space, tab and newline |
| Text.TrimmedIsCore | enunciado/wish.c:22-31 | what is removed on either side is blank, and a non-empty result starts and ends with a non-blank |
| Text.TrimmedEmptyIff | enunciado/wish.c:89-90 | trimming gives the empty string exactly when the segment is all blanks |
| Text.TrimmedIdempotent | enunciado/wish.c:116 | trimming twice is trimming once |
| Text.Tokens | enunciado/wish.c:37-41 | no more tokens than characters; every token is non-empty and holds no delimiter |
| Text.TokensKeepOrder | enunciado/wish.c:37-41 | joined back together, the tokens are the input with its delimiters deleted: order kept, nothing lost |
| Text.TokensEmptyIff | enunciado/wish.c:136-137 | no token at all exactly when every character is a delimiter |
| Text.TokensSkipLeading | enunciado/wish.c:37 | leading delimiters do not change the tokens |
| Text.TokensSkipTrailing | enunciado/wish.c:40 | trailing delimiters do not change the tokens |
| Text.TokensOfTrimmed | enunciado/wish.c:116-125 | trimming does not change the whitespace tokens |
| Text.SingleTokenTrimmed | enunciado/wish.c:116-127 | a trimmed string with exactly one token is that token and contains no blank |
| Text.StrTok | enunciado/wish.c:37-40 | one `strtok_r` call moves the cursor forward, and strictly forward when it returns a token |
| Text.StrTokYieldsTokens | enunciado/wish.c:37-40 | `strtok_r` from a cursor returns NULL exactly when no token is left; otherwise it returns the first token, and the rest of the tokens follow the new cursor |
| Text.SplitTokens | enunciado/wish.c:34-44 | the loop stores the first `MAX_TOKENS - 1` tokens in order, leaving a slot for the closing NULL |
| Command.IndexOf | enunciado/wish.c:96 | `strchr` finds the first occurrence of the character |
| Command.ParseSpec | enunciado/wish.c:95-140 | an accepted segment has between 1 and `MAX_TOKENS - 1` tokens |
| Command.ScanBlank | enunciado/wish.c:101-104 | the flag stays set exactly when only blanks precede the `>` |
| Command.ReadOutputFile | enunciado/wish.c:116-130 | the text after `>` is trimmed, rejected when empty, and rejected unless it splits into exactly one token |
| Command.CheckRedirection | enunciado/wish.c:95-131 | the checks in the order of the code: blank before `>`, a second `>`, the file name; on success the segment is cut at the `>` |
| Command.ParseSegment | enunciado/wish.c:95-140 | the redirection checks, then tokenizing the command part; a command part without tokens is dropped |
| Command.NoCommandUnreachable | enunciado/wish.c:137-140 | a non-blank segment never reaches the `tokcount == 0` branch |
| Command.PlainCommand | enunciado/wish.c:133-136 | a non-blank segment without `>` is accepted with all of its tokens, up to the capacity |
| Command.OutputFileRule | enunciado/wish.c:116-130 | an output file is named exactly when the text after `>` is one token, and the file is that token, free of blanks |
| Command.OutputFileFrom | enunciado/wish.c:115-116 | every character of the output file comes from the text after `>` |
| Command.RedirectionRule | enunciado/wish.c:99-131 | a segment with `>` is accepted exactly when a non-blank precedes the first `>`, no second `>` follows, and one token comes after it; it is never silently dropped |
| Command.RedirectedCommand | enunciado/wish.c:115-136 | an accepted redirection runs the text before `>` and writes to the one token after it, which is non-empty and holds no blank and no `>` |
| Resolution.Resolve | enunciado/wish.c:174-201 | `found` holds exactly when `ResolveSpec` finds the command, and `fullpath` is then its result |
| Resolution.DirectNameIgnoresPaths | enunciado/wish.c:178-187 | a name containing `/` is found exactly when it is executable itself, whatever the search path is |
| Resolution.SearchFindsFirst | enunciado/wish.c:188-200 | a bare name fails exactly when no directory holds it; otherwise the result is the first directory that does, joined with the name |
| Resolution.EmptySearchPathFindsNothing | enunciado/wish.c:189-199 | with an empty search path, no bare name resolves |
| Resolution.ShellArgv | enunciado/wish.c:228-235 | the fallback argv is `sh`, the resolved path, then arguments 1 onward; it never overruns the `MAX_TOKENS + 2` slots, and it is complete whenever the command has at most `MAX_TOKENS - 1` tokens |
| Dispatch.PidsAppend | enunciado/wish.c:243 | recording the pids of two runs of steps gives the two pid lists concatenated |
| Dispatch.LineStep | enunciado/wish.c:88-93 | one turn of the `&` loop: `strtok_r` hands out the next segment, and the line's outcome is that segment's step followed by the rest |
| Dispatch.RunSegmentsUnfold | enunciado/wish.c:88-93 | the loop runs the first segment, then, unless it was `exit`, the rest from the session that segment leaves |
| Dispatch.SkippedIffBlank | enunciado/wish.c:89-93 | a segment is silently skipped exactly when it is blank, and the session is left unchanged |
| Dispatch.BuiltinsNeverSearch | enunciado/wish.c:142-172 | built-ins are decided before any `access` or `fork`, so they never start a child, even when an executable of the same name exists |
| Dispatch.BuiltinArity | enunciado/wish.c:143-160 | `exit` with arguments and `cd` without exactly one argument are errors that change nothing; `exit` alone ends the shell |
| Dispatch.PathReplacesSearchPath | enunciado/wish.c:161-172 | `path` replaces the whole search path with its arguments in order; with no argument it leaves the path empty |
| Dispatch.EmptyPathBlocksBareNames | enunciado/wish.c:188-200 | with an empty search path, every bare non-built-in command fails |
| Dispatch.CommandEffects | enunciado/wish.c:142-244 | a tokenized command is never dropped silently; only a successful `cd` or `path` changes the session; a forked child runs the tokens of a non-built-in, from the resolved path, with the pid `fork` returned |
| Dispatch.PathKeptBySegment | enunciado/wish.c:151-172 | only a `path` command changes the search path; `cd` changes only the working directory |
| Dispatch.SearchPathKept | enunciado/wish.c:88-250 | segments with no `path` command among them leave the search path as it was |
| Dispatch.EmptyPathLaunchesDirect | enunciado/wish.c:174-201 | with an empty search path, any child a segment starts is named with a `/` |
| Dispatch.EmptyPathLaunchesOnlyDirectNames | enunciado/wish.c:161-201 | after `path` with no arguments, no bare command name runs for the rest of the segments until another `path` command: every child started is named with a `/` |
| Dispatch.SegmentEffects | enunciado/wish.c:142-244 | only a successful `cd` or `path` changes the session; a launched child runs the parsed tokens of a non-built-in, with the resolver's path and the pid `fork` returned |
| Dispatch.AllSegmentsHandled | enunciado/wish.c:88-93 | every segment is handled in order; `exit` is the last step, and without it there is one step per segment |
| Dispatch.OneEffectPerStep | enunciado/wish.c:241-244 | each step prints at most one error or starts at most one child, never both |
| Dispatch.OneDiagnosticPerSegment | enunciado/wish.c:81-93 | the error messages of a line plus its recorded pids never outnumber its `&` segments |
| Dispatch.StorePidsAsWritten | enunciado/wish.c:85-86 | the stores of line 243 into the `MAX_TOKENS`-slot array stay in bounds exactly when the pids fit, and then land in order after the used slots |
| Dispatch.RepeatedSegments | enunciado/wish.c:83 | the line `c&c&…&c&` splits on `&` into its `n` segments `c` |
| Dispatch.WordLaunches | enunciado/wish.c:133-244 | with search path `/bin`, a segment holding a plain command `c` that is executable as `/bin/c` forks a child running `/bin/c` with argv `[c]` |
| Dispatch.EveryLaunchRecorded | enunciado/wish.c:88-250 | segments that each fork a child yield one recorded pid apiece |
| Dispatch.CopiesLaunch | enunciado/wish.c:88-250 | every copy of such a command forks, as long as the forks succeed |
| Dispatch.PidArrayOverflows | enunciado/wish.c:85 | a line of `MAX_TOKENS + 1` forking segments makes the stores of line 243 run past the end of the pid array |
| Dispatch.Shell.constructor | enunciado/wish.c:62-65 | the search path starts as the single directory `/bin` |
| Dispatch.Shell.SetPath | enunciado/wish.c:161-172 | the old path is dropped and the arguments are copied in order while the array has room |
| Dispatch.Shell.RunCommand | enunciado/wish.c:142-244 | the new session and the step are exactly those of `CommandSpec`: built-ins first, then resolution, then `fork` |
| Dispatch.Shell.RunSegment | enunciado/wish.c:89-140 | trim, parse and run one segment; the new session and the step are exactly those of `SegmentSpec` |
| Dispatch.Shell.Record | enunciado/wish.c:241-244 | an error adds one to the diagnostics, a forked child appends its pid, and nothing else changes |
| Dispatch.Shell.ProcessLine | enunciado/wish.c:81-250 | the `strtok_r` loop over `&` leaves the session `RunLine` gives; it records every forked pid in order, counts every error message, and reports `exit` |

## Left out

- Reading input, the prompt, the batch-file argument and end-of-file are left out (lines 46-79). They are I/O around the dispatcher. `RunLine` takes one line as a value.
- The child side after `fork` is left out: `open`, `dup2` onto stdout and stderr, `execv`, and the `ENOEXEC` test before the fallback (lines 209-240). These run in another process image. The model keeps the outfile and the argv the child would use, and `ShellArgv` builds the fallback argv.
- The `waitpid` barrier (lines 252-255) is concurrency. The model returns the pids it would wait for, in order.
- `access`, `chdir` and `fork` are oracles in `Os`, not real system calls. `fork` is modelled from the parent's side only: a positive pid, or failure.
- The error message text and its write to stderr are left out. Each error is counted as one `Failed` step.
- `exit` in the middle of a line ends the shell without waiting for children already forked on that line. `ProcessLine` reports `exited` and returns their pids, but nothing more follows.
- `strdup` and `free` are left out, along with memory exhaustion. Strings are values.
- A NUL byte inside a line is not modelled. The C code would treat it as the end of the string.
- Resolution.Resolve: does not model the 1024-byte `fullpath` buffer (line 176). `snprintf` would silently truncate a longer directory-plus-name, and the model joins it in full.
- Dispatch.Shell.SetPath: the replacement path holds all of `path`'s arguments only up to the 99-token cap of `split_tokens`. The code limits `path` to 98 directories. The description of `path` as replacing the search path with all remaining arguments holds only below that cap, and the model follows the code. The `MAX_PATHS` cap of 100 is modelled but can never be reached.
- Dispatch.Shell.ProcessLine: records pids in an unbounded sequence rather than the 100-slot array of line 85. This is the corrected behaviour (see Findings).

## Findings

| source | as written | input that shows it | evidently intended | confidence | as-written member | corrected member |
|---|---|---|---|---|---|---|
| enunciado/wish.c:85, enunciado/wish.c:243 | `pid_t pids[MAX_TOKENS]` with an unchecked `pids[pid_count++] = pid` for every forked child of a line | a line of 101 segments `ls&ls&…&ls&` with `/bin/ls` executable and every fork succeeding: the 101st store writes past the end of the array | every child forked on a line is recorded, and waited for at the end of the line | not executed | Dispatch.StorePidsAsWritten, Dispatch.PidArrayOverflows | Dispatch.Shell.ProcessLine |
