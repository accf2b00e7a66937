/** Finding the executable for an external command, and the argument
    vector of the `/bin/sh` fallback used when `execv` reports ENOEXEC. */
module Resolution {
  import opened Text

  /** `dir` and `name` joined by one `/`, as `snprintf("%s/%s")` does, even
      when `dir` already ends in `/`. */
  function Join(dir: seq<char>, name: seq<char>): seq<char>
  {
    dir + "/" + name
  }

  /** The first directory of `paths` in which `name` passes the `access`
      test `executable`, joined with `name`. */
  function Search(paths: seq<seq<char>>, name: seq<char>, executable: seq<char> -> bool): Option<seq<char>>
  {
    if paths == [] then None
    else if executable(Join(paths[0], name)) then Some(Join(paths[0], name))
    else Search(paths[1..], name, executable)
  }

  /** Where the shell looks for command `name`: a name containing `/` is
      tested as it stands; any other name is searched for in `paths`. */
  function ResolveSpec(name: seq<char>, paths: seq<seq<char>>, executable: seq<char> -> bool): Option<seq<char>>
  {
    if '/' in name then
      if executable(name) then Some(name) else None
    else
      Search(paths, name, executable)
  }

  /** The resolution step of the segment loop: a name with `/` is checked
      with `access` directly; otherwise each search directory is tried in
      order, writing the candidate into `fullpath` and stopping at the first
      that passes. */
  method Resolve(name: seq<char>, paths: seq<seq<char>>, executable: seq<char> -> bool)
    returns (found: bool, fullpath: seq<char>)
    ensures found <==> ResolveSpec(name, paths, executable).Some?
    ensures found ==> fullpath == ResolveSpec(name, paths, executable).value
  {
    found := false;
    fullpath := [];
    if '/' in name {
      if executable(name) {
        fullpath := name;
        found := true;
      }
      return;
    }
    var i := 0;
    while i < |paths|
      invariant 0 <= i <= |paths|
      invariant Search(paths, name, executable) == Search(paths[i..], name, executable)
      invariant !found
    {
      assert paths[i..][1..] == paths[i + 1..];
      fullpath := Join(paths[i], name);
      if executable(fullpath) {
        found := true;
        break;
      }
      i := i + 1;
    }
  }

  /** A name containing `/` is found exactly when it is executable itself,
      whatever the search path holds: the search path is not consulted. */
  lemma DirectNameIgnoresPaths(name: seq<char>, paths: seq<seq<char>>, other: seq<seq<char>>, executable: seq<char> -> bool)
    requires '/' in name
    ensures ResolveSpec(name, paths, executable) == ResolveSpec(name, other, executable)
    ensures ResolveSpec(name, paths, executable).Some? <==> executable(name)
  {
  }

  /** A bare name resolves exactly when some search directory holds it as
      an executable, and then to the first such directory joined with the
      name. */
  lemma {:induction false} SearchFindsFirst(name: seq<char>, paths: seq<seq<char>>, executable: seq<char> -> bool)
    requires '/' !in name
    ensures ResolveSpec(name, paths, executable).None? <==>
              forall i :: 0 <= i < |paths| ==> !executable(Join(paths[i], name))
    ensures ResolveSpec(name, paths, executable).Some? ==>
              exists i :: 0 <= i < |paths| && executable(Join(paths[i], name)) &&
                (forall j :: 0 <= j < i ==> !executable(Join(paths[j], name))) &&
                ResolveSpec(name, paths, executable).value == Join(paths[i], name)
    decreases |paths|
  {
    if paths != [] && !executable(Join(paths[0], name)) {
      SearchFindsFirst(name, paths[1..], executable);
      assert forall i :: 1 <= i < |paths| ==> paths[i] == paths[1..][i - 1];
      if Search(paths, name, executable).Some? {
        var i :| 0 <= i < |paths[1..]| && executable(Join(paths[1..][i], name)) &&
                 (forall j :: 0 <= j < i ==> !executable(Join(paths[1..][j], name))) &&
                 Search(paths, name, executable).value == Join(paths[1..][i], name);
        assert forall j :: 0 <= j < i + 1 ==> !executable(Join(paths[j], name)) by {
          forall j | 0 <= j < i + 1 ensures !executable(Join(paths[j], name)) {
            if j > 0 { assert paths[j] == paths[1..][j - 1]; }
          }
        }
        assert executable(Join(paths[i + 1], name));
      }
    } else if paths != [] {
      assert executable(Join(paths[0], name));
    }
  }

  /** With an empty search path no bare name resolves. */
  lemma EmptySearchPathFindsNothing(name: seq<char>, executable: seq<char> -> bool)
    requires '/' !in name
    ensures ResolveSpec(name, [], executable) == None
  {
  }

  /** The `/bin/sh` fallback's argument vector: "sh", then the resolved
      path, then the command's arguments after its name, copied while the
      `MAX_TOKENS + 2`-slot array keeps room for the closing NULL. */
  method ShellArgv(fullpath: seq<char>, tokens: seq<seq<char>>) returns (shargs: seq<seq<char>>)
    requires 1 <= |tokens|
    ensures |shargs| + 1 <= MAX_TOKENS + 2
    ensures |shargs| == 2 + Min(|tokens| - 1, MAX_TOKENS - 1)
    ensures shargs[0] == "sh" && shargs[1] == fullpath
    ensures forall j :: 2 <= j < |shargs| ==> shargs[j] == tokens[j - 1]
    ensures |tokens| <= MAX_TOKENS - 1 ==> shargs[2..] == tokens[1..]
  {
    shargs := ["sh", fullpath];
    var j := 1;
    while j < |tokens| && |shargs| < MAX_TOKENS + 1
      invariant 1 <= j <= |tokens|
      invariant |shargs| == j + 1 <= MAX_TOKENS + 1
      invariant shargs[0] == "sh" && shargs[1] == fullpath
      invariant forall k :: 2 <= k < |shargs| ==> shargs[k] == tokens[k - 1]
    {
      shargs := shargs + [tokens[j]];
      j := j + 1;
    }
  }
}
