/** `get_filename`: normalise a candidate, expand environment references, then resolve it
    either as an absolute path or as a search pattern over every walked file. */
module Resolution {
  import opened Wrappers
  import opened Text
  import opened EnvVars

  /** One triple yielded by `os.walk`: a directory and the names of the files in it. */
  datatype WalkEntry = WalkEntry(dirname: string, files: seq<string>)

  /** What `get_filename` learns from outside the plugin. `env` stands for the cached
      shell environment, `walk` for what `os.walk` yields for each workspace folder in
      turn, `pathExists` for `os.path.exists`, `search` for the truth of
      `re.search(pattern, path)` and `compiles` for whether the pattern is a valid
      regular expression. */
  datatype Host = Host(
    env: map<string, string>,
    walk: seq<WalkEntry>,
    pathExists: string -> bool,
    search: (string, string) -> bool,
    compiles: string -> bool)

  /** The replacement chain of line 93 with `os.sep == '/'`. */
  function Normalize(text: string): (r: string)
    ensures '\\' !in r && ';' !in r
    ensures r == [] || (!IsSpace(r[0]) && !IsSpace(r[|r| - 1]))
  {
    var s1 := ReplaceAll(text, "\\", "/");
    var s2 := ReplaceAll(s1, "//", "/");
    var s3 := ReplaceAll(s2, "import ", "");
    var s4 := ReplaceAll(s3, "use ", "");
    var s5 := ReplaceAll(s4, ";", "");
    ReplaceRemovesChar(text, '\\', "/");
    ReplaceRemovesChar(s4, ';', "");
    StripKeepsOut(s5, '\\');
    StripKeepsOut(s5, ';');
    Strip(s5)
  }

  /** The text `get_filename` tests at line 96: the normalised candidate with its
      environment references expanded. */
  function Expanded(text: string, env: map<string, string>): string
  {
    HandleEnv(Normalize(text), env)
  }

  /** The paths `dirname + os.sep + file` for the files of one walk entry, in order. */
  function EntryPaths(dirname: string, files: seq<string>): (ps: seq<string>)
    ensures |ps| == |files|
    ensures forall k :: 0 <= k < |files| ==> ps[k] == dirname + "/" + files[k]
  {
    if files == [] then []
    else EntryPaths(dirname, files[..|files| - 1]) + [dirname + "/" + files[|files| - 1]]
  }

  /** Every walked path, in walk order. */
  function Paths(walk: seq<WalkEntry>): seq<string>
  {
    if walk == [] then []
    else Paths(walk[..|walk| - 1]) + EntryPaths(walk[|walk| - 1].dirname, walk[|walk| - 1].files)
  }

  /** The paths the pattern is found in, in the order given. */
  function Matching(pattern: string, paths: seq<string>, search: (string, string) -> bool): seq<string>
  {
    if paths == [] then []
    else
      var last := paths[|paths| - 1];
      Matching(pattern, paths[..|paths| - 1], search) + (if search(pattern, last) then [last] else [])
  }

  /** A path is matched exactly when it is among those searched and the pattern is found
      in it; no more paths are matched than searched. */
  lemma {:induction false} MatchingMembers(pattern: string, paths: seq<string>, search: (string, string) -> bool)
    ensures forall p :: p in Matching(pattern, paths, search) <==> p in paths && search(pattern, p)
    ensures |Matching(pattern, paths, search)| <= |paths|
    decreases |paths|
  {
    if paths != [] {
      var init := paths[..|paths| - 1];
      MatchingMembers(pattern, init, search);
      assert paths == init + [paths[|paths| - 1]];
    }
  }

  /** The matches of walked paths `a` then `b` are those of `a` then those of `b`: with
      `MatchingSingle`, the results keep the walk order, duplicates included. */
  lemma {:induction false} MatchingInOrder(pattern: string, a: seq<string>, b: seq<string>, search: (string, string) -> bool)
    ensures Matching(pattern, a + b, search) == Matching(pattern, a, search) + Matching(pattern, b, search)
    decreases |b|
  {
    if b == [] {
      assert a + b == a;
    } else {
      var init, last := b[..|b| - 1], b[|b| - 1];
      var ab := a + b;
      MatchingInOrder(pattern, a, init, search);
      assert ab[..|ab| - 1] == a + init;
      assert ab[|ab| - 1] == last;
      var tail := if search(pattern, last) then [last] else [];
      calc {
        Matching(pattern, ab, search);
        Matching(pattern, a + init, search) + tail;
        (Matching(pattern, a, search) + Matching(pattern, init, search)) + tail;
        Matching(pattern, a, search) + (Matching(pattern, init, search) + tail);
        Matching(pattern, a, search) + Matching(pattern, b, search);
      }
    }
  }

  /** A single path is matched exactly when the pattern is found in it. */
  lemma MatchingSingle(pattern: string, p: string, search: (string, string) -> bool)
    ensures Matching(pattern, [p], search) == (if search(pattern, p) then [p] else [])
  {
    assert [p][..0] == [];
  }

  /** Lines 96-106 for a non-empty text: an absolute path counts when it exists; any
      other text is a pattern searched for in every walked path. */
  function Resolve(t: string, host: Host): Result<seq<string>>
    requires t != []
  {
    if t[0] == '/' then Ok(if host.pathExists(t) then [t] else [])
    else if Paths(host.walk) != [] && !host.compiles(t) then Err(PatternError)
    else Ok(Matching(t, Paths(host.walk), host.search))
  }

  /** An absolute path gives itself when it exists and nothing otherwise; a pattern
      fails only when it is invalid and some path is walked, and otherwise gives exactly
      the walked paths it is found in; the only error is the pattern error. */
  lemma ResolveCases(t: string, host: Host)
    requires t != []
    ensures var r := Resolve(t, host);
            (t[0] == '/' ==>
               r.Ok? && |r.value| <= 1 && (forall p :: p in r.value ==> p == t) &&
               (r.value != [] <==> host.pathExists(t))) &&
            (t[0] != '/' ==> (r.Err? <==> Paths(host.walk) != [] && !host.compiles(t))) &&
            (t[0] != '/' && r.Ok? ==>
               forall p :: p in r.value <==> p in Paths(host.walk) && host.search(t, p)) &&
            (r.Err? ==> r.error == PatternError)
  {
    MatchingMembers(t, Paths(host.walk), host.search);
  }

  /** What `get_filename(text)` returns or raises. */
  function GetFilenameSpec(text: string, host: Host): (r: Result<seq<string>>)
    ensures Expanded(text, host.env) == [] <==> r == Err(IndexError)
  {
    var t := Expanded(text, host.env);
    if t == [] then Err(IndexError) else Resolve(t, host)
  }

  /** A candidate made only of what line 93 removes passes the emptiness test of line 24
      and then fails at `text[0]` on line 96. */
  lemma EmptiedCandidateRaises(host: Host)
    ensures Normalize(";") == [] && Normalize("import ") == [] && Normalize("use ") == []
    ensures GetFilenameSpec(";", host) == Err(IndexError)
    ensures GetFilenameSpec("import ", host) == Err(IndexError)
    ensures GetFilenameSpec("use ", host) == Err(IndexError)
  {
    ReplaceMissingHead(";", "\\", "/");
    ReplaceMissingHead(";", "//", "/");
    ReplaceMissingHead(";", "import ", "");
    ReplaceMissingHead(";", "use ", "");
    assert ";"[..1] == ";";
    assert ReplaceAll("", ";", "") == [];
    ImportRemoved();
    UseRemoved();
  }

  /** The keyword `import ` on its own normalises to nothing. */
  lemma ImportRemoved()
    ensures Normalize("import ") == []
  {
    var w := "import ";
    SlashFree(w);
    assert w[..|w|] == w;
    assert ReplaceAll(w, "import ", "") == [];
    assert ReplaceAll([], "use ", "") == [];
    assert ReplaceAll([], ";", "") == [];
  }

  /** The keyword `use ` on its own normalises to nothing. */
  lemma UseRemoved()
    ensures Normalize("use ") == []
  {
    var w := "use ";
    SlashFree(w);
    ReplaceMissingHead(w, "import ", "");
    assert w[..|w|] == w;
    assert ReplaceAll(w, "use ", "") == [];
    assert ReplaceAll([], ";", "") == [];
  }

  /** The first two replacements of line 93 leave text without separators unchanged. */
  lemma SlashFree(w: string)
    requires '\\' !in w && '/' !in w
    ensures ReplaceAll(ReplaceAll(w, "\\", "/"), "//", "/") == w
  {
    ReplaceMissingHead(w, "\\", "/");
    ReplaceMissingHead(w, "//", "/");
  }

  /** `get_filename` with the emptiness test after normalisation: an emptied candidate
      finds nothing instead of raising. */
  function GetFilenameGuarded(text: string, host: Host): (r: Result<seq<string>>)
    ensures Expanded(text, host.env) == [] ==> r == Ok([])
    ensures Expanded(text, host.env) != [] ==> r == GetFilenameSpec(text, host)
    ensures r.Err? ==> r.error == PatternError
  {
    var t := Expanded(text, host.env);
    if t == [] then Ok([])
    else
      ResolveCases(t, host);
      Resolve(t, host)
  }

  /** With the guard, the emptied candidates of `EmptiedCandidateRaises` are misses. */
  lemma EmptiedCandidateMisses(host: Host)
    ensures GetFilenameGuarded(";", host) == Ok([])
    ensures GetFilenameGuarded("import ", host) == Ok([])
    ensures GetFilenameGuarded("use ", host) == Ok([])
  {
    EmptiedCandidateRaises(host);
  }

  /** `get_filename(text)`. */
  method GetFilename(text: string, host: Host) returns (r: Result<seq<string>>)
    ensures r == GetFilenameSpec(text, host)
  {
    var t := Expanded(text, host.env);
    if |t| == 0 {
      return Err(IndexError);
    }
    if t[0] == '/' {
      var results := [];
      if host.pathExists(t) {
        results := results + [t];
        assert results == [t];
      }
      r := Ok(results);
    } else {
      r := SearchWalk(t, host);
    }
  }

  /** Lines 100-106: the results are gathered file by file inside the nested loops over
      walk entries and their files; an invalid pattern raises at the first file. */
  method SearchWalk(t: string, host: Host) returns (r: Result<seq<string>>)
    requires t != [] && t[0] != '/'
    ensures r == Resolve(t, host)
  {
    var walk := host.walk;
    var results := [];
    ghost var seen: seq<string> := [];
    var i := 0;
    while i < |walk|
      invariant 0 <= i <= |walk|
      invariant seen == Paths(walk[..i])
      invariant seen == [] || host.compiles(t)
      invariant results == Matching(t, seen, host.search)
    {
      var found := SearchEntry(t, host, seen, walk[i], results);
      if found.Err? {
        PathsPrefix(walk, i, 0);
        return found;
      }
      results := found.value;
      PathsStep(walk, i);
      seen := seen + EntryPaths(walk[i].dirname, walk[i].files);
      i := i + 1;
    }
    assert walk[..i] == walk;
    return Ok(results);
  }

  /** The inner loop of lines 101-106 over the files of one walk entry, continuing the
      matches `results` gathered from the paths `before`. */
  method SearchEntry(t: string, host: Host, ghost before: seq<string>, entry: WalkEntry, results: seq<string>)
    returns (r: Result<seq<string>>)
    requires before == [] || host.compiles(t)
    requires results == Matching(t, before, host.search)
    ensures r.Err? <==> entry.files != [] && !host.compiles(t)
    ensures r.Err? ==> r.error == PatternError
    ensures r.Ok? ==> r.value == Matching(t, before + EntryPaths(entry.dirname, entry.files), host.search)
  {
    var acc := results;
    var j := 0;
    assert entry.files[..0] == [];
    assert before + [] == before;
    while j < |entry.files|
      invariant 0 <= j <= |entry.files|
      invariant j == 0 || host.compiles(t)
      invariant acc == Matching(t, before + EntryPaths(entry.dirname, entry.files[..j]), host.search)
    {
      var fileName := entry.dirname + "/" + entry.files[j];
      if !host.compiles(t) {
        return Err(PatternError);
      }
      MatchingStep(t, before, entry.dirname, entry.files, j, host.search);
      if host.search(t, fileName) {
        acc := acc + [fileName];
      }
      j := j + 1;
    }
    assert entry.files[..j] == entry.files;
    return Ok(acc);
  }

  /** The walk's paths up to entry `i` inclusive are those before it followed by its own. */
  lemma PathsStep(walk: seq<WalkEntry>, i: nat)
    requires i < |walk|
    ensures Paths(walk[..i + 1]) == Paths(walk[..i]) + EntryPaths(walk[i].dirname, walk[i].files)
  {
    assert walk[..i + 1][..i] == walk[..i];
  }

  /** Taking one more file of an entry adds its path to the matches exactly when the
      pattern is found in it. */
  lemma {:induction false} MatchingStep(t: string, before: seq<string>, dirname: string, files: seq<string>, j: nat,
                     search: (string, string) -> bool)
    requires j < |files|
    ensures var path := dirname + "/" + files[j];
            Matching(t, before + EntryPaths(dirname, files[..j + 1]), search)
            == Matching(t, before + EntryPaths(dirname, files[..j]), search) + (if search(t, path) then [path] else [])
  {
    var path := dirname + "/" + files[j];
    var prefix := before + EntryPaths(dirname, files[..j]);
    assert files[..j + 1][..j] == files[..j];
    assert prefix + [path] == before + EntryPaths(dirname, files[..j + 1]);
    assert (prefix + [path])[..|prefix|] == prefix;
  }

  /** A file at position `j` of entry `i` means the walk yields at least one path. */
  lemma {:induction false} PathsPrefix(walk: seq<WalkEntry>, i: nat, j: nat)
    requires i < |walk| && j < |walk[i].files|
    ensures Paths(walk) != []
    decreases |walk|
  {
    if i < |walk| - 1 {
      assert walk[..|walk| - 1][i] == walk[i];
      PathsPrefix(walk[..|walk| - 1], i, j);
    }
  }
}
