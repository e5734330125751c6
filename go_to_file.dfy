/** The `GoToFile` command: the candidate list of `run`, the first-hit scan of `try_open`
    that fills `potential_files`, the choice between opening, a menu and an error, and
    the menu callback `open_file`. */
module GoToFileCommand {
  import opened Wrappers
  import opened Text
  import opened Quotes
  import opened Resolution

  /** What the editor is asked to do at the end of `try_open`. */
  datatype Outcome =
    | OpenOne(path: string)        // `window.open_file(path)`
    | ShowMenu(paths: seq<string>) // `show_quick_panel(paths, open_file)`
    | NoFile                       // `error_message("No file found")`
    | Raised(error: Error)         // an exception escapes the command

  /** What the editor reports about one selected region: the selected text, the unstripped
      text of its line, the column of its start, whether it is a caret, the word under it
      and the result of `extract_candidate_from_line`. */
  datatype RegionView = RegionView(
    selection: string,
    line: string,
    column: nat,
    isCaret: bool,
    word: string,
    lineCandidate: Option<string>)

  /** No whitespace at either end. */
  predicate Trimmed(s: string)
  {
    s == [] || (!IsSpace(s[0]) && !IsSpace(s[|s| - 1]))
  }

  /** Lines 11-15: the word under a caret, absent for a selection or an empty word. */
  function TextOnCursor(v: RegionView): (c: Option<string>)
    ensures c.Some? <==> v.isCaret && v.word != []
    ensures c.Some? ==> c.value == v.word
  {
    if v.isCaret && v.word != [] then Some(v.word) else None
  }

  /** Line 19: the order in which the candidates are tried, quoted text third although
      it is computed first. */
  function InTryOrder(selected: string, fromLine: Option<string>, quoted: string,
                      onCursor: Option<string>, whole: string): (cs: seq<Option<string>>)
    ensures |cs| == 5
    ensures cs[0] == Some(selected) && cs[1] == fromLine && cs[2] == Some(quoted)
    ensures cs[3] == onCursor && cs[4] == Some(whole)
  {
    [Some(selected), fromLine, Some(quoted), onCursor, Some(whole)]
  }

  /** Lines 9-19: the candidates of one region in the order they are tried. */
  function Candidates(v: RegionView): (cs: seq<Option<string>>)
    ensures |cs| == 5
    ensures cs[0].Some? && cs[2].Some? && cs[4].Some?
    ensures Trimmed(cs[0].value) && Trimmed(cs[4].value)
    ensures cs[1] == v.lineCandidate
    ensures '/' !in cs[2].value
    ensures cs[3].Some? <==> v.isCaret && v.word != []
    ensures cs[3].Some? ==> cs[3].value == v.word
    ensures cs[0] == Some(Strip(v.selection)) && cs[4] == Some(Strip(v.line))
    ensures cs[2] == Some(QuotedCandidate(v.line, v.column))
  {
    InTryOrder(Strip(v.selection), v.lineCandidate, QuotedCandidate(v.line, v.column), TextOnCursor(v), Strip(v.line))
  }

  /** Lines 31-37: the outcome depends only on how many files were found. */
  function Decide(files: seq<string>): (o: Outcome)
    ensures o.ShowMenu? <==> |files| > 1
    ensures o.ShowMenu? ==> o.paths == files
    ensures o.OpenOne? <==> |files| == 1
    ensures o.OpenOne? ==> o.path == files[0]
    ensures o.NoFile? <==> files == []
    ensures !o.Raised?
  {
    if |files| > 1 then ShowMenu(files)
    else if |files| == 1 then OpenOne(files[0])
    else NoFile
  }

  /** A candidate the loop of `try_open` passes over. */
  predicate Skipped(c: Option<string>)
  {
    c.None? || c.value == []
  }

  /** Where the loop of `try_open` ends: `files` is `potential_files` (None while the
      attribute has never been assigned), and `Failed` records an exception from
      `get_filename`. */
  datatype ScanResult =
    | Done(files: Option<seq<string>>)
    | Failed(files: Option<seq<string>>, error: Error)

  /** `self.get_filename` as `try_open` sees it. */
  function Resolver(host: Host): string -> Result<seq<string>>
  {
    t => GetFilenameSpec(t, host)
  }

  /** Lines 23-29 with `resolve` for `get_filename`, starting from the `potential_files`
      held before the call. */
  function Scan(cands: seq<Option<string>>, resolve: string -> Result<seq<string>>, files: Option<seq<string>>): ScanResult
    decreases |cands|
  {
    if cands == [] then Done(files)
    else if Skipped(cands[0]) then Scan(cands[1..], resolve, files)
    else
      match resolve(cands[0].value)
      case Err(e) => Failed(files, e)
      case Ok(found) => if found != [] then Done(Some(found)) else Scan(cands[1..], resolve, Some(found))
  }

  /** Line 27: an exception from `get_filename` on the first candidate that does not miss
      ends the command, whatever candidates follow and whatever was stored before. */
  lemma {:induction false} ErrorAborts(pre: seq<Option<string>>, c: string, rest: seq<Option<string>>,
                                       resolve: string -> Result<seq<string>>, files: Option<seq<string>>)
    requires forall k :: 0 <= k < |pre| ==> Misses(pre[k], resolve)
    requires c != [] && resolve(c).Err?
    ensures Scan(pre + [Some(c)] + rest, resolve, files).Failed?
    ensures Report(Scan(pre + [Some(c)] + rest, resolve, files)) == Raised(resolve(c).error)
    decreases |pre|
  {
    var cands := pre + [Some(c)] + rest;
    if pre == [] {
      assert cands[0] == Some(c);
    } else {
      assert cands[0] == pre[0] && cands[1..] == pre[1..] + [Some(c)] + rest;
      var next := if Skipped(pre[0]) then files else Some([]);
      ErrorAborts(pre[1..], c, rest, resolve, next);
    }
  }

  /** The candidate `;` normalises to nothing (`EmptiedCandidateRaises`) but is not skipped
      by line 24, so its `IndexError` ends the command. */
  lemma EmptiedCandidateAborts(rest: seq<Option<string>>, host: Host, files: Option<seq<string>>)
    ensures Report(Scan([Some(";")] + rest, Resolver(host), files)) == Raised(IndexError)
  {
    EmptiedCandidateRaises(host);
    assert Resolver(host)(";") == Err(IndexError);
    HeadErrorAborts(";", rest, Resolver(host), files);
  }

  /** `ErrorAborts` with nothing before the failing candidate. */
  lemma HeadErrorAborts(c: string, rest: seq<Option<string>>, resolve: string -> Result<seq<string>>,
                        files: Option<seq<string>>)
    requires c != [] && resolve(c).Err?
    ensures Report(Scan([Some(c)] + rest, resolve, files)) == Raised(resolve(c).error)
  {
    var none: seq<Option<string>> := [];
    assert none + [Some(c)] + rest == [Some(c)] + rest;
    ErrorAborts(none, c, rest, resolve, files);
  }

  /** Lines 31-37 applied to where the scan ended. */
  function Report(s: ScanResult): Outcome
  {
    match s
    case Failed(_, e) => Raised(e)
    case Done(None) => Raised(AttributeError)
    case Done(Some(found)) => Decide(found)
  }

  /** Candidates the scan passes over make no difference. */
  lemma {:induction false} ScanIgnoresSkipped(pre: seq<Option<string>>, rest: seq<Option<string>>,
                                              resolve: string -> Result<seq<string>>, files: Option<seq<string>>)
    requires forall k :: 0 <= k < |pre| ==> Skipped(pre[k])
    ensures Scan(pre + rest, resolve, files) == Scan(rest, resolve, files)
    decreases |pre|
  {
    if pre == [] {
      assert pre + rest == rest;
    } else {
      assert (pre + rest)[0] == pre[0] && (pre + rest)[1..] == pre[1..] + rest;
      assert forall k :: 0 <= k < |pre[1..]| ==> pre[1..][k] == pre[k + 1];
      ScanIgnoresSkipped(pre[1..], rest, resolve, files);
    }
  }

  /** A candidate that is passed over or resolves to nothing. */
  predicate Misses(c: Option<string>, resolve: string -> Result<seq<string>>)
  {
    Skipped(c) || resolve(c.value) == Ok([])
  }

  /** The first candidate resolving to at least one file decides the scan: later
      candidates are never resolved, so they cannot change the result. */
  lemma {:induction false} FirstHitWins(pre: seq<Option<string>>, hit: string, rest: seq<Option<string>>,
                                        resolve: string -> Result<seq<string>>, files: Option<seq<string>>,
                                        found: seq<string>)
    requires forall k :: 0 <= k < |pre| ==> Misses(pre[k], resolve)
    requires hit != [] && resolve(hit) == Ok(found) && found != []
    ensures Scan(pre + [Some(hit)] + rest, resolve, files) == Done(Some(found))
    decreases |pre|
  {
    var cands := pre + [Some(hit)] + rest;
    if pre == [] {
      assert cands[0] == Some(hit);
    } else {
      assert cands[0] == pre[0] && cands[1..] == pre[1..] + [Some(hit)] + rest;
      var next := if Skipped(pre[0]) then files else Some([]);
      FirstHitWins(pre[1..], hit, rest, resolve, next, found);
    }
  }

  /** When every candidate is passed over or resolves to nothing, and at least one is
      resolved, the command reports that no file was found. */
  lemma {:induction false} AllMissNoFile(cands: seq<Option<string>>, resolve: string -> Result<seq<string>>, files: Option<seq<string>>)
    requires forall k :: 0 <= k < |cands| ==> Misses(cands[k], resolve)
    requires files == Some([]) || exists k :: 0 <= k < |cands| && !Skipped(cands[k])
    ensures Scan(cands, resolve, files) == Done(Some([]))
    ensures Report(Scan(cands, resolve, files)) == NoFile
    decreases |cands|
  {
    if cands != [] {
      var next := if Skipped(cands[0]) then files else Some([]);
      if next != Some([]) {
        var k :| 0 <= k < |cands| && !Skipped(cands[k]);
        assert k != 0;
        assert cands[1..][k - 1] == cands[k];
      }
      AllMissNoFile(cands[1..], resolve, next);
    }
  }

  /** When every candidate is passed over, `potential_files` keeps whatever it held,
      so the outcome is decided by an earlier call, or by the missing attribute. */
  lemma {:induction false} AllSkippedKeepsOld(cands: seq<Option<string>>, resolve: string -> Result<seq<string>>, files: Option<seq<string>>)
    requires forall k :: 0 <= k < |cands| ==> Skipped(cands[k])
    ensures Scan(cands, resolve, files) == Done(files)
    ensures files.None? ==> Report(Scan(cands, resolve, files)) == Raised(AttributeError)
  {
    ScanIgnoresSkipped(cands, [], resolve, files);
    assert cands + [] == cands;
  }

  /** A caret on an empty line gives no usable candidate, so the command reopens what
      the previous call found, or raises when nothing was ever found. */
  lemma {:induction false} StaleFilesReopened(resolve: string -> Result<seq<string>>, v: RegionView, previous: string)
    requires v.selection == [] && v.line == [] && v.word == [] && v.lineCandidate == Some([])
    ensures Report(Scan(Candidates(v), resolve, Some([previous]))) == OpenOne(previous)
    ensures Report(Scan(Candidates(v), resolve, None)) == Raised(AttributeError)
  {
    EmptyLineCandidates(v);
    NothingToTryKeepsOld(resolve, Some([previous]));
    NothingToTryKeepsOld(resolve, None);
  }

  /** The candidate list of an empty line leaves the stored files as they were. */
  lemma {:induction false} NothingToTryKeepsOld(resolve: string -> Result<seq<string>>, files: Option<seq<string>>)
    ensures Scan([Some([]), Some([]), Some([]), None, Some([])], resolve, files) == Done(files)
  {
    var cs: seq<Option<string>> := [Some([]), Some([]), Some([]), None, Some([])];
    assert forall k :: 0 <= k < |cs| ==> Skipped(cs[k]);
    AllSkippedKeepsOld(cs, resolve, files);
  }

  /** On an empty line with nothing selected every candidate is empty or absent. */
  lemma {:induction false} EmptyLineCandidates(v: RegionView)
    requires v.selection == [] && v.line == [] && v.word == [] && v.lineCandidate == Some([])
    ensures Candidates(v) == [Some([]), Some([]), Some([]), None, Some([])]
  {
    var quoted := QuotedCandidate(v.line, v.column);
    assert ExpandWithinQuotes(v.line, v.column, '"') == [];
    assert ExpandWithinQuotes(v.line, v.column, '\'') == [];
    assert quoted == [];
    var cs := Candidates(v);
    assert cs == InTryOrder(Strip(v.selection), v.lineCandidate, quoted, TextOnCursor(v), Strip(v.line));
    assert Strip(v.selection) == [] && Strip(v.line) == [];
  }

  /** Once `potential_files` is assigned it stays assigned, whatever the scan meets. */
  lemma {:induction false} ScanKeepsAssigned(cands: seq<Option<string>>, resolve: string -> Result<seq<string>>, files: seq<string>)
    ensures Scan(cands, resolve, Some(files)).files.Some?
    decreases |cands|
  {
    if cands != [] && Skipped(cands[0]) {
      ScanKeepsAssigned(cands[1..], resolve, files);
    } else if cands != [] && resolve(cands[0].value).Ok? {
      ScanKeepsAssigned(cands[1..], resolve, resolve(cands[0].value).value);
    }
  }

  /** The menu's entries are exactly the stored list, so the callback's index selects
      the entry the user picked. */
  lemma {:induction false} MenuListsStoredFiles(s: ScanResult)
    requires Report(s).ShowMenu?
    ensures s.Done? && s.files == Some(Report(s).paths) && |Report(s).paths| > 1
  {
  }

  /** Python's `xs[i]` on a list. */
  function PyIndex(xs: seq<string>, i: int): (r: Result<string>)
    ensures 0 <= i < |xs| ==> r == Ok(xs[i])
    ensures -|xs| <= i < 0 ==> r == Ok(xs[|xs| + i])
    ensures (i < -|xs| || |xs| <= i) <==> r == Err(IndexError)
  {
    if 0 <= i < |xs| then Ok(xs[i])
    else if -|xs| <= i < 0 then Ok(xs[|xs| + i])
    else Err(IndexError)
  }

  class GoToFile {
    /** `self.potential_files`; None while the attribute has never been assigned. */
    var potentialFiles: Option<seq<string>>

    constructor ()
      ensures potentialFiles == None
    {
      potentialFiles := None;
    }

    /** `try_open(candidates)`: resolves candidates in order until one yields files,
        keeps the last result in `potentialFiles` and reports what to do with it. */
    method TryOpen(candidates: seq<Option<string>>, host: Host) returns (outcome: Outcome)
      modifies this
      ensures potentialFiles == Scan(candidates, Resolver(host), old(potentialFiles)).files
      ensures outcome == Report(Scan(candidates, Resolver(host), old(potentialFiles)))
    {
      var k := 0;
      while k < |candidates|
        invariant 0 <= k <= |candidates|
        invariant Scan(candidates, Resolver(host), old(potentialFiles)) == Scan(candidates[k..], Resolver(host), potentialFiles)
      {
        var text := candidates[k];
        assert candidates[k..][1..] == candidates[k + 1..];
        if text.None? || |text.value| == 0 {
          k := k + 1;
          continue;
        }
        var found := GetFilename(text.value, host);
        if found.Err? {
          return Raised(found.error);
        }
        potentialFiles := Some(found.value);
        if |found.value| > 0 {
          break;
        }
        k := k + 1;
      }
      if potentialFiles.None? {
        return Raised(AttributeError);
      }
      var files := potentialFiles.value;
      if |files| > 1 {
        outcome := ShowMenu(files);
      } else if |files| == 1 {
        outcome := OpenOne(files[0]);
      } else {
        outcome := NoFile;
      }
    }

    /** `try_open` with `potential_files` cleared first, so that nothing found by an
        earlier call can be reopened and the attribute is always assigned. */
    method TryOpenReset(candidates: seq<Option<string>>, host: Host) returns (outcome: Outcome)
      modifies this
      ensures potentialFiles == Scan(candidates, Resolver(host), Some([])).files
      ensures outcome == Report(Scan(candidates, Resolver(host), Some([])))
      ensures potentialFiles.Some?
    {
      potentialFiles := Some([]);
      outcome := TryOpen(candidates, host);
      ScanKeepsAssigned(candidates, Resolver(host), []);
    }

    /** `open_file(selected_index)`: the menu callback opens the chosen stored path;
        -1 means the menu was cancelled. Nothing is changed. */
    method OpenFile(selectedIndex: int) returns (r: Result<Option<string>>)
      ensures selectedIndex == -1 ==> r == Ok(None)
      ensures selectedIndex != -1 && potentialFiles.None? ==> r == Err(AttributeError)
      ensures selectedIndex != -1 && potentialFiles.Some? ==>
                match PyIndex(potentialFiles.value, selectedIndex)
                case Ok(path) => r == Ok(Some(path))
                case Err(e) => r == Err(e)
    {
      if selectedIndex != -1 {
        if potentialFiles.None? {
          return Err(AttributeError);
        }
        var file := PyIndex(potentialFiles.value, selectedIndex);
        if file.Err? {
          return Err(file.error);
        }
        return Ok(Some(file.value));
      }
      return Ok(None);
    }
  }

  /** After `try_open` shows a menu, picking entry `i` opens the `i`-th listed path and
      cancelling opens nothing: the callback indexes the list the menu showed. */
  method OpenFromMenu(command: GoToFile, candidates: seq<Option<string>>, host: Host, choice: int)
    returns (outcome: Outcome, picked: Result<Option<string>>)
    modifies command
    ensures outcome == Report(Scan(candidates, Resolver(host), old(command.potentialFiles)))
    ensures command.potentialFiles == Scan(candidates, Resolver(host), old(command.potentialFiles)).files
    ensures outcome.ShowMenu? && 0 <= choice < |outcome.paths| ==> picked == Ok(Some(outcome.paths[choice]))
    ensures outcome.ShowMenu? && choice == -1 ==> picked == Ok(None)
  {
    outcome := command.TryOpen(candidates, host);
    if outcome.ShowMenu? {
      MenuListsStoredFiles(Scan(candidates, Resolver(host), old(command.potentialFiles)));
    }
    picked := command.OpenFile(choice);
  }
}
