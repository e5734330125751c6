# Go To File, modelled in Dafny

`GoToFile` is an editor command (`go_to_file.py`) that guesses which file the text at
the cursor names, then opens it. For each selected region it builds five candidate
strings and tries them in this order:

1. the selected text;
2. a pattern taken from the line;
3. the text between quotes around the cursor column, cut to its last path segment;
4. the word under a caret;
5. the whole line.

Each candidate is resolved by `get_filename`, which:

- normalises the text with a fixed chain of replacements and a strip;
- expands `$NAME` / `$(NAME)` references from the shell environment;
- either checks that an absolute path exists, or uses the text as a regular expression
  searched in every file path of the workspace walk.

The first candidate that finds files decides the result:

- one file is opened;
- several files make a menu, whose callback opens the chosen entry;
- none gives a "No file found" error.

The project has six modules:

- `Wrappers`: an `Option` type, and a `Result` type over the three Python exceptions the
  modelled code can raise (`IndexError`, a pattern error, `AttributeError`).
- `Text`: Python's `str.strip` (with the `str.isspace` set of Python 3.4 and later) and `str.replace`.
- `Quotes`: `find`/`rfind`, `expand_within_quotes`, `get_quoted_selection`, and the
  `split(os.sep)[-1]` of line 9.
- `EnvVars`: `handle_env_variables`. It is a scanner for the pattern `\$\(*(\w*)\)*`: each
  quantifier takes as many characters as it can, matches do not overlap, and a name is
  replaced when the environment map has it.
- `Resolution`: the normalisation of line 93 and the two branches of `get_filename`. The
  relative branch is a method with two nested loops over lines 100-106. The source has three:
  over folders, walk entries and files. The model's outer loop runs over the walk entries of
  all folders in turn, and the inner loop over the files. The outside
  world is a `Host` value holding:
  - the environment map;
  - the walk entries;
  - `os.path.exists`;
  - the truth of `re.search`;
  - whether the pattern compiles.
- `GoToFileCommand`:
  - the candidate list of `run`;
  - `Scan`, the first-hit rule of `try_open`, with the resolver taken as a parameter;
  - `Report`, the three-way outcome;
  - the class `GoToFile`. Its field `potentialFiles` is `None` until the attribute is
    first assigned. Its methods are `TryOpen`, `TryOpenReset` and `OpenFile`.

The code differs from a plain reading of what the command is meant to do in three ways. The
model follows the code.

- Normalisation runs before environment expansion (lines 93-94).
- `import `, `use ` and `;` are removed everywhere in the text, not only at its ends.
- `potential_files` outlives one invocation. The second finding below shows what that
  causes.

## Model

| member | source | states |
|---|---|---|
| Text.IsSpace | go_to_file.py:48 | the characters Python's `str.isspace` accepts from Python 3.4 on, which `strip` removes (a predicate; no contract) |
| Text.StripLeft | go_to_file.py:48 | the result is a suffix of the input; everything removed is whitespace; the result does not start with whitespace |
| Text.StripRight | go_to_file.py:52 | the result is a prefix of the input; everything removed is whitespace; the result does not end with whitespace |
| Text.Strip | go_to_file.py:48 | the result neither starts nor ends with whitespace |
| Text.StripIsSlice | go_to_file.py:52 | `strip` keeps one contiguous slice of its argument, and only whitespace lies outside that slice |
| Text.StripIdempotent | go_to_file.py:48 | stripping twice gives the same as stripping once |
| Text.ReplaceAll | go_to_file.py:93 | every character of the result comes from the input or from the replacement |
| Text.ReplaceRemovesChar | go_to_file.py:93 | replacing a character by text without it leaves no occurrence of it |
| Text.ReplaceAbsent | go_to_file.py:93 | text with no occurrence of the target is returned unchanged |
| Text.ReplaceMissingHead | go_to_file.py:93 | text that lacks the target's first character is returned unchanged |
| Quotes.RFind | go_to_file.py:65 | the result is -1 or an index below the bound holding the character; no later index below the bound holds it |
| Quotes.Find | go_to_file.py:66 | the result is -1 or an index at or after the start holding the character; no earlier index from the start holds it |
| Quotes.BracketsFound | go_to_file.py:65-66 | `rfind`/`find` return a bracketing pair of quotes when both succeed, and a bracketing pair, if any, is unique and equal to theirs |
| Quotes.ExpandWithinQuotes | go_to_file.py:64-67 | `expand_within_quotes` as written, with the `> 0` tests (no contract of its own; `ExpandWithinQuotesSpan` states it) |
| Quotes.ExpandWithinQuotesFixed | go_to_file.py:64-67 | the same with `open_quote >= 0` (no contract of its own; `ExpandWithinQuotesFixedSpan` states it) |
| Quotes.ExpandWithinQuotesSpan | go_to_file.py:64-67 | as written: when the opening quote is past column 0, the result is the text between the bracketing quotes; a non-empty result always lies between such a pair; the result holds no quote |
| Quotes.ExpandWithinQuotesFixedSpan | go_to_file.py:64-67 | with `open_quote >= 0`: the result is exactly the text between any bracketing pair; a non-empty result lies between one; it holds no quote |
| Quotes.QuoteAtLineStartMissed | go_to_file.py:67 | `"a"` with the column at 1 has a bracketing pair at 0 and 2; the code as written returns `''`; the corrected test returns `a` |
| Quotes.QuotedSelection | go_to_file.py:55-61 | `get_quoted_selection` as written: the double-quote expansion, or the single-quote one when that is empty (no contract of its own; `QuotedSelectionChoice` states it) |
| Quotes.QuotedSelectionChoice | go_to_file.py:55-61 | as written: a non-empty double-quoted span opened past column 0 is chosen; single quotes decide only when the double-quote result is empty; a non-empty result lies between bracketing quotes of one kind, opened past column 0 |
| Quotes.QuotedSelectionFixed | go_to_file.py:55-61 | `get_quoted_selection` over the corrected quote test (no contract of its own; `QuotedSelectionFixedChoice` states it) |
| Quotes.QuotedSelectionFixedChoice | go_to_file.py:55-61 | the same choice over the corrected quote test, for any bracketing pair |
| Quotes.LastSegment | go_to_file.py:9 | `split('/')[-1]`: the result has no `/`, is a suffix of the input, and is preceded by a `/` unless it is the whole input |
| Quotes.QuotedCandidate | go_to_file.py:9 | the quoted candidate, taken from `get_quoted_selection` as written, contains no path separator |
| Quotes.QuotedCandidateOfPair | go_to_file.py:9 | for a non-empty span between double quotes around the column whose opening quote is past column 0, the candidate is that span's last path segment |
| EnvVars.IsWordChar | go_to_file.py:88 | the character class `\w`, restricted to ASCII (a predicate; no contract) |
| EnvVars.LeadingRun | go_to_file.py:88 | a greedy `x*`: every character in the run qualifies, and the next one, if any, does not |
| EnvVars.LeadingRunOf | go_to_file.py:88 | a greedy run over `u + v` ends exactly at the end of `u` when all of `u` qualifies and `v` does not start with a qualifying character |
| EnvVars.MatchAt | go_to_file.py:88-89 | the match at a `$` is a prefix of the text, its name is made of word characters, and no quantifier could have taken the next character |
| EnvVars.MatchAtRefText | go_to_file.py:88-89 | inverse of matching: any well-formed reference followed by text that stops it is matched back to exactly that reference |
| EnvVars.HandleEnv | go_to_file.py:81-89 | `re.sub` of the pattern with `repl`: plain text is copied, each match becomes the mapped value or stays verbatim, scanning resumes after the match (no contract of its own; `SubstituteAtDollar`, `PlainStep`, `SubstituteReference` and `NoDollarUnchanged` state it) |
| EnvVars.SubstituteAtDollar | go_to_file.py:82-89 | at a `$`, a reference becomes its value when the name is in the map, or stays verbatim; scanning resumes right after it |
| EnvVars.PlainStep | go_to_file.py:89 | a character that is not `$` is copied and scanning moves on by one |
| EnvVars.PlainPrefix | go_to_file.py:89 | text before the first `$` is copied unchanged |
| EnvVars.SubstituteReference | go_to_file.py:81-89 | plain text, then a reference, then the rest: the plain text is kept, the reference becomes its value or stays verbatim, and the rest is processed on its own |
| EnvVars.NoDollarUnchanged | go_to_file.py:89 | text without `$` is returned unchanged |
| EnvVars.ParenthesisedKnownName | go_to_file.py:84-85 | `$(name)` with a known name, followed by plain text, becomes the name's value followed by that text (`$(HOME)/foo` with `HOME=/users/x` gives `/users/x/foo`) |
| EnvVars.UnknownNameKept | go_to_file.py:86-87 | `$NOPE` with `NOPE` not in the map stays `$NOPE` |
| Resolution.Normalize | go_to_file.py:93 | with `/` as `os.sep`: after the replacement chain the text holds no backslash and no `;`, and does not start or end with whitespace |
| Resolution.Expanded | go_to_file.py:93-94 | the normalised text with environment references expanded, in that order (no contract of its own; `Normalize` and the `EnvVars` lemmas state it) |
| Resolution.EntryPaths | go_to_file.py:102-104 | one path `dirname/file` for each file of an entry, in order |
| Resolution.Paths | go_to_file.py:101-104 | every walked path, entry by entry, in walk order (no contract of its own; `PathsStep` and `PathsPrefix` state it) |
| Resolution.Matching | go_to_file.py:103-106 | the walked paths the pattern is found in, in order (no contract of its own; `MatchingMembers`, `MatchingInOrder` and `MatchingSingle` state it) |
| Resolution.MatchingInOrder | go_to_file.py:101-106 | the matches of two runs of paths are the matches of the first followed by those of the second, so results keep walk order, duplicates included |
| Resolution.MatchingSingle | go_to_file.py:105-106 | one path is a result exactly when the pattern is found in it |
| Resolution.MatchingMembers | go_to_file.py:103-106 | a path is a result exactly when it was walked and the pattern is found in it; there are never more results than paths |
| Resolution.Resolve | go_to_file.py:96-106 | the branch on a leading `/` for non-empty text (no contract of its own; `ResolveCases` states it) |
| Resolution.ResolveCases | go_to_file.py:96-106 | an absolute text gives at most one result, itself, present exactly when it exists; otherwise the results are exactly the walked paths that match; the only error is an invalid pattern met when some path is walked |
| Resolution.GetFilenameSpec | go_to_file.py:94-96 | `get_filename` raises `IndexError` exactly when the expanded text is empty |
| Resolution.GetFilename | go_to_file.py:91-108 | the method returns what the specification function `GetFilenameSpec` gives |
| Resolution.EmptiedCandidateRaises | go_to_file.py:93-96 | `;`, `import ` and `use ` normalise to nothing, so `get_filename` raises `IndexError` on each although none is empty |
| Resolution.GetFilenameGuarded | go_to_file.py:91-108 | corrected `get_filename`, testing emptiness after normalisation: an emptied text finds nothing; otherwise the result is that of `get_filename`; the only error left is the pattern error |
| Resolution.EmptiedCandidateMisses | go_to_file.py:93-96 | with that test, `;`, `import ` and `use ` are misses instead of errors |
| Resolution.SearchWalk | go_to_file.py:100-106 | the nested loops produce exactly the matches `Resolve` specifies, in walk order, or the pattern error |
| Resolution.SearchEntry | go_to_file.py:103-106 | the loop over one entry's files raises exactly when the entry has files and the pattern is invalid; otherwise it extends the matches in order |
| Resolution.MatchingStep | go_to_file.py:105-106 | one more file adds its path to the results exactly when the pattern is found in it |
| Resolution.PathsStep | go_to_file.py:101-102 | the paths up to one walk entry are those before it followed by its own |
| Resolution.PathsPrefix | go_to_file.py:100-104 | a file in some walk entry means at least one path is walked |
| GoToFileCommand.Candidates | go_to_file.py:9-19 | five candidates in the order of line 19: the stripped selection, the line pattern, the quoted candidate `QuotedCandidate` of the line and column (line 67 as written, no separator), the word exactly for a caret on a non-empty word, and the stripped line |
| GoToFileCommand.EmptyLineCandidates | go_to_file.py:9-19 | with nothing selected, an empty line and an empty line pattern, every candidate is empty or absent |
| GoToFileCommand.Decide | go_to_file.py:31-37 | more than one file gives a menu of exactly those files; exactly one opens it; none reports "No file found" |
| GoToFileCommand.Resolver | go_to_file.py:27 | `self.get_filename` as the loop calls it, namely `GetFilenameSpec` over the host (no contract of its own) |
| GoToFileCommand.Scan | go_to_file.py:23-29 | the loop: skip absent or empty candidates, stop at the first non-empty result or exception, keep the last result (no contract of its own; `ScanIgnoresSkipped`, `FirstHitWins`, `AllMissNoFile`, `AllSkippedKeepsOld` and `ScanKeepsAssigned` state it) |
| GoToFileCommand.Report | go_to_file.py:31-37 | the outcome for where the scan ended: an exception, `AttributeError` when nothing was ever assigned, or `Decide` (no contract of its own; `Decide` and `MenuListsStoredFiles` state it) |
| GoToFileCommand.ErrorAborts | go_to_file.py:23-29 | after any run of candidates that are skipped or find nothing, an exception from `get_filename` on the next candidate ends the command with that exception, whatever follows and whatever was stored |
| GoToFileCommand.EmptiedCandidateAborts | go_to_file.py:23-29 | the candidate `;` is not skipped, and its `IndexError` ends the command whatever follows it |
| GoToFileCommand.ScanIgnoresSkipped | go_to_file.py:23-25 | absent or empty candidates make no difference to the scan |
| GoToFileCommand.FirstHitWins | go_to_file.py:23-29 | the first candidate that finds files decides the scan; later candidates are never resolved |
| GoToFileCommand.AllMissNoFile | go_to_file.py:27-37 | when every candidate misses and at least one is resolved, the outcome is "No file found" |
| GoToFileCommand.AllSkippedKeepsOld | go_to_file.py:22-37 | when every candidate is skipped, `potential_files` keeps its old value; if it was never assigned, `AttributeError` is raised |
| GoToFileCommand.StaleFilesReopened | go_to_file.py:22-37 | a caret on an empty line reopens the file an earlier call found, or raises `AttributeError` on first use |
| GoToFileCommand.ScanKeepsAssigned | go_to_file.py:27 | once `potential_files` is assigned it stays assigned |
| GoToFileCommand.MenuListsStoredFiles | go_to_file.py:31-32 | a menu is shown only for a completed scan, and it lists exactly the stored files, more than one of them |
| GoToFileCommand.PyIndex | go_to_file.py:42 | Python list indexing: non-negative and negative indices in range, `IndexError` otherwise |
| GoToFileCommand.GoToFile.constructor | go_to_file.py:5 | a new command has no `potential_files` attribute |
| GoToFileCommand.GoToFile.TryOpen | go_to_file.py:22-37 | the loop leaves `potentialFiles` and the outcome exactly as `Scan` and `Report` specify, from the value held before the call |
| GoToFileCommand.GoToFile.TryOpenReset | go_to_file.py:22-37 | corrected `try_open`: scans from an empty list, so `potentialFiles` is always assigned afterwards |
| GoToFileCommand.GoToFile.OpenFile | go_to_file.py:40-44 | -1 opens nothing; any other index opens the stored path Python indexing selects, or raises; nothing changes |
| GoToFileCommand.OpenFromMenu | go_to_file.py:31-44 | `try_open` as written followed by the callback: the outcome and the new `potential_files` are those of the scan from the files held before, and after a menu picking entry `i` opens the `i`-th listed path while cancelling opens nothing |

## Left out

- The editor API (`view.sel`, `substr`, `line`, `word`, `rowcol`, `window().folders`, `show_quick_panel`, `open_file`, `error_message`): its results are inputs, a `RegionView` per region. The menu and open calls become the `Outcome` value.
- `run`'s loop over the regions (line 7): the model gives the candidate list of one region (`Candidates`) and one `try_open` call. With several regions, a later region's `try_open` can overwrite `potential_files` while an earlier region's menu is still open, so that menu's callback (line 42) would index the later list. `OpenFromMenu` does not capture this: it runs the callback straight after the same `try_open`.
- `extract_candidate_from_line` (lines 117-124): it reads the active view and builds a regex from buffer text, so its result is the input `lineCandidate`. The `re.error` that line 122 raises when the word holds a regex metacharacter such as `(` or `[` is not modelled.
- `envdct` (lines 69-79): it spawns a shell and parses its output. The resulting map is the `env` field of `Host`, which also lets the map have an empty name as key, as the parser allows. The failures of the shell call at line 73 (`subprocess.CalledProcessError`, `OSError`), which `repl` reaches whenever the text holds a `$`, are not modelled, so `HandleEnv` never fails.
- `os.sep` is taken to be `/`. With `\` as the separator, line 93 would keep every backslash (`Resolution.Normalize` would then not promise their absence), and lines 9 and 104 would split and join on `\`.
- `os.walk`, `walk` and `os.path.exists` (lines 97, 111-114): the walk is a given sequence of entries across all workspace folders, and existence is a predicate of `Host`.
- `re.search` (line 105): an uninterpreted predicate of `Host`. A pattern that does not compile raises at the first file searched, which is modelled by the `compiles` predicate.
- `FileInfo` (lines 126-133): clipboard and status-bar wrapping with no logic.
- The `print` diagnostics (lines 34, 43, 95, 107).
- Text.IsSpace: follows Python 3.4 and later. Under Python 3.3 (Unicode 6.1), which Sublime Text 3's plugin host runs, `'\u180e'.isspace()` is also true; that character is not in the set.
- EnvVars.IsWordChar: `\w` is the ASCII word class; the Unicode letters and digits Python's `\w` also accepts are not modelled.
- GoToFileCommand.Scan: takes `get_filename` as a function parameter. `TryOpen` ties it to the real resolver through `Resolver(host)`, so the scan lemmas hold for any resolver.

## Findings

| source | as written | input that shows it | evidently intended | confidence | as-written member | corrected member |
|---|---|---|---|---|---|---|
| go_to_file.py:67 | `open_quote > 0` rejects an opening quote in column 0 | line `"a"` with the caret at column 1: the quotes at 0 and 2 bracket `a`, but `''` is returned | `open_quote >= 0`, so that any bracketing pair counts | not executed | Quotes.QuoteAtLineStartMissed | Quotes.ExpandWithinQuotesFixedSpan |
| go_to_file.py:24 | line 24 tests the length before line 93 normalises the text, and line 96 indexes `text[0]` | the candidate `;` (or `import `, `use `) passes line 24, normalises to `''`, and `text[0]` raises `IndexError`, which aborts the command instead of trying the next candidate | test emptiness after normalising, so the candidate is a miss | not executed | Resolution.EmptiedCandidateRaises | Resolution.GetFilenameGuarded |
| go_to_file.py:22-37 | `potential_files` is never cleared before the loop, and the loop may assign nothing | a caret on an empty line after an earlier hit reopens the earlier file; on a fresh command it raises `AttributeError` | clear the list before the loop, so "No file found" is reported | not executed | GoToFileCommand.StaleFilesReopened | GoToFileCommand.GoToFile.TryOpenReset |

The command as modelled (`QuotedSelection`, `Candidates`, `OpenFromMenu`) follows the
code as written. The corrected halves stand beside it: `ExpandWithinQuotesFixed` and
`QuotedSelectionFixed` with their lemmas, `GetFilenameGuarded` with
`EmptiedCandidateMisses`, and `GoToFile.TryOpenReset`.
