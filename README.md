# no-lorem, modelled in Dafny

no-lorem is a command-line checker. It looks for placeholder text ("lorem
ipsum") and other words or constant names that should not ship, in Ruby
sources and in templates. A configuration has a `deny` list and a `warn`
list, and each list has `words` and `constants`. Every finding is an
*issue*: a description, a file and a line. Any denied word or constant
makes the run fail. Warnings are reported but never fail the run.

The repository holds two implementations:

- the current one in `lib/no_lorem/`;
- an older one in `lib/no-lorem/`.

Both are modelled. They differ in how words are matched, how the
configuration is validated and what the exit status is.

- `Wrappers`: the `Option` and `Result` types.
- `Text`: the string functions the source relies on:
  - `String#downcase` (ASCII);
  - `String#lines`;
  - `split(/\s+/)`;
  - the decimal rendering of a line number.
- `Config`: a YAML configuration as a value tree (`Value`, with ordered
  hash `Entries`) and `deep_merge_hashes`. The two copies of
  `deep_merge_hashes`, one per implementation, are the same code and share
  one model.
- `Issues`: the finding record and its `file:line` location. The older
  implementation's `Issue` class is the same record and uses this model.
- `Watchlist`: the current word and constant watchlists and their
  validating container. A word pattern is matched the way the source's
  regular expression `(\W|\A)(word)(\W|\z)` is:
  - start positions are tried in the engine's order (`Rank`, `Tried`);
  - case folding is optional;
  - one trailing boundary character is consumed.
  A `/re/` pattern goes to a regular-expression oracle, `RegexFinder`,
  which is an input.
- `Ast`: the part of a parsed Ruby tree that the code patrol walks:
  - string literals with their line;
  - constant references, scoped or not;
  - other nodes, with their children in order.
  `ConstChain` gives the prefixes of `A::B::C` that get checked.
- `Patrols`: the current `Patrol`, `LinePatrol` and `CodePatrol` classes.
  Their methods update the issue and warning lists in place. Each method
  is proved equal to a specification (`Findings`, `AllFindings`) over the
  probes a source yields.
- `LegacyPatrols`: the older patrols:
  - words are tested token by token, with `word_matches_expression?`;
  - a regular-expression oracle, `RegexTester`, is an input;
  - the configuration is validated by `validate_watchlists`;
  - "first" mode stops a whole string at its first finding.
- `Runner`: the current runner, from configuration to file list, file
  processing and exit status. Any error ends the run with status 2.
- `LegacyRunner`: the older runner:
  - no paths ends the run with status 1;
  - a rescued error ends it with status 0;
  - there is no "no files found" check;
  - the exclusion list is read whenever it is truthy.

Inputs stand in for the file system, YAML loading, the Ruby parser and the
regular-expression engine:

- the configuration file's contents (`Option<Value>`);
- the command-line options as a hash;
- a `Reader` from path to `Source` (the text and, for Ruby files, the
  parsed tree);
- the regex oracle.

`Runner.Go` and `LegacyRunner.Go` return the exit status as a value.

## Model

| member | source | states |
|---|---|---|
| Text.Downcase | lib/no_lorem/watchlist.rb:57 | keeps the length; each character is lowered (ASCII) |
| Text.DowncaseFixedPoint | lib/no_lorem/watchlist.rb:57 | `downcase(e) == e` holds exactly when `e` has no upper-case letter |
| Text.LinesRoundTrip | lib/no_lorem/patrol.rb:91 | joining `String#lines` gives the text back |
| Text.LinesShape | lib/no_lorem/patrol.rb:91 | every line is non-empty; a line feed comes only at the end of a line, and every line but the last ends in one |
| Text.TokensShape | lib/no-lorem/patrol.rb:101 | the `split(/\s+/)` tokens hold no whitespace; all but the first are non-empty; together they are the text without its whitespace |
| Text.TwoTokens | lib/no-lorem/patrol.rb:101 | two space-free words joined by a space split into exactly those two words |
| Text.NatToStringRoundTrip | lib/no_lorem/issue.rb:17 | the decimal rendering of a line number is all digits and parses back to that number |
| Issues.LastIndexOf | lib/no_lorem/issue.rb:16-18 | finds the last occurrence of a character, or reports that there is none |
| Issues.LocationRoundTrip | lib/no_lorem/issue.rb:16-18 | `file:line` can be split at its last colon back into the file and the line |
| Issues.ToStringShape | lib/no_lorem/issue.rb:12-14 | the printed issue is its location, one space, then the description |
| Config.Get | lib/no_lorem/runner.rb:12 | a lookup gives the value under the first occurrence of the key, or nil when the key is absent |
| Config.Remove | lib/no_lorem/runner.rb:122 | after `delete` the key is absent; every other key keeps its presence and its value |
| Config.DeepMergeHashes | lib/no_lorem/runner.rb:9-28 | the merge loop computes `Merge`: the original keys in order, then the extra-only keys |
| Config.ExtraOnlyKeys | lib/no_lorem/runner.rb:24-26 | the appended keys are exactly those only in the extra hash, with the extra hash's values |
| Config.MergeKeys | lib/no_lorem/runner.rb:9-28 | the merged keys are the original keys in order, then the extra-only keys; a key is present exactly when it is in either hash |
| Config.MergeValues | lib/no_lorem/runner.rb:12-22 | a shared key gets the merged value: hashes merged deeply, arrays concatenated, otherwise the extra value; a key in only one hash keeps that hash's value |
| Config.MergeFails | lib/no_lorem/runner.rb:13-16 | the merge fails exactly when some shared key cannot be merged (a hash or an array against a value of another shape) |
| Config.MergeNothing | lib/no_lorem/runner.rb:9-28 | merging with an empty hash changes nothing |
| Watchlist.RegexSource | lib/no_lorem/watchlist.rb:49-54 | a pattern written `/re/` yields `re`, which lies between the slashes and has no line feed |
| Watchlist.Classify | lib/no_lorem/watchlist.rb:49-59 | a pattern is a regex exactly when it is `/re/`; otherwise it is a case-insensitive word exactly when it is already lower case, else a case-sensitive word |
| Watchlist.FindWordFrom | lib/no_lorem/watchlist.rb:37-44 | the position is word-bounded and no earlier-tried position is; none means no position is |
| Watchlist.FindWord | lib/no_lorem/watchlist.rb:37-44 | the same, searching from the start of the text |
| Watchlist.WordMatch | lib/no_lorem/watchlist.rb:37-44 | a word match is a non-empty span inside the text; the rest of the text starts after it |
| Watchlist.MatchPattern | lib/no_lorem/watchlist.rb:31-46 | a regex pattern matches exactly when the oracle finds a span, and the match is that span |
| Watchlist.Winner | lib/no_lorem/watchlist.rb:31-46 | over the round's matches, one per pattern in list order: the winner matched and every pattern before it did not; when there is no winner, no pattern matched |
| Watchlist.WordWatchlist.MatchOnce | lib/no_lorem/watchlist.rb:30-47 | one match round gives the first pattern's match, or none |
| Watchlist.WordWatchlist.Scan | lib/no_lorem/watchlist.rb:19-26 | the loop collects the hits of successive rounds, each on the rest of the text after the previous hit |
| Watchlist.ConstantWatchlist.Scan | lib/no_lorem/watchlist.rb:67-72 | the result is `[name]` when the name is listed, and empty otherwise |
| Watchlist.UnknownKinds | lib/no_lorem/watchlist.rb:80-83 | lists exactly the keys that are not `words` or `constants` |
| Watchlist.StringList | lib/no_lorem/watchlist.rb:6 | a falsy value is the empty list; a truthy one is accepted exactly when it is an array of strings, and then yields those strings in order |
| Watchlist.ConstantList | lib/no_lorem/watchlist.rb:68 | a falsy value is the empty list; an array yields exactly the strings it holds, the only items that can equal a name |
| Watchlist.NewWatchlistSet | lib/no_lorem/watchlist.rb:78-92 | a falsy value gives empty lists; a non-hash is rejected; unknown keys are rejected exactly when present; an accepted hash yields the `words` and `constants` lists it holds (empty when absent); a hash of known kinds holding string arrays with no empty word is accepted |
| Watchlist.ConfiguredLists | lib/no_lorem/watchlist.rb:86-92 | `{words: [lorem], constants: [Faker]}` gives exactly the word list `[lorem]` and the constant list `[Faker]` |
| Watchlist.WordMatchHit | lib/no_lorem/watchlist.rb:37-44 | the word search finds nothing exactly when no position is word-bounded; otherwise its hit is at the earliest bounded position in the engine's order, spans the word, consumes the boundary character after it and reads as the word (case-folded for a lower-case word) |
| Watchlist.WordHit | lib/no_lorem/watchlist.rb:37-44 | a word pattern matches at the first bounded position (case-folded when lower case); the hit is the word as written in the text |
| Watchlist.ScanPositions | lib/no_lorem/watchlist.rb:19-25 | there is one span per hit, inside the text, and every hit is the text at its span |
| Watchlist.ScanInOrder | lib/no_lorem/watchlist.rb:19-25 | the hit spans lie inside the text, in order, without overlap |
| Watchlist.FirstPatternWins | lib/no_lorem/watchlist.rb:31-46 | when pattern i is the first to match, the scan starts with pattern i's hit |
| Watchlist.NoExpressions | lib/no_lorem/watchlist.rb:5-7 | an empty watchlist finds nothing |
| Watchlist.EmptyTextHasNoHits | lib/no_lorem/watchlist.rb:19-26 | nothing is found in the empty text |
| Watchlist.OrderExample | lib/no_lorem/watchlist.rb:31-45 | with patterns `ipsum`, `lorem`, the text `lorem ipsum` yields only `ipsum`: the rest after it is empty |
| Watchlist.CaseExample | lib/no_lorem/watchlist.rb:37-40 | `lorem` finds `Lorem` in `Lorem ipsum`, as written |
| Ast.ConstChain | lib/no_lorem/patrol.rb:130-141 | a constant yields probes for its name prefixes, ending with the full name at its line; a non-constant yields `?` and none |
| Ast.ChainNode | lib/no_lorem/patrol.rb:130-137 | builds a scoped constant `A::B::C` |
| Ast.ChainChecksEveryPrefix | lib/no_lorem/patrol.rb:130-137 | `A::B::C` is named in full, and `A`, `A::B`, `A::B::C` are checked in that order |
| Ast.UnknownScope | lib/no_lorem/patrol.rb:138-140 | a constant under a non-constant scope is checked as `?::Name` |
| Ast.ChildrenInOrder | lib/no_lorem/patrol.rb:123-126 | children are visited in order: a node's probes are its children's probes concatenated |
| Patrols.Setup | lib/no_lorem/patrol.rb:19-24 | succeeds exactly when both the deny and the warn watchlist sets are valid, and holds those sets |
| Patrols.ExpressionFindings | lib/no_lorem/patrol.rb:71-80 | under `all`, one finding per hit; otherwise only the first hit; each finding names the hit |
| Patrols.ConstantFindings | lib/no_lorem/patrol.rb:61-69 | one finding exactly when the constant is listed |
| Patrols.LineProbes | lib/no_lorem/patrol.rb:88-96 | one probe per line, numbered from 1 |
| Patrols.Patrol.constructor | lib/no_lorem/patrol.rb:19-24 | installs the validated watchlists and the `all` flag; no issues, no warnings |
| Patrols.Patrol.Reset | lib/no_lorem/patrol.rb:26-29 | clears issues and warnings |
| Patrols.Patrol.AddIssue | lib/no_lorem/patrol.rb:35-37 | appends one issue at the current file and nothing else changes |
| Patrols.Patrol.AddWarning | lib/no_lorem/patrol.rb:43-45 | appends one warning at the current file and nothing else changes |
| Patrols.Patrol.Examine | lib/no_lorem/patrol.rb:55-59 | sets the context and reports whether there are issues |
| Patrols.Patrol.ExamineConstant | lib/no_lorem/patrol.rb:61-69 | appends the deny and the warn findings for a constant name |
| Patrols.Patrol.ExamineString | lib/no_lorem/patrol.rb:71-80 | appends the deny and the warn findings of the word scan of a string |
| Patrols.LinePatrol.constructor | lib/no_lorem/patrol.rb:84-86 | a fresh patrol with validated watchlists and no findings |
| Patrols.LinePatrol.Examine | lib/no_lorem/patrol.rb:88-96 | the line-by-line loop appends the findings of every line, with its number; the result says whether there are issues |
| Patrols.CodePatrol.constructor | lib/no_lorem/patrol.rb:100-103 | a fresh patrol with validated watchlists and no findings |
| Patrols.CodePatrol.Examine | lib/no_lorem/patrol.rb:105-113 | appends the findings of every probe in the tree; an unparsed file adds none |
| Patrols.CodePatrol.TraverseAst | lib/no_lorem/patrol.rb:117-128 | the recursive walk appends exactly the tree's findings, children in order |
| Patrols.CodePatrol.TraverseConst | lib/no_lorem/patrol.rb:130-141 | returns the constant's full name and appends the findings of each of its prefixes |
| LegacyPatrols.WordMatchesExpression | lib/no-lorem/patrol.rb:116-123 | a `/re/`: regex test or equality; a lower-case expression: downcased equality or equality; otherwise equality |
| LegacyPatrols.AnyMatches | lib/no-lorem/patrol.rb:79-86 | true exactly when some expression matches the word |
| LegacyPatrols.CheckEntries | lib/no-lorem/patrol.rb:129-138 | no error exactly when every key is a known kind holding a list of strings |
| LegacyPatrols.ItemStrings | lib/no-lorem/patrol.rb:83 | an array of strings yields its strings in order |
| LegacyPatrols.ListsOf | lib/no-lorem/patrol.rb:82-83 | each kind's list holds the configured strings in order; an absent kind holds none |
| LegacyPatrols.LegacySetup | lib/no-lorem/patrol.rb:125-139 | succeeds exactly when each list is absent or a hash of known kinds holding arrays of strings, and at least one of them is non-empty; the missing-watchlist error exactly when both are absent or empty hashes; on success the deny and warn lists are those of the `deny` and `warn` hashes, an absent one counting as empty |
| LegacyPatrols.LegacyConfiguredLists | lib/no-lorem/patrol.rb:36-40 | a configuration with only `deny: {words: [lorem]}` sets up deny words `[lorem]` and empty warn lists |
| LegacyPatrols.NameFindings | lib/no-lorem/patrol.rb:88-96 | a constant gives one issue exactly when a deny expression matches it, and one warning exactly when a warn expression does |
| LegacyPatrols.FirstStopsTheString | lib/no-lorem/patrol.rb:98-112 | in "first" mode a string gives at most one finding in all |
| LegacyPatrols.Matching | lib/no-lorem/patrol.rb:101-106 | a token is kept exactly when it is one of the string's tokens and some expression matches it |
| LegacyPatrols.MatchingAppend | lib/no-lorem/patrol.rb:101-106 | keeps token order: the matches of two runs of tokens are those of the first, then those of the second |
| LegacyPatrols.MatchingOne | lib/no-lorem/patrol.rb:102-106 | a single token is kept exactly when some expression matches it |
| LegacyPatrols.Messages | lib/no-lorem/patrol.rb:104 | one issue per hit, the k-th reading `Found expression '<hit k>'` at the given file and line |
| LegacyPatrols.AllReportsEveryToken | lib/no-lorem/patrol.rb:98-112 | in "all" mode every matching token is reported, in order, on each side |
| LegacyPatrols.PunctuationExample | lib/no-lorem/patrol.rb:101-103 | `lorem,` is not `lorem`: punctuation stays on the token, so nothing is found |
| LegacyPatrols.FirstExample | lib/no-lorem/patrol.rb:102-106 | `Lorem lorem` against `lorem` in "first" mode gives one issue, for `Lorem` |
| LegacyPatrols.Patrol.constructor | lib/no-lorem/patrol.rb:36-42 | installs the validated lists and the `all` flag; no findings |
| LegacyPatrols.Patrol.Reset | lib/no-lorem/patrol.rb:44-47 | clears issues and warnings |
| LegacyPatrols.Patrol.AddIssue | lib/no-lorem/patrol.rb:53-55 | appends one issue and nothing else changes |
| LegacyPatrols.Patrol.AddWarning | lib/no-lorem/patrol.rb:61-63 | appends one warning and nothing else changes |
| LegacyPatrols.Patrol.Examine | lib/no-lorem/patrol.rb:73-77 | sets the context and reports whether there are issues |
| LegacyPatrols.Patrol.WatchlistMatch | lib/no-lorem/patrol.rb:79-86 | the loop answers true exactly when some expression matches the word |
| LegacyPatrols.Patrol.ExamineConstant | lib/no-lorem/patrol.rb:88-96 | appends the constant's deny and warn findings |
| LegacyPatrols.Patrol.ExamineString | lib/no-lorem/patrol.rb:98-112 | the token loop appends the string's findings, stopping at the first finding in "first" mode |
| LegacyPatrols.Patrol.ExamineToken | lib/no-lorem/patrol.rb:102-110 | tests deny before warn; appends what one token gives and says whether the string stops |
| LegacyPatrols.LinePatrol.constructor | lib/no-lorem/patrol.rb:143-145 | a fresh patrol with validated lists and no findings |
| LegacyPatrols.LinePatrol.Examine | lib/no-lorem/patrol.rb:147-155 | appends the findings of every line, with its number |
| LegacyPatrols.CodePatrol.constructor | lib/no-lorem/patrol.rb:159-162 | a fresh patrol with validated lists and no findings |
| LegacyPatrols.CodePatrol.Examine | lib/no-lorem/patrol.rb:164-172 | appends the findings of every probe in the tree |
| LegacyPatrols.CodePatrol.TraverseAst | lib/no-lorem/patrol.rb:176-187 | the walk appends exactly the tree's findings, children in order |
| LegacyPatrols.CodePatrol.TraverseConst | lib/no-lorem/patrol.rb:189-200 | returns the full constant name and appends the findings of each prefix |
| Runner.ProcessConfiguration | lib/no_lorem/runner.rb:118-127 | no file: the options as given; a file that is not a hash: an error; otherwise the value is the merge of the file with the options minus `config`, and holds the keys of both |
| Runner.CommandLineWins | lib/no_lorem/runner.rb:122-123 | a plain option overrides the file's value; array options are appended to the file's; a hash option is merged deeply into the file's hash; a setting the options leave alone stays the file's |
| Runner.ExpandAll | lib/no_lorem/runner.rb:196-208 | keeps exactly the `.rb`, `.erb` and `.slim` paths |
| Runner.ExpandTwice | lib/no_lorem/runner.rb:226-228 | expanding an already expanded list changes nothing (the `-x` paths are expanded once more) |
| Runner.Subtract | lib/no_lorem/runner.rb:228 | the files left are exactly those not excluded |
| Runner.Exclusions | lib/no_lorem/runner.rb:226-227 | nil excludes nothing; a list is accepted exactly when all its items are strings, and then excludes exactly the expandable paths it lists; an empty hash excludes nothing, any other value fails |
| Runner.ExcludedFileLeftOut | lib/no_lorem/runner.rb:226-228 | a file listed under `exclude` is never in the file list |
| Runner.GenerateFileList | lib/no_lorem/runner.rb:210-229 | no paths and no matching files are errors; otherwise a file is listed exactly when it was given, is expandable and is not excluded |
| Runner.FirstUnreadable | lib/no_lorem/runner.rb:134-140 | the first file the reader cannot read, after only readable ones |
| Runner.RoutedOnce | lib/no_lorem/runner.rb:134-140 | a `.rb` file goes to the code patrol, any other file to the line patrol |
| Runner.ProcessResult | lib/no_lorem/runner.rb:129-158 | an invalid watchlist or an unreadable file is an error; otherwise the issues are the deny findings of the code patrol followed by the line patrol's, and the warnings are the warn findings in the same order |
| Runner.RoutedEmpty | lib/no_lorem/runner.rb:137-143 | a patrol gathers nothing exactly when no file gives it a finding |
| Runner.BlockedExactly | lib/no_lorem/runner.rb:129-158 | examining the files ends with status 1 exactly when the watchlists set up, every file reads, and some file has a deny finding from the patrol its extension sends it to |
| Runner.ExitStatus | lib/no_lorem/runner.rb:151-158 | status 2 exactly on an error, 1 exactly when there are issues, 0 exactly otherwise |
| Runner.WarningsDoNotFail | lib/no_lorem/runner.rb:144-159 | warnings alone leave status 0 |
| Runner.ProcessFiles | lib/no_lorem/runner.rb:129-160 | the file loop with its two patrols computes `ProcessResult` |
| Runner.Go | lib/no_lorem/runner.rb:37-49 | the run's status is the status of `Run`; no paths gives 2 |
| LegacyRunner.MergedConfiguration | lib/no-lorem/runner.rb:9-28 | the merged configuration holds the keys of both hashes; shared hashes merge deeply, shared arrays are appended, any other shared value is taken from the options |
| LegacyRunner.Exclusions | lib/no-lorem/runner.rb:201-204 | a falsy value excludes nothing; a truthy one succeeds exactly when the current runner's reading does, and gives the same paths: for a list, exactly the expandable paths it lists |
| LegacyRunner.ExcludedFileLeftOut | lib/no-lorem/runner.rb:201-205 | a file listed under `exclude` is never in the file list |
| LegacyRunner.GenerateFileList | lib/no-lorem/runner.rb:190-206 | no paths is an error; accepted exactly when the exclusions are; a file is listed exactly when given, expandable and not excluded |
| LegacyRunner.ProcessResult | lib/no-lorem/runner.rb:117-140 | an invalid watchlist or an unreadable file is an error; otherwise the issues are the code patrol's issues followed by the line patrol's, and the warnings likewise |
| LegacyRunner.RoutedEmpty | lib/no-lorem/runner.rb:121-130 | one side of a patrol gathers nothing exactly when no file gives it a finding |
| LegacyRunner.BlockedExactly | lib/no-lorem/runner.rb:117-140 | examining the files ends with status 1 exactly when the watchlists set up, every file reads, and some file has an issue from the patrol its extension sends it to |
| LegacyRunner.ExitStatus | lib/no-lorem/runner.rb:131-138 | status 1 exactly when no paths were given or there are issues, 0 exactly otherwise |
| LegacyRunner.ProcessFiles | lib/no-lorem/runner.rb:117-140 | the file loop with its two patrols computes `ProcessResult` |
| LegacyRunner.RescuedErrorsExitZero | lib/no-lorem/runner.rb:44-48 | a rescued configuration error ends the run with status 0 |
| LegacyRunner.Go | lib/no-lorem/runner.rb:37-48 | the run's status is the status of `Run` |

## Left out

- Option parsing (OptionParser) is left out. The command-line options come in as a hash. The older implementation's `-C` quirk goes with it.
- Terminal colouring (Pastel) and all printing are left out: `puts`, `print`, progress marks, the issue listing and `print_denylists`. These are output only, with one exception.
- Runner.Go, LegacyRunner.Go: under `--verbose`, `print_denylists` runs before any file is examined, and it can raise. It raises when the deny hash lists `constants` but no `words`, since it then iterates over the missing `words`. It also raises when `words` holds a value that cannot be iterated. The raise is rescued, so the current runner exits with 2 and the legacy runner with 0. The model does not capture this crash: for those inputs the model's `Go` gives the status of examining the files instead.
- `exit` is not modelled as a process exit. The status each path would exit with is computed as a value.
- Finding the configuration file (`./.no-lorem.yaml`, `~/.no-lorem.yaml`) and loading YAML are left out. The loaded value is an input.
- Walking directories with `Dir.glob` is left out: every path is taken as a file. `Pathname#cleanpath` is left out too: paths are kept as written.
- Reading files (`File.read`) is left out. The `Reader` input gives each path's text and tree.
- `examine_files` is not modelled as its own member. Its work is done in the runner's loop, which calls `Examine` once per file with that file's source.
- The Ruby parser is not part of this model. The tree is part of the input, a parse failure is `None`, and children that are not nodes are dropped.
- The regular-expression engine is not modelled. `/re/` patterns go to an oracle.
- Unicode is not modelled: `\w`, case folding and `downcase` are ASCII.
- Metacharacters in a word pattern are taken literally.
- Watchlist.MatchPattern: a `/re/` pattern that the oracle does not match counts as no match. In the source, that pattern then goes on to the word checks as well.
- Watchlist.NewWatchlistSet: rejects at setup some inputs the source mishandles later:
  - an empty word pattern. The source's scan yields empty hits for it. It does not end on the empty text, or on a text whose last character is not a word character, such as a line that keeps its line feed. On other texts it stops after zero or more empty hits;
  - a non-list or non-string value;
  - a string-valued constants list, on which the source does a substring lookup.
- LegacyPatrols.LegacySetup: rejects list items that are not strings (`NotAString`). The source accepts them. It may fail later, when matching reaches such an item; an item never reached, or a run with no tokens, fails nowhere.
- Watchlist.Sound: the regex oracle must return non-empty spans inside the text. An empty match makes the source's scan loop forever.
- The initial context is the empty string, where the source has nil. The `"(string)"` default context and the default line 0 of the examine helpers are not modelled.
- The patrol constructors require a successful setup. The `raise` on a bad configuration is modelled by `Patrols.Setup` and `LegacyPatrols.LegacySetup`, which the runners check first.
