/**
 * The runner that drives the legacy patrols. Its configuration and file
 * list follow the current runner's, with three differences: running without
 * paths exits with 1, an empty file list is examined rather than refused,
 * and an error raised along the way is printed and then the process ends
 * normally, with status 0. Warnings are gathered but never reported.
 */
module LegacyRunner {
  import opened Wrappers
  import opened Text
  import opened Config
  import opened Issues
  import opened Ast
  import opened LegacyPatrols
  import Runner
  import Patrols

  /** Why a run stops early. */
  datatype Stop =
    | ConfigStop(cause: Runner.RunError)
    | NoPathsGiven
    | ExclusionStop
    | WatchlistStop(problem: LegacyError)
    | UnreadableFile(path: string)

  /** The merged configuration holds the keys of both inputs; a key of one
      input only keeps that input's value, and a key of both merges by the
      file's value: hashes recursively, arrays by concatenation, anything
      else is replaced. */
  lemma MergedConfiguration(file: Entries, options: Entries, k: string)
    requires Merge(file, options).Ok?
    ensures HasKey(Merge(file, options).value, k) <==> HasKey(file, k) || HasKey(options, k)
    ensures HasKey(file, k) && HasKey(options, k) && Get(file, k).Hash? ==>
      Get(options, k).Hash? && Get(Merge(file, options).value, k).Hash? &&
      Merge(Get(file, k).entries, Get(options, k).entries) == Ok(Get(Merge(file, options).value, k).entries)
    ensures HasKey(file, k) && HasKey(options, k) && Get(file, k).List? ==>
      Get(options, k).List? && Get(Merge(file, options).value, k) == List(Get(file, k).items + Get(options, k).items)
    ensures HasKey(file, k) && HasKey(options, k) && !Get(file, k).Hash? && !Get(file, k).List? ==>
      Get(Merge(file, options).value, k) == Get(options, k)
    ensures HasKey(file, k) != HasKey(options, k) ==>
      Get(Merge(file, options).value, k) == if HasKey(file, k) then Get(file, k) else Get(options, k)
  {
    MergeKeys(file, options);
    MergeValues(file, options, k);
    if HasKey(file, k) && HasKey(options, k) && Get(file, k).Hash? {
      var m := Merge(Get(file, k).entries, Get(options, k).entries);
      assert m.Ok?;
    }
  }

  /** `if @config["exclude"]`: a false or missing setting excludes nothing;
      otherwise as in the current runner. */
  function Exclusions(v: Value): (r: Result<seq<string>, Stop>)
    ensures !Truthy(v) ==> r == Ok([])
    ensures Truthy(v) ==> (r.Ok? <==> Runner.Exclusions(v).Ok?)
    ensures r.Ok? ==> forall x :: x in r.value ==> Runner.Expandable(x)
    ensures Truthy(v) && v.List? && r.Ok? ==> forall x :: x in r.value <==> Runner.Expandable(x) && Str(x) in v.items
    ensures Truthy(v) && r.Ok? ==> r.value == Runner.Exclusions(v).value
  {
    if !Truthy(v) then Ok([])
    else match Runner.Exclusions(v)
      case Ok(xs) => Ok(xs)
      case Err(_) => Err(ExclusionStop)
  }

  /** `generate_file_list`: without paths the run stops; an empty expansion
      goes on. */
  function GenerateFileList(argv: seq<string>, config: Entries): (r: Result<seq<string>, Stop>)
    ensures argv == [] ==> r == Err(NoPathsGiven)
    ensures argv != [] ==> (r.Ok? <==> Exclusions(Get(config, "exclude")).Ok?)
    ensures r.Ok? ==> forall f :: f in r.value <==>
      f in argv && Runner.Expandable(f) && f !in Exclusions(Get(config, "exclude")).value
  {
    if argv == [] then Err(NoPathsGiven)
    else
      var excluded :- Exclusions(Get(config, "exclude"));
      Ok(Runner.Subtract(Runner.ExpandAll(argv), excluded))
  }

  /** A file listed under `exclude` is not examined, whatever the paths. */
  lemma ExcludedFileLeftOut(argv: seq<string>, config: Entries, f: string)
    requires GenerateFileList(argv, config).Ok?
    requires Get(config, "exclude").List? && Str(f) in Get(config, "exclude").items
    ensures f !in GenerateFileList(argv, config).value
  {
    if Runner.Expandable(f) {
      assert f in Exclusions(Get(config, "exclude")).value;
    }
  }

  /** The rules both legacy patrols apply. */
  function LegacyRules(config: Entries, test: RegexTester): Rules
    requires LegacySetup(config).Ok?
  {
    Rules(LegacySetup(config).value.0, LegacySetup(config).value.1, Truthy(Get(config, "all")), test)
  }

  /** One side (`issues` or warnings) of what a file gives the code patrol
      (`ruby`) or the line patrol. */
  function FileFindings(r: Rules, path: string, src: Runner.Source, ruby: bool, issues: bool): seq<Issue> {
    if Runner.IsRubyFile(path) != ruby then []
    else if ruby then AllFindings(r, Patrols.TreeProbes(src.tree), path, issues)
    else AllFindings(r, Patrols.LineProbes(src.content), path, issues)
  }

  function RoutedFindings(r: Rules, files: seq<string>, read: Runner.Reader, ruby: bool, issues: bool): seq<Issue>
    requires Runner.Readable(files, read)
  {
    Concat(seq(|files|, k requires 0 <= k < |files| => FileFindings(r, files[k], read(files[k]).value, ruby, issues)))
  }

  /** What one side of a patrol has gathered after one more file. */
  lemma {:induction false} RoutedStep(r: Rules, files: seq<string>, read: Runner.Reader, ruby: bool, issues: bool, i: nat,
                                      before: seq<Issue>, after: seq<Issue>)
    requires i < |files| && Runner.Readable(files[..i + 1], read) && Runner.Readable(files[..i], read)
    requires before == RoutedFindings(r, files[..i], read, ruby, issues)
    requires after == before + FileFindings(r, files[i], read(files[i]).value, ruby, issues)
    ensures after == RoutedFindings(r, files[..i + 1], read, ruby, issues)
  {
    assert forall k :: 0 <= k < i ==> files[..i][k] == files[..i + 1][k];
    var front := files[..i + 1];
    var all := seq(i + 1, k requires 0 <= k < i + 1 => FileFindings(r, front[k], read(front[k]).value, ruby, issues));
    assert all[..i] == seq(i, k requires 0 <= k < i => FileFindings(r, files[..i][k], read(files[..i][k]).value, ruby, issues));
  }

  /** `process_files` up to its verdict: the findings, code patrol first, or
      the error that ended the run. */
  function ProcessResult(config: Entries, files: seq<string>, read: Runner.Reader, test: RegexTester)
    : (r: Result<Runner.Outcome, Stop>)
    ensures LegacySetup(config).Err? ==> r == Err(WatchlistStop(LegacySetup(config).error))
    ensures LegacySetup(config).Ok? && !Runner.Readable(files, read) ==>
      r == Err(UnreadableFile(files[Runner.FirstUnreadable(files, read)]))
    ensures r.Ok? ==> LegacySetup(config).Ok? && Runner.Readable(files, read)
    ensures LegacySetup(config).Ok? && Runner.Readable(files, read) ==>
      r == Ok(Runner.Outcome(
        RoutedFindings(LegacyRules(config, test), files, read, true, true) + RoutedFindings(LegacyRules(config, test), files, read, false, true),
        RoutedFindings(LegacyRules(config, test), files, read, true, false) + RoutedFindings(LegacyRules(config, test), files, read, false, false)))
  {
    match LegacySetup(config)
    case Err(e) => Err(WatchlistStop(e))
    case Ok(_) =>
      var u := Runner.FirstUnreadable(files, read);
      if u < |files| then Err(UnreadableFile(files[u]))
      else
        var r := LegacyRules(config, test);
        Ok(Runner.Outcome(RoutedFindings(r, files, read, true, true) + RoutedFindings(r, files, read, false, true),
                          RoutedFindings(r, files, read, true, false) + RoutedFindings(r, files, read, false, false)))
  }

  /** The exit status: 1 without paths or with issues; an error that was
      rescued and printed ends the run with 0. */
  function ExitStatus(r: Result<Runner.Outcome, Stop>): (status: int)
    ensures status == 1 <==> r == Err(NoPathsGiven) || (r.Ok? && r.value.issues != [])
    ensures status == 0 <==> (r.Err? && r != Err(NoPathsGiven)) || (r.Ok? && r.value.issues == [])
  {
    match r
    case Err(NoPathsGiven) => 1
    case Err(_) => 0
    case Ok(o) => if o.issues != [] then 1 else 0
  }

  /** One side of a patrol gathers nothing exactly when no file gives it
      anything. */
  lemma RoutedEmpty(r: Rules, files: seq<string>, read: Runner.Reader, ruby: bool, issues: bool)
    requires Runner.Readable(files, read)
    ensures RoutedFindings(r, files, read, ruby, issues) == [] <==>
      forall k :: 0 <= k < |files| ==> FileFindings(r, files[k], read(files[k]).value, ruby, issues) == []
  {
    var ss := seq(|files|, k requires 0 <= k < |files| => FileFindings(r, files[k], read(files[k]).value, ruby, issues));
    ConcatEmpty(ss);
    forall k | 0 <= k < |files|
      ensures ss[k] == FileFindings(r, files[k], read(files[k]).value, ruby, issues)
    {
    }
  }

  /** Examining the files ends with 1 exactly when the watchlists set up,
      every file reads, and some file has an issue from the patrol its
      extension sends it to. */
  lemma BlockedExactly(config: Entries, files: seq<string>, read: Runner.Reader, test: RegexTester)
    ensures ExitStatus(ProcessResult(config, files, read, test)) == 1 <==>
      && LegacySetup(config).Ok? && Runner.Readable(files, read)
      && exists k :: 0 <= k < |files| &&
           FileFindings(LegacyRules(config, test), files[k], read(files[k]).value, Runner.IsRubyFile(files[k]), true) != []
  {
    if LegacySetup(config).Ok? && Runner.Readable(files, read) {
      var rules := LegacyRules(config, test);
      RoutedEmpty(rules, files, read, true, true);
      RoutedEmpty(rules, files, read, false, true);
      forall k | 0 <= k < |files|
        ensures (FileFindings(rules, files[k], read(files[k]).value, true, true) == [] &&
                 FileFindings(rules, files[k], read(files[k]).value, false, true) == []) <==>
                FileFindings(rules, files[k], read(files[k]).value, Runner.IsRubyFile(files[k]), true) == []
      {
      }
    }
  }

  /** `process_files` */
  method ProcessFiles(config: Entries, files: seq<string>, read: Runner.Reader, test: RegexTester)
    returns (r: Result<Runner.Outcome, Stop>)
    ensures r == ProcessResult(config, files, read, test)
  {
    if LegacySetup(config).Err? {
      return Err(WatchlistStop(LegacySetup(config).error));
    }
    var code := new CodePatrol(config, test);
    var line := new LinePatrol(config, test);
    ghost var rules := LegacyRules(config, test);
    for i := 0 to |files|
      invariant Runner.Readable(files[..i], read)
      invariant code.patrol != line.patrol
      invariant code.patrol.PatrolRules() == rules && line.patrol.PatrolRules() == rules
      invariant code.patrol.issues == RoutedFindings(rules, files[..i], read, true, true)
      invariant code.patrol.warnings == RoutedFindings(rules, files[..i], read, true, false)
      invariant line.patrol.issues == RoutedFindings(rules, files[..i], read, false, true)
      invariant line.patrol.warnings == RoutedFindings(rules, files[..i], read, false, false)
    {
      var src := read(files[i]);
      if src.None? {
        Runner.UnreadableAt(files, read, i);
        return Err(UnreadableFile(files[i]));
      }
      Runner.ReadableSnoc(files, read, i);
      ghost var ci, cw, li, lw := code.patrol.issues, code.patrol.warnings, line.patrol.issues, line.patrol.warnings;
      Route(code, line, files[i], src.value);
      RoutedStep(rules, files, read, true, true, i, ci, code.patrol.issues);
      RoutedStep(rules, files, read, true, false, i, cw, code.patrol.warnings);
      RoutedStep(rules, files, read, false, true, i, li, line.patrol.issues);
      RoutedStep(rules, files, read, false, false, i, lw, line.patrol.warnings);
    }
    assert files[..|files|] == files;
    r := Ok(Runner.Outcome(code.patrol.issues + line.patrol.issues, code.patrol.warnings + line.patrol.warnings));
  }

  /** The body of `process_files`' loop. */
  method Route(code: CodePatrol, line: LinePatrol, path: string, src: Runner.Source)
    requires code.patrol != line.patrol
    modifies code.patrol, line.patrol
    ensures code.patrol.issues == old(code.patrol.issues) + FileFindings(code.patrol.PatrolRules(), path, src, true, true)
    ensures code.patrol.warnings == old(code.patrol.warnings) + FileFindings(code.patrol.PatrolRules(), path, src, true, false)
    ensures line.patrol.issues == old(line.patrol.issues) + FileFindings(line.patrol.PatrolRules(), path, src, false, true)
    ensures line.patrol.warnings == old(line.patrol.warnings) + FileFindings(line.patrol.PatrolRules(), path, src, false, false)
  {
    if Runner.IsRubyFile(path) {
      var _ := code.Examine(src.tree, path);
    } else {
      var _ := line.Examine(src.content, path);
    }
  }

  /** `go`, from the parsed options to the verdict. */
  function Run(file: Option<Value>, options: Entries, argv: seq<string>, read: Runner.Reader, test: RegexTester)
    : Result<Runner.Outcome, Stop>
  {
    match Runner.ProcessConfiguration(file, options)
    case Err(e) => Err(ConfigStop(e))
    case Ok(config) =>
      var files :- GenerateFileList(argv, config);
      ProcessResult(config, files, read, test)
  }

  /** A configuration that cannot be used still ends the run with 0. */
  lemma RescuedErrorsExitZero(options: Entries, argv: seq<string>, read: Runner.Reader, test: RegexTester)
    requires argv != []
    requires LegacySetup(options).Err?
    requires Exclusions(Get(options, "exclude")).Ok?
    ensures ExitStatus(Run(None, options, argv, read, test)) == 0
  {
  }

  /** `go` */
  method Go(file: Option<Value>, options: Entries, argv: seq<string>, read: Runner.Reader, test: RegexTester)
    returns (status: int)
    ensures status == ExitStatus(Run(file, options, argv, read, test))
  {
    var config := options;
    if file.Some? {
      if !file.value.Hash? {
        return 0;
      }
      var merged := DeepMergeHashes(file.value.entries, Remove(options, "config"));
      if merged.Err? {
        return 0;
      }
      config := merged.value;
    }
    assert Runner.ProcessConfiguration(file, options) == Ok(config);
    var files := GenerateFileList(argv, config);
    if files.Err? {
      return if files.error == NoPathsGiven then 1 else 0;
    }
    var outcome := ProcessFiles(config, files.value, read, test);
    status := if outcome.Err? then 0 else if outcome.value.issues != [] then 1 else 0;
  }
}
