/**
 * The decisions of the command-line runner (`NoLorem::Runner`): the command
 * line laid over the configuration file, the list of files to examine, which
 * patrol examines each file, and the exit status.
 *
 * Option parsing, terminal output, the file system and the Ruby parser are
 * inputs: the parsed options as a hash, the loaded configuration file as a
 * value, the command-line paths as given, and a `read` function that yields
 * each file's text and syntax tree.
 */
module Runner {
  import opened Wrappers
  import opened Text
  import opened Config
  import opened Issues
  import opened Ast
  import opened Watchlist
  import opened Patrols

  // ---------------------------------------------------------------------------
  // Configuration

  /** Why a run stops with status 2. */
  datatype RunError =
    | NotAConfigHash
    | MergeFailed(cause: MergeError)
    | NoPaths
    | NoFilesFound
    | BadExclusion
    | BadWatchlist(problem: SetupError)
    | Unreadable(path: string)

  /** `process_configuration`: with a configuration file the options,
      without `config`, are deep-merged over it; without one the options are
      the configuration. A file that does not hold a hash cannot be merged. */
  function ProcessConfiguration(file: Option<Value>, options: Entries): (r: Result<Entries, RunError>)
    ensures file.None? ==> r == Ok(options)
    ensures file.Some? && !file.value.Hash? ==> r == Err(NotAConfigHash)
    ensures file.Some? && file.value.Hash? ==>
      (r.Ok? <==> Merge(file.value.entries, Remove(options, "config")).Ok?)
    ensures r.Ok? && file.Some? ==>
      forall k :: HasKey(r.value, k) <==> HasKey(file.value.entries, k) || (k != "config" && HasKey(options, k))
    ensures file.Some? && file.value.Hash? && r.Ok? ==> Merge(file.value.entries, Remove(options, "config")) == Ok(r.value)
  {
    match file
    case None => Ok(options)
    case Some(v) =>
      if !v.Hash? then Err(NotAConfigHash)
      else
        var extra := Remove(options, "config");
        match Merge(v.entries, extra)
        case Err(e) => Err(MergeFailed(e))
        case Ok(m) =>
          MergeKeys(v.entries, extra);
          Ok(m)
  }

  /** The command line wins over the configuration file: an option that is
      not a list or a hash replaces the file's setting, a list option extends
      the file's list, and a setting the command line leaves alone is the
      file's. */
  lemma CommandLineWins(file: Entries, options: Entries, k: string)
    requires ProcessConfiguration(Some(Hash(file)), options).Ok?
    requires k != "config"
    ensures var config := ProcessConfiguration(Some(Hash(file)), options).value;
      && (HasKey(options, k) && HasKey(file, k) && !Get(file, k).Hash? && !Get(file, k).List? ==>
            Get(config, k) == Get(options, k))
      && (HasKey(options, k) && HasKey(file, k) && Get(file, k).Hash? ==>
            Get(options, k).Hash? && Get(config, k).Hash? &&
            Merge(Get(file, k).entries, Get(options, k).entries) == Ok(Get(config, k).entries))
      && (HasKey(options, k) && HasKey(file, k) && Get(file, k).List? ==>
            Get(options, k).List? && Get(config, k) == List(Get(file, k).items + Get(options, k).items))
      && (HasKey(options, k) && !HasKey(file, k) ==> Get(config, k) == Get(options, k))
      && (!HasKey(options, k) ==> Get(config, k) == Get(file, k))
  {
    var extra := Remove(options, "config");
    var config := ProcessConfiguration(Some(Hash(file)), options).value;
    assert Merge(file, extra) == Ok(config);
    MergeValues(file, extra, k);
    if HasKey(options, k) && HasKey(file, k) && Get(file, k).Hash? {
      var m := Merge(Get(file, k).entries, Get(extra, k).entries);
      assert m.Ok?;
    }
  }

  // ---------------------------------------------------------------------------
  // The file list

  /** `file.end_with?(".rb")`: such files go to the code patrol. */
  predicate IsRubyFile(path: string) {
    EndsWith(path, ".rb")
  }

  /** The extensions `expand_files` keeps. */
  predicate Expandable(path: string) {
    EndsWith(path, ".rb") || EndsWith(path, ".erb") || EndsWith(path, ".slim")
  }

  /** `expand_files` on a path that is not a directory. */
  function ExpandFiles(path: string): seq<string> {
    if Expandable(path) then [path] else []
  }

  /** `paths.each { |p| files += expand_files(p) }` */
  function ExpandAll(paths: seq<string>): (r: seq<string>)
    ensures |r| <= |paths|
    ensures forall x :: x in r <==> x in paths && Expandable(x)
  {
    if paths == [] then []
    else ExpandAll(paths[..|paths| - 1]) + ExpandFiles(paths[|paths| - 1])
  }

  lemma {:induction false} ExpandAllAppend(a: seq<string>, b: seq<string>)
    ensures ExpandAll(a + b) == ExpandAll(a) + ExpandAll(b)
    decreases |b|
  {
    if b == [] {
      assert a + b == a;
      assert ExpandAll(a) + [] == ExpandAll(a);
    } else {
      var last := |b| - 1;
      assert (a + b)[..|a + b| - 1] == a + b[..last] && (a + b)[|a + b| - 1] == b[last];
      ExpandAllAppend(a, b[..last]);
      Assoc(ExpandAll(a), ExpandAll(b[..last]), ExpandFiles(b[last]));
    }
  }

  /** Expanding twice is expanding once, so exclusions that the option parser
      already expanded come out the same. */
  lemma {:induction false} ExpandTwice(paths: seq<string>)
    ensures ExpandAll(ExpandAll(paths)) == ExpandAll(paths)
    decreases |paths|
  {
    if paths != [] {
      var init, last := paths[..|paths| - 1], paths[|paths| - 1];
      ExpandTwice(init);
      ExpandAllAppend(ExpandAll(init), ExpandFiles(last));
      if Expandable(last) {
        assert ExpandAll([last]) == ExpandAll([]) + ExpandFiles(last);
      } else {
        assert ExpandFiles(last) == [];
      }
    }
  }

  /** `a - b`: the elements of `a` not in `b`, in order, duplicates kept. */
  function Subtract(a: seq<string>, b: seq<string>): (r: seq<string>)
    ensures |r| <= |a|
    ensures forall x :: x in r <==> x in a && x !in b
  {
    if a == [] then []
    else (if a[0] in b then [] else [a[0]]) + Subtract(a[1..], b)
  }

  /** `@config["exclude"]&.each { |p| exclusion_list += expand_files(p) }`:
      nil excludes nothing; an array of paths is expanded; anything else
      raises. */
  function Exclusions(v: Value): (r: Result<seq<string>, RunError>)
    ensures v.Nil? ==> r == Ok([])
    ensures v.List? ==> (r.Ok? <==> forall i :: 0 <= i < |v.items| ==> v.items[i].Str?)
    ensures r.Ok? ==> forall x :: x in r.value ==> Expandable(x)
    ensures v.List? && r.Ok? ==> forall x :: x in r.value <==> Expandable(x) && Str(x) in v.items
    ensures v.Hash? ==> (r.Ok? <==> v.entries == []) && (r.Ok? ==> r.value == [])
    ensures !v.Nil? && !v.List? && !v.Hash? ==> r == Err(BadExclusion)
  {
    match v
    case Nil => Ok([])
    case Hash(es) => if es == [] then Ok([]) else Err(BadExclusion)
    case List(items) =>
      if forall i :: 0 <= i < |items| ==> items[i].Str? then
        var paths := seq(|items|, i requires 0 <= i < |items| => items[i].s);
        assert forall x :: x in paths <==> Str(x) in items by {
          forall x ensures x in paths <==> Str(x) in items {
            if Str(x) in items {
              var i :| 0 <= i < |items| && items[i] == Str(x);
              assert paths[i] == x;
            }
          }
        }
        Ok(ExpandAll(paths))
      else Err(BadExclusion)
    case _ => Err(BadExclusion)
  }

  /** `generate_file_list`: no paths, or no file to examine among them, end
      the run; the exclusions are then taken away. */
  function GenerateFileList(argv: seq<string>, config: Entries): (r: Result<seq<string>, RunError>)
    ensures argv == [] ==> r == Err(NoPaths)
    ensures argv != [] && ExpandAll(argv) == [] ==> r == Err(NoFilesFound)
    ensures argv != [] && ExpandAll(argv) != [] ==>
      (r.Ok? <==> Exclusions(Get(config, "exclude")).Ok?)
    ensures r.Ok? ==> forall f :: f in r.value <==>
      f in argv && Expandable(f) && f !in Exclusions(Get(config, "exclude")).value
  {
    if argv == [] then Err(NoPaths)
    else
      var files := ExpandAll(argv);
      if files == [] then Err(NoFilesFound)
      else
        var excluded :- Exclusions(Get(config, "exclude"));
        Ok(Subtract(files, excluded))
  }

  /** A file listed under `exclude` is not examined, whatever the paths. */
  lemma ExcludedFileLeftOut(argv: seq<string>, config: Entries, f: string)
    requires GenerateFileList(argv, config).Ok?
    requires Get(config, "exclude").List? && Str(f) in Get(config, "exclude").items
    ensures f !in GenerateFileList(argv, config).value
  {
    if Expandable(f) {
      assert f in Exclusions(Get(config, "exclude")).value;
    }
  }

  // ---------------------------------------------------------------------------
  // Examining the files

  /** What reading a file yields: its text, and its syntax tree when it is
      Ruby that parses. */
  datatype Source = Source(content: string, tree: Option<Node>)

  /** The file system and the parser. */
  type Reader = string -> Option<Source>

  /** What a run reports. */
  datatype Outcome = Outcome(issues: seq<Issue>, warnings: seq<Issue>)

  predicate Readable(files: seq<string>, read: Reader) {
    forall k :: 0 <= k < |files| ==> read(files[k]).Some?
  }

  /** The first file that cannot be read. */
  function FirstUnreadable(files: seq<string>, read: Reader): (r: nat)
    ensures r <= |files|
    ensures r < |files| ==> read(files[r]).None?
    ensures forall k :: 0 <= k < r ==> read(files[k]).Some?
  {
    if files == [] || read(files[0]).None? then 0
    else
      var r := FirstUnreadable(files[1..], read);
      assert forall k :: 1 <= k < |files| ==> files[k] == files[1..][k - 1];
      1 + r
  }

  /** The half of the configuration that blocks the run and the half that
      only warns, as the patrols apply them. */
  function DenyRules(config: Entries, find: RegexFinder): Rules
    requires Setup(config).Ok?
  {
    Rules(Setup(config).value.deny, Truthy(Get(config, "all")), find)
  }

  function WarnRules(config: Entries, find: RegexFinder): Rules
    requires Setup(config).Ok?
  {
    Rules(Setup(config).value.warn, Truthy(Get(config, "all")), find)
  }

  /** What one file contributes to the code patrol (`ruby`) or to the line
      patrol: a `.rb` file is walked as a tree, any other read line by line. */
  function FileFindings(r: Rules, path: string, src: Source, ruby: bool): seq<Issue>
    requires ValidRules(r)
  {
    if IsRubyFile(path) != ruby then []
    else if ruby then AllFindings(r, TreeProbes(src.tree), path)
    else AllFindings(r, LineProbes(src.content), path)
  }

  /** What one patrol gathers over the files, in order. */
  function RoutedFindings(r: Rules, files: seq<string>, read: Reader, ruby: bool): seq<Issue>
    requires ValidRules(r) && Readable(files, read)
  {
    Concat(seq(|files|, k requires 0 <= k < |files| => FileFindings(r, files[k], read(files[k]).value, ruby)))
  }

  /** Each file goes to exactly one patrol. */
  lemma RoutedOnce(r: Rules, path: string, src: Source)
    requires ValidRules(r)
    ensures IsRubyFile(path) ==>
      FileFindings(r, path, src, false) == [] && FileFindings(r, path, src, true) == AllFindings(r, TreeProbes(src.tree), path)
    ensures !IsRubyFile(path) ==>
      FileFindings(r, path, src, true) == [] && FileFindings(r, path, src, false) == AllFindings(r, LineProbes(src.content), path)
  {
  }

  lemma {:induction false} RoutedSnoc(r: Rules, files: seq<string>, read: Reader, ruby: bool, i: nat)
    requires ValidRules(r) && i < |files| && Readable(files[..i + 1], read)
    ensures Readable(files[..i], read)
    ensures RoutedFindings(r, files[..i + 1], read, ruby) ==
      RoutedFindings(r, files[..i], read, ruby) + FileFindings(r, files[i], read(files[i]).value, ruby)
  {
    assert forall k :: 0 <= k < i ==> files[..i][k] == files[..i + 1][k];
    var front := files[..i + 1];
    var all := seq(i + 1, k requires 0 <= k < i + 1 => FileFindings(r, front[k], read(front[k]).value, ruby));
    assert all[..i] == seq(i, k requires 0 <= k < i => FileFindings(r, files[..i][k], read(files[..i][k]).value, ruby));
  }

  /** What one patrol has gathered after one more file. */
  lemma {:induction false} RoutedStep(r: Rules, files: seq<string>, read: Reader, ruby: bool, i: nat,
                                      before: seq<Issue>, after: seq<Issue>)
    requires ValidRules(r) && i < |files| && Readable(files[..i + 1], read)
    requires Readable(files[..i], read) && before == RoutedFindings(r, files[..i], read, ruby)
    requires after == before + FileFindings(r, files[i], read(files[i]).value, ruby)
    ensures after == RoutedFindings(r, files[..i + 1], read, ruby)
  {
    RoutedSnoc(r, files, read, ruby, i);
  }

  /** `process_files` up to its verdict: the patrols' findings, code patrol
      first, or the error that ends the run. */
  function ProcessResult(config: Entries, files: seq<string>, read: Reader, find: RegexFinder): (r: Result<Outcome, RunError>)
    requires Sound(find)
    ensures Setup(config).Err? ==> r == Err(BadWatchlist(Setup(config).error))
    ensures Setup(config).Ok? && !Readable(files, read) ==>
      r == Err(Unreadable(files[FirstUnreadable(files, read)]))
    ensures r.Ok? ==> Setup(config).Ok? && Readable(files, read)
    ensures Setup(config).Ok? && Readable(files, read) ==>
      r == Ok(Outcome(RoutedFindings(DenyRules(config, find), files, read, true) + RoutedFindings(DenyRules(config, find), files, read, false),
                      RoutedFindings(WarnRules(config, find), files, read, true) + RoutedFindings(WarnRules(config, find), files, read, false)))
  {
    match Setup(config)
    case Err(e) => Err(BadWatchlist(e))
    case Ok(_) =>
      var u := FirstUnreadable(files, read);
      if u < |files| then Err(Unreadable(files[u]))
      else
        var deny, warn := DenyRules(config, find), WarnRules(config, find);
        Ok(Outcome(RoutedFindings(deny, files, read, true) + RoutedFindings(deny, files, read, false),
                   RoutedFindings(warn, files, read, true) + RoutedFindings(warn, files, read, false)))
  }

  /** The exit status: 2 when the run raised, 1 when blocking issues were
      found, 0 otherwise. */
  function ExitStatus(r: Result<Outcome, RunError>): (status: int)
    ensures status == 2 <==> r.Err?
    ensures status == 1 <==> r.Ok? && r.value.issues != []
    ensures status == 0 <==> r.Ok? && r.value.issues == []
  {
    if r.Err? then 2 else if r.value.issues != [] then 1 else 0
  }

  /** A patrol gathers nothing exactly when no file gives it anything. */
  lemma RoutedEmpty(r: Rules, files: seq<string>, read: Reader, ruby: bool)
    requires ValidRules(r) && Readable(files, read)
    ensures RoutedFindings(r, files, read, ruby) == [] <==>
      forall k :: 0 <= k < |files| ==> FileFindings(r, files[k], read(files[k]).value, ruby) == []
  {
    var ss := seq(|files|, k requires 0 <= k < |files| => FileFindings(r, files[k], read(files[k]).value, ruby));
    ConcatEmpty(ss);
    forall k | 0 <= k < |files|
      ensures ss[k] == FileFindings(r, files[k], read(files[k]).value, ruby)
    {
    }
  }

  /** The run ends with 1 exactly when the watchlists set up, every file
      reads, and some file has a blocking finding from the patrol its
      extension sends it to. */
  lemma BlockedExactly(config: Entries, files: seq<string>, read: Reader, find: RegexFinder)
    requires Sound(find)
    ensures ExitStatus(ProcessResult(config, files, read, find)) == 1 <==>
      && Setup(config).Ok? && Readable(files, read)
      && exists k :: 0 <= k < |files| &&
           FileFindings(DenyRules(config, find), files[k], read(files[k]).value, IsRubyFile(files[k])) != []
  {
    if Setup(config).Ok? && Readable(files, read) {
      var deny := DenyRules(config, find);
      RoutedEmpty(deny, files, read, true);
      RoutedEmpty(deny, files, read, false);
      forall k | 0 <= k < |files|
        ensures (FileFindings(deny, files[k], read(files[k]).value, true) == [] &&
                 FileFindings(deny, files[k], read(files[k]).value, false) == []) <==>
                FileFindings(deny, files[k], read(files[k]).value, IsRubyFile(files[k])) == []
      {
        RoutedOnce(deny, files[k], read(files[k]).value);
      }
    }
  }

  /** Warnings alone never fail a run. */
  lemma WarningsDoNotFail(r: Result<Outcome, RunError>)
    requires r.Ok? && r.value.issues == [] && r.value.warnings != []
    ensures ExitStatus(r) == 0
  {
  }

  /** `process_files`: one code patrol and one line patrol, each file routed
      by its extension. */
  method ProcessFiles(config: Entries, files: seq<string>, read: Reader, find: RegexFinder)
    returns (r: Result<Outcome, RunError>)
    requires Sound(find)
    ensures r == ProcessResult(config, files, read, find)
  {
    if Setup(config).Err? {
      return Err(BadWatchlist(Setup(config).error));
    }
    var code := new CodePatrol(config, find);
    var line := new LinePatrol(config, find);
    ghost var deny, warn := DenyRules(config, find), WarnRules(config, find);
    for i := 0 to |files|
      invariant Readable(files[..i], read)
      invariant code.patrol.Valid() && line.patrol.Valid()
      invariant code.patrol.DenyRules() == deny && line.patrol.DenyRules() == deny
      invariant code.patrol.WarnRules() == warn && line.patrol.WarnRules() == warn
      invariant code.patrol.issues == RoutedFindings(deny, files[..i], read, true)
      invariant code.patrol.warnings == RoutedFindings(warn, files[..i], read, true)
      invariant line.patrol.issues == RoutedFindings(deny, files[..i], read, false)
      invariant line.patrol.warnings == RoutedFindings(warn, files[..i], read, false)
    {
      var src := read(files[i]);
      if src.None? {
        UnreadableAt(files, read, i);
        return Err(Unreadable(files[i]));
      }
      ReadableSnoc(files, read, i);
      ghost var ci, cw, li, lw := code.patrol.issues, code.patrol.warnings, line.patrol.issues, line.patrol.warnings;
      Route(code, line, files[i], src.value);
      RoutedStep(deny, files, read, true, i, ci, code.patrol.issues);
      RoutedStep(warn, files, read, true, i, cw, code.patrol.warnings);
      RoutedStep(deny, files, read, false, i, li, line.patrol.issues);
      RoutedStep(warn, files, read, false, i, lw, line.patrol.warnings);
    }
    assert files[..|files|] == files;
    r := Ok(Outcome(code.patrol.issues + line.patrol.issues, code.patrol.warnings + line.patrol.warnings));
  }

  /** The body of `process_files`' loop: a `.rb` file to the code patrol,
      any other to the line patrol. */
  method Route(code: CodePatrol, line: LinePatrol, path: string, src: Source)
    requires code.patrol != line.patrol
    requires code.patrol.Valid() && line.patrol.Valid()
    modifies code.patrol, line.patrol
    ensures code.patrol.issues == old(code.patrol.issues) + FileFindings(code.patrol.DenyRules(), path, src, true)
    ensures code.patrol.warnings == old(code.patrol.warnings) + FileFindings(code.patrol.WarnRules(), path, src, true)
    ensures line.patrol.issues == old(line.patrol.issues) + FileFindings(line.patrol.DenyRules(), path, src, false)
    ensures line.patrol.warnings == old(line.patrol.warnings) + FileFindings(line.patrol.WarnRules(), path, src, false)
  {
    if IsRubyFile(path) {
      var _ := code.Examine(src.tree, path);
    } else {
      var _ := line.Examine(src.content, path);
    }
  }

  lemma UnreadableAt(files: seq<string>, read: Reader, i: nat)
    requires i < |files| && Readable(files[..i], read) && read(files[i]).None?
    ensures FirstUnreadable(files, read) == i
  {
    assert forall k :: 0 <= k < i ==> files[..i][k] == files[k];
  }

  lemma ReadableSnoc(files: seq<string>, read: Reader, i: nat)
    requires i < |files| && Readable(files[..i], read) && read(files[i]).Some?
    ensures Readable(files[..i + 1], read)
  {
    assert forall k :: 0 <= k < i ==> files[..i + 1][k] == files[..i][k];
  }

  // ---------------------------------------------------------------------------
  // A whole run

  /** `go`, from the parsed options to the verdict. */
  function Run(file: Option<Value>, options: Entries, argv: seq<string>, read: Reader, find: RegexFinder): Result<Outcome, RunError>
    requires Sound(find)
  {
    var config :- ProcessConfiguration(file, options);
    var files :- GenerateFileList(argv, config);
    ProcessResult(config, files, read, find)
  }

  /** `go`: configuration, file list, then the patrols; the status is the
      one the process exits with. */
  method Go(file: Option<Value>, options: Entries, argv: seq<string>, read: Reader, find: RegexFinder)
    returns (status: int)
    requires Sound(find)
    ensures status == ExitStatus(Run(file, options, argv, read, find))
    ensures argv == [] ==> status == 2
  {
    var config := options;
    if file.Some? {
      if !file.value.Hash? {
        return 2;
      }
      var merged := DeepMergeHashes(file.value.entries, Remove(options, "config"));
      if merged.Err? {
        return 2;
      }
      config := merged.value;
    }
    assert ProcessConfiguration(file, options) == Ok(config);
    var files := GenerateFileList(argv, config);
    if files.Err? {
      return 2;
    }
    var outcome := ProcessFiles(config, files.value, read, find);
    status := if outcome.Err? then 2 else if outcome.value.issues != [] then 1 else 0;
  }
}
