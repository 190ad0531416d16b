/**
 * The patrols: objects that collect findings while they look at files.
 *
 * A patrol holds the configuration, its deny and warn watchlist sets, and two
 * lists that only grow: `issues` (blocking findings, from the deny half) and
 * `warnings` (advisory findings, from the warn half). Every finding is made
 * with the file currently under examination, `context`. A line patrol checks
 * text line by line; a code patrol walks a syntax tree and checks its string
 * literals and constant names.
 */
module Patrols {
  import opened Wrappers
  import opened Text
  import opened Config
  import opened Issues
  import opened Watchlist
  import opened Ast

  /** The deny and warn halves of a configuration. */
  datatype Halves = Halves(deny: WatchlistSet, warn: WatchlistSet)

  /** What the patrol constructor builds from `config["deny"]` and
      `config["warn"]`, or the error it raises. */
  function Setup(config: Entries): (r: Result<Halves, SetupError>)
    ensures r.Ok? ==> ValidExpressions(r.value.deny.words.expressions)
    ensures r.Ok? ==> ValidExpressions(r.value.warn.words.expressions)
    ensures r.Ok? ==> NewWatchlistSet(Get(config, "deny")) == Ok(r.value.deny)
    ensures r.Ok? ==> NewWatchlistSet(Get(config, "warn")) == Ok(r.value.warn)
    ensures r.Err? <==> NewWatchlistSet(Get(config, "deny")).Err? || NewWatchlistSet(Get(config, "warn")).Err?
  {
    var deny :- NewWatchlistSet(Get(config, "deny"));
    var warn :- NewWatchlistSet(Get(config, "warn"));
    Ok(Halves(deny, warn))
  }

  function ExpressionMessage(hit: string): string {
    "Found expression '" + hit + "'"
  }

  function ConstantMessage(name: string): string {
    "Found constant '" + name + "'"
  }

  /** The findings for the hits of one scan: one per hit, in scan order,
      under `all`; otherwise only the first. */
  function ExpressionFindings(hits: seq<string>, all: bool, file: string, line: nat): (r: seq<Issue>)
    ensures |r| == (if all then |hits| else if hits == [] then 0 else 1)
    ensures forall k :: 0 <= k < |r| ==> r[k] == Issue(ExpressionMessage(hits[k]), file, line)
  {
    var kept := if all || hits == [] then hits else hits[..1];
    seq(|kept|, k requires 0 <= k < |kept| => Issue(ExpressionMessage(kept[k]), file, line))
  }

  lemma {:induction false} ExpressionFindingsSnoc(hits: seq<string>, i: nat, file: string, line: nat)
    requires i < |hits|
    ensures ExpressionFindings(hits[..i + 1], true, file, line) ==
      ExpressionFindings(hits[..i], true, file, line) + [Issue(ExpressionMessage(hits[i]), file, line)]
  {
  }

  /** What a loop that stops after the first hit unless `all` has reported. */
  lemma {:induction false} ExpressionFindingsKept(hits: seq<string>, i: nat, all: bool, file: string, line: nat)
    requires i <= |hits|
    requires all ==> i == |hits|
    requires !all ==> i == (if hits == [] then 0 else 1)
    ensures ExpressionFindings(hits[..i], true, file, line) == ExpressionFindings(hits, all, file, line)
  {
  }

  /** The finding for a constant name: one exactly when the list holds it. */
  function ConstantFindings(list: ConstantWatchlist, name: string, file: string, line: nat): (r: seq<Issue>)
    ensures r != [] <==> name in list.expressions
    ensures r != [] ==> r == [Issue(ConstantMessage(name), file, line)]
  {
    if list.Scan(name) != [] then [Issue(ConstantMessage(name), file, line)] else []
  }

  /** One half of a patrol's rules as it applies them: the watchlist set,
      the `all` policy and the regex engine. */
  datatype Rules = Rules(list: WatchlistSet, all: bool, find: RegexFinder)

  ghost predicate ValidRules(r: Rules) {
    Sound(r.find) && ValidExpressions(r.list.words.expressions)
  }

  /** The findings one probe gives against one half. */
  function Findings(r: Rules, p: Probe, file: string): seq<Issue>
    requires ValidRules(r)
  {
    match p
    case TextProbe(text, line) => ExpressionFindings(ScanHits(r.list.words.expressions, text, r.find), r.all, file, line)
    case NameProbe(name, line) => ConstantFindings(r.list.constants, name, file, line)
  }

  /** The findings of a sequence of probes, in order. */
  function AllFindings(r: Rules, ps: seq<Probe>, file: string): seq<Issue>
    requires ValidRules(r)
  {
    if ps == [] then [] else Findings(r, ps[0], file) + AllFindings(r, ps[1..], file)
  }

  lemma {:induction false} AllFindingsAppend(r: Rules, a: seq<Probe>, b: seq<Probe>, file: string)
    requires ValidRules(r)
    ensures AllFindings(r, a + b, file) == AllFindings(r, a, file) + AllFindings(r, b, file)
    decreases |a|
  {
    if a == [] {
      assert a + b == b;
    } else {
      SplitFront(a, b);
      AllFindingsAppend(r, a[1..], b, file);
      Assoc(Findings(r, a[0], file), AllFindings(r, a[1..], file), AllFindings(r, b, file));
    }
  }

  lemma AllFindingsNil(r: Rules, file: string)
    requires ValidRules(r)
    ensures AllFindings(r, [], file) == []
  {
  }

  lemma {:induction false} AllFindingsOne(r: Rules, p: Probe, file: string)
    requires ValidRules(r)
    ensures AllFindings(r, [p], file) == Findings(r, p, file)
  {
    assert [p][1..] == [];
    assert Findings(r, p, file) + [] == Findings(r, p, file);
  }

  lemma {:induction false} AllFindingsSnoc(r: Rules, ps: seq<Probe>, i: nat, file: string)
    requires ValidRules(r)
    requires i < |ps|
    ensures AllFindings(r, ps[..i + 1], file) == AllFindings(r, ps[..i], file) + Findings(r, ps[i], file)
  {
    assert ps[..i + 1] == ps[..i] + [ps[i]];
    AllFindingsAppend(r, ps[..i], [ps[i]], file);
    AllFindingsOne(r, ps[i], file);
  }

  lemma Reassociate<T>(start: seq<T>, before: seq<T>, after: seq<T>, x: seq<T>, y: seq<T>, xy: seq<T>)
    requires before == start + x && after == before + y && xy == x + y
    ensures after == start + xy
  {
  }

  /** One more probe's findings appended to what the earlier ones gave. */
  lemma {:induction false} Accumulate(r: Rules, ps: seq<Probe>, i: nat, file: string,
                   start: seq<Issue>, before: seq<Issue>, after: seq<Issue>)
    requires ValidRules(r)
    requires i < |ps|
    requires before == start + AllFindings(r, ps[..i], file)
    requires after == before + Findings(r, ps[i], file)
    ensures after == start + AllFindings(r, ps[..i + 1], file)
  {
    AllFindingsSnoc(r, ps, i, file);
    Reassociate(start, before, after, AllFindings(r, ps[..i], file), Findings(r, ps[i], file),
                AllFindings(r, ps[..i + 1], file));
  }

  /** One more child's findings appended to what the earlier ones gave. */
  lemma {:induction false} AccumulateChild(r: Rules, cs: seq<Node>, i: nat, file: string,
                        start: seq<Issue>, before: seq<Issue>, after: seq<Issue>)
    requires ValidRules(r)
    requires i < |cs|
    requires before == start + AllFindings(r, Probes(Other(cs[..i])), file)
    requires after == before + AllFindings(r, Probes(cs[i]), file)
    ensures after == start + AllFindings(r, Probes(Other(cs[..i + 1])), file)
  {
    ChildFindings(r, cs, i, file);
    Reassociate(start, before, after, AllFindings(r, Probes(Other(cs[..i])), file),
                AllFindings(r, Probes(cs[i]), file), AllFindings(r, Probes(Other(cs[..i + 1])), file));
  }

  lemma {:induction false} ChildFindings(r: Rules, cs: seq<Node>, i: nat, file: string)
    requires ValidRules(r)
    requires i < |cs|
    ensures AllFindings(r, Probes(Other(cs[..i + 1])), file) ==
      AllFindings(r, Probes(Other(cs[..i])), file) + AllFindings(r, Probes(cs[i]), file)
  {
    assert cs[..i + 1] == cs[..i] + [cs[i]];
    ChildrenInOrder(cs[..i], cs[i]);
    AllFindingsAppend(r, Probes(Other(cs[..i])), Probes(cs[i]), file);
  }

  class Patrol {
    const config: Entries
    const deny: WatchlistSet
    const warn: WatchlistSet
    const find: RegexFinder
    /** `@config["all"]`: report every hit rather than the first. */
    const all: bool
    var issues: seq<Issue>
    var warnings: seq<Issue>
    var context: string

    /** The watchlists can be scanned with. */
    ghost predicate Valid() {
      && Sound(find)
      && ValidExpressions(deny.words.expressions)
      && ValidExpressions(warn.words.expressions)
    }


    /** The deny half as the patrol applies it. */
    function DenyRules(): Rules {
      Rules(deny, all, find)
    }

    /** The warn half as the patrol applies it. */
    function WarnRules(): Rules {
      Rules(warn, all, find)
    }

    constructor (config: Entries, find: RegexFinder)
      requires Sound(find) && Setup(config).Ok?
      ensures this.config == config && this.find == find
      ensures all == Truthy(Get(config, "all"))
      ensures Setup(config) == Ok(Halves(deny, warn))
      ensures Valid()
      ensures issues == [] && warnings == [] && context == ""
    {
      var halves := Setup(config).value;
      this.config := config;
      this.find := find;
      all := Truthy(Get(config, "all"));
      deny := halves.deny;
      warn := halves.warn;
      issues := [];
      warnings := [];
      context := "";
    }

    /** `reset`: forget the findings, keep the configuration. */
    method Reset()
      modifies this
      ensures issues == [] && warnings == []
      ensures context == old(context)
    {
      issues := [];
      warnings := [];
    }

    /** `issues?` */
    predicate HasIssues()
      reads this
    {
      issues != []
    }

    /** `warnings?` */
    predicate HasWarnings()
      reads this
    {
      warnings != []
    }

    method AddIssue(description: string, line: nat)
      modifies this
      ensures issues == old(issues) + [Issue(description, context, line)]
      ensures warnings == old(warnings) && context == old(context)
    {
      issues := issues + [Issue(description, context, line)];
    }

    method AddWarning(description: string, line: nat)
      modifies this
      ensures warnings == old(warnings) + [Issue(description, context, line)]
      ensures issues == old(issues) && context == old(context)
    {
      warnings := warnings + [Issue(description, context, line)];
    }

    /** The shared part of `examine`: remember the file, report whether any
        issue has been found so far. */
    method Examine(context: string) returns (found: bool)
      modifies this
      ensures this.context == context
      ensures issues == old(issues) && warnings == old(warnings)
      ensures found <==> issues != []
    {
      this.context := context;
      found := issues != [];
    }

    /** `examine_constant`: the deny and the warn check run independently. */
    method ExamineConstant(name: string, line: nat)
      requires Valid()
      modifies this
      ensures issues == old(issues) + Findings(DenyRules(), NameProbe(name, line), context)
      ensures warnings == old(warnings) + Findings(WarnRules(), NameProbe(name, line), context)
      ensures context == old(context)
    {
      if deny.constants.Scan(name) != [] {
        AddIssue(ConstantMessage(name), line);
      }
      if warn.constants.Scan(name) != [] {
        AddWarning(ConstantMessage(name), line);
      }
    }

    /** `examine_string`: one finding per hit of each half's scan, stopping
        after the first unless `all` is set. */
    method ExamineString(text: string, line: nat)
      requires Valid()
      modifies this
      ensures issues == old(issues) + ExpressionFindings(ScanHits(deny.words.expressions, text, find), all, context, line)
      ensures warnings == old(warnings) + ExpressionFindings(ScanHits(warn.words.expressions, text, find), all, context, line)
      ensures context == old(context)
    {
      var hits := deny.words.Scan(text, find);
      AddIssues(hits, line);
      var warnHits := warn.words.Scan(text, find);
      AddWarnings(warnHits, line);
    }

    /** One issue per hit, stopping after the first unless `all` is set. */
    method AddIssues(hits: seq<string>, line: nat)
      modifies this
      ensures issues == old(issues) + ExpressionFindings(hits, all, context, line)
      ensures warnings == old(warnings) && context == old(context)
    {
      var i := 0;
      while i < |hits|
        invariant i <= |hits|
        invariant !all ==> i == 0
        invariant issues == old(issues) + ExpressionFindings(hits[..i], true, context, line)
        invariant warnings == old(warnings) && context == old(context)
      {
        ExpressionFindingsSnoc(hits, i, context, line);
        AddIssue(ExpressionMessage(hits[i]), line);
        i := i + 1;
        if !all {
          break;
        }
      }
      ExpressionFindingsKept(hits, i, all, context, line);
    }

    /** One warning per hit, stopping after the first unless `all` is set. */
    method AddWarnings(hits: seq<string>, line: nat)
      modifies this
      ensures warnings == old(warnings) + ExpressionFindings(hits, all, context, line)
      ensures issues == old(issues) && context == old(context)
    {
      var j := 0;
      while j < |hits|
        invariant j <= |hits|
        invariant !all ==> j == 0
        invariant warnings == old(warnings) + ExpressionFindings(hits[..j], true, context, line)
        invariant issues == old(issues) && context == old(context)
      {
        ExpressionFindingsSnoc(hits, j, context, line);
        AddWarning(ExpressionMessage(hits[j]), line);
        j := j + 1;
        if !all {
          break;
        }
      }
      ExpressionFindingsKept(hits, j, all, context, line);
    }
  }

  /** The probes of a text file: every line, numbered from 1. */
  function LineProbes(source: string): (r: seq<Probe>)
    ensures |r| == |Lines(source)|
    ensures forall k :: 0 <= k < |r| ==> r[k] == TextProbe(Lines(source)[k], k + 1)
  {
    var lines := Lines(source);
    seq(|lines|, k requires 0 <= k < |lines| => TextProbe(lines[k], k + 1))
  }

  /** The probes of a parsed file; a file that did not parse has none. */
  function TreeProbes(tree: Option<Node>): seq<Probe> {
    if tree.Some? then Probes(tree.value) else []
  }

  /** A patrol over text, line by line. */
  class LinePatrol {
    const patrol: Patrol

    constructor (config: Entries, find: RegexFinder)
      requires Sound(find) && Setup(config).Ok?
      ensures fresh(patrol) && patrol.Valid()
      ensures patrol.config == config && patrol.find == find
      ensures Setup(config) == Ok(Halves(patrol.deny, patrol.warn)) && patrol.all == Truthy(Get(config, "all"))
      ensures patrol.issues == [] && patrol.warnings == []
    {
      patrol := new Patrol(config, find);
    }

    /** `examine`: check every line in order, with its line number. */
    method Examine(source: string, context: string) returns (found: bool)
      requires patrol.Valid()
      modifies patrol
      ensures patrol.context == context
      ensures patrol.issues == old(patrol.issues) + AllFindings(patrol.DenyRules(), LineProbes(source), context)
      ensures patrol.warnings == old(patrol.warnings) + AllFindings(patrol.WarnRules(), LineProbes(source), context)
      ensures found <==> patrol.issues != []
    {
      var _ := patrol.Examine(context);
      var lines := Lines(source);
      ghost var probes := LineProbes(source);
      var lineno := 0;
      for i := 0 to |lines|
        invariant lineno == i
        invariant patrol.context == context
        invariant patrol.issues == old(patrol.issues) + AllFindings(patrol.DenyRules(), probes[..i], context)
        invariant patrol.warnings == old(patrol.warnings) + AllFindings(patrol.WarnRules(), probes[..i], context)
      {
        lineno := lineno + 1;
        ghost var issues, warnings := patrol.issues, patrol.warnings;
        patrol.ExamineString(lines[i], lineno);
        Accumulate(patrol.DenyRules(), probes, i, context, old(patrol.issues), issues, patrol.issues);
        Accumulate(patrol.WarnRules(), probes, i, context, old(patrol.warnings), warnings, patrol.warnings);
      }
      assert probes[..|lines|] == probes;
      found := patrol.HasIssues();
    }
  }

  /** A patrol over Ruby code, through its syntax tree. */
  class CodePatrol {
    const patrol: Patrol

    constructor (config: Entries, find: RegexFinder)
      requires Sound(find) && Setup(config).Ok?
      ensures fresh(patrol) && patrol.Valid()
      ensures patrol.config == config && patrol.find == find
      ensures Setup(config) == Ok(Halves(patrol.deny, patrol.warn)) && patrol.all == Truthy(Get(config, "all"))
      ensures patrol.issues == [] && patrol.warnings == []
    {
      patrol := new Patrol(config, find);
    }

    /** `examine`: walk the tree, if the source parsed. */
    method Examine(tree: Option<Node>, context: string) returns (found: bool)
      requires patrol.Valid()
      modifies patrol
      ensures patrol.context == context
      ensures patrol.issues == old(patrol.issues) + AllFindings(patrol.DenyRules(), TreeProbes(tree), context)
      ensures patrol.warnings == old(patrol.warnings) + AllFindings(patrol.WarnRules(), TreeProbes(tree), context)
      ensures found <==> patrol.issues != []
    {
      var _ := patrol.Examine(context);
      if tree.Some? {
        TraverseAst(tree.value);
      } else {
        assert AllFindings(patrol.DenyRules(), [], context) == [];
        assert AllFindings(patrol.WarnRules(), [], context) == [];
      }
      found := patrol.HasIssues();
    }

    /** `traverse_ast` */
    method TraverseAst(n: Node)
      requires patrol.Valid()
      modifies patrol
      ensures patrol.context == old(patrol.context)
      ensures patrol.issues == old(patrol.issues) + AllFindings(patrol.DenyRules(), Probes(n), patrol.context)
      ensures patrol.warnings == old(patrol.warnings) + AllFindings(patrol.WarnRules(), Probes(n), patrol.context)
      decreases n
    {
      match n
      case StrNode(value, line) =>
        AllFindingsOne(patrol.DenyRules(), TextProbe(value, line), patrol.context);
        AllFindingsOne(patrol.WarnRules(), TextProbe(value, line), patrol.context);
        patrol.ExamineString(value, line);
      case ConstNode(_, _, _) =>
        var _ := TraverseConst(n);
      case Other(cs) =>
        for i := 0 to |cs|
          invariant patrol.context == old(patrol.context)
          invariant patrol.issues == old(patrol.issues) + AllFindings(patrol.DenyRules(), Probes(Other(cs[..i])), patrol.context)
          invariant patrol.warnings == old(patrol.warnings) + AllFindings(patrol.WarnRules(), Probes(Other(cs[..i])), patrol.context)
        {
          ghost var issues, warnings := patrol.issues, patrol.warnings;
          TraverseAst(cs[i]);
          AccumulateChild(patrol.DenyRules(), cs, i, patrol.context, old(patrol.issues), issues, patrol.issues);
          AccumulateChild(patrol.WarnRules(), cs, i, patrol.context, old(patrol.warnings), warnings, patrol.warnings);
        }
        assert cs[..|cs|] == cs;
    }

    /** `traverse_const`: check the scope first, then the full name. */
    method TraverseConst(n: Node) returns (name: string)
      requires patrol.Valid()
      modifies patrol
      ensures name == ConstChain(n).0
      ensures patrol.context == old(patrol.context)
      ensures patrol.issues == old(patrol.issues) + AllFindings(patrol.DenyRules(), ConstChain(n).1, patrol.context)
      ensures patrol.warnings == old(patrol.warnings) + AllFindings(patrol.WarnRules(), ConstChain(n).1, patrol.context)
      decreases n
    {
      if n.ConstNode? {
        ChainStep(n);
        ghost var chain := ConstChain(n).1;
        ghost var last := |chain| - 1;
        if n.scope.Some? {
          var inner := TraverseConst(n.scope.value);
          name := inner + "::" + n.name;
        } else {
          name := n.name;
          AllFindingsNil(patrol.DenyRules(), patrol.context);
          AllFindingsNil(patrol.WarnRules(), patrol.context);
        }
        ghost var issues, warnings := patrol.issues, patrol.warnings;
        patrol.ExamineConstant(name, n.line);
        Accumulate(patrol.DenyRules(), chain, last, patrol.context, old(patrol.issues), issues, patrol.issues);
        Accumulate(patrol.WarnRules(), chain, last, patrol.context, old(patrol.warnings), warnings, patrol.warnings);
        assert chain[..last + 1] == chain;
      } else {
        name := "?";
        AllFindingsNil(patrol.DenyRules(), patrol.context);
        AllFindingsNil(patrol.WarnRules(), patrol.context);
      }
    }
  }
}
