/**
 * The older patrol, a separate implementation with its own rules.
 *
 * It splits each string on white space and matches whole tokens, so a word
 * with punctuation attached does not match. Under the "first" policy the
 * first deny or warn hit ends the whole string. Constant names go through
 * the same matcher as words. The configuration must name at least one
 * watchlist.
 */
module LegacyPatrols {
  import opened Wrappers
  import opened Text
  import opened Config
  import opened Issues
  import opened Ast
  import Watchlist
  import Patrols

  /** The regular-expression engine: whether `re` matches anywhere in a
      token. */
  type RegexTester = (string, string) -> bool

  // ---------------------------------------------------------------------------
  // Matching

  /** `word_matches_expression?`: `/re/` matches where the regex does (or,
      since every branch falls through to it, on plain equality); an
      all-lower-case expression equals the token down-cased; any other
      expression only equals the token exactly. */
  function WordMatchesExpression(word: string, expression: string, test: RegexTester): (r: bool)
    ensures Watchlist.RegexSource(expression).Some? ==>
      (r <==> test(Watchlist.RegexSource(expression).value, word) || expression == word)
    ensures Watchlist.RegexSource(expression).None? && IsLowercase(expression) ==>
      (r <==> Downcase(word) == expression)
    ensures Watchlist.RegexSource(expression).None? && !IsLowercase(expression) ==>
      (r <==> word == expression)
  {
    DowncaseFixedPoint(expression);
    match Watchlist.RegexSource(expression)
    case Some(re) => test(re, word) || expression == word
    case None =>
      if Downcase(expression) == expression then Downcase(word) == Downcase(expression) || expression == word
      else expression == word
  }

  /** `watchlist_match?` for one list: whether some expression matches. */
  function AnyMatches(expressions: seq<string>, word: string, test: RegexTester): (r: bool)
    ensures r <==> exists k :: 0 <= k < |expressions| && WordMatchesExpression(word, expressions[k], test)
  {
    if expressions == [] then false
    else if WordMatchesExpression(word, expressions[0], test) then true
    else
      var r := AnyMatches(expressions[1..], word, test);
      assert forall k :: 1 <= k < |expressions| ==> expressions[k] == expressions[1..][k - 1];
      r
  }

  // ---------------------------------------------------------------------------
  // Configuration

  const WatchlistKinds: seq<string> := ["words", "constants"]

  /** A validated watchlist: the expressions under each kind; an absent kind
      holds none. */
  datatype Lists = Lists(words: seq<string>, constants: seq<string>)

  /** Errors the constructor raises. `NotAString` is the model's: the source
      accepts an array holding other values, and fails when it first tries to
      match one. */
  datatype LegacyError =
    | NoWatchlist
    | NotAListHash(list: string)
    | UnrecognizedType(list: string, key: string)
    | NotAList(list: string, key: string)
    | NotAString(list: string, key: string)

  predicate StringItems(v: Value) {
    v.List? && forall i :: 0 <= i < |v.items| ==> v.items[i].Str?
  }

  /** The strings of an array of strings, in order; nothing otherwise. */
  function ItemStrings(v: Value): (r: seq<string>)
    ensures StringItems(v) ==> |r| == |v.items| && forall i :: 0 <= i < |v.items| ==> v.items[i] == Str(r[i])
    ensures !StringItems(v) ==> r == []
  {
    if StringItems(v) then seq(|v.items|, i requires 0 <= i < |v.items| => v.items[i].s) else []
  }

  /** The checks of `validate_watchlists` for one list, key by key. */
  function CheckEntries(list: string, es: Entries): (r: Option<LegacyError>)
    ensures r.None? <==> forall k :: 0 <= k < |es| ==> es[k].0 in WatchlistKinds && StringItems(es[k].1)
    ensures r.Some? ==> !r.value.NoWatchlist?
  {
    if es == [] then None
    else if es[0].0 !in WatchlistKinds then Some(UnrecognizedType(list, es[0].0))
    else if !es[0].1.List? then Some(NotAList(list, es[0].0))
    else if !StringItems(es[0].1) then Some(NotAString(list, es[0].0))
    else
      var r := CheckEntries(list, es[1..]);
      assert forall k :: 1 <= k < |es| ==> es[k] == es[1..][k - 1];
      r
  }

  /** An accepted list: absent, or a hash whose keys are kinds and whose
      values are arrays of strings. */
  predicate Accepted(v: Value) {
    !Truthy(v) || (v.Hash? && forall k :: 0 <= k < |v.entries| ==> v.entries[k].0 in WatchlistKinds && StringItems(v.entries[k].1))
  }

  /** `@config["deny"] || {}` */
  function OrEmpty(v: Value): Value {
    if Truthy(v) then v else Hash([])
  }

  /** The lists of an accepted hash: each kind's strings, in order, and none
      for an absent kind. */
  function ListsOf(v: Value): (r: Lists)
    requires v.Hash?
    ensures StringItems(Get(v.entries, "words")) ==>
      |r.words| == |Get(v.entries, "words").items| &&
      forall i :: 0 <= i < |r.words| ==> Get(v.entries, "words").items[i] == Str(r.words[i])
    ensures StringItems(Get(v.entries, "constants")) ==>
      |r.constants| == |Get(v.entries, "constants").items| &&
      forall i :: 0 <= i < |r.constants| ==> Get(v.entries, "constants").items[i] == Str(r.constants[i])
    ensures !HasKey(v.entries, "words") ==> r.words == []
    ensures !HasKey(v.entries, "constants") ==> r.constants == []
  {
    Lists(ItemStrings(Get(v.entries, "words")), ItemStrings(Get(v.entries, "constants")))
  }

  /** The constructor: defaults, then `validate_watchlists`. */
  function LegacySetup(config: Entries): (r: Result<(Lists, Lists), LegacyError>)
    ensures r.Ok? <==>
      && Accepted(Get(config, "deny")) && Accepted(Get(config, "warn"))
      && (OrEmpty(Get(config, "deny")).entries != [] || OrEmpty(Get(config, "warn")).entries != [])
    ensures r == Err(NoWatchlist) <==>
      && (!Truthy(Get(config, "deny")) || Get(config, "deny").Hash?)
      && OrEmpty(Get(config, "deny")).entries == []
      && (!Truthy(Get(config, "warn")) || Get(config, "warn").Hash?)
      && OrEmpty(Get(config, "warn")).entries == []
    ensures r.Ok? ==>
      && OrEmpty(Get(config, "deny")).Hash? && OrEmpty(Get(config, "warn")).Hash?
      && r.value == (ListsOf(OrEmpty(Get(config, "deny"))), ListsOf(OrEmpty(Get(config, "warn"))))
  {
    var deny, warn := OrEmpty(Get(config, "deny")), OrEmpty(Get(config, "warn"));
    if !deny.Hash? then Err(NotAListHash("denylist"))
    else if deny.entries == [] && !warn.Hash? then Err(NotAListHash("warnlist"))
    else if deny.entries == [] && warn.entries == [] then Err(NoWatchlist)
    else match CheckEntries("denylist", deny.entries)
      case Some(e) => Err(e)
      case None =>
        if !warn.Hash? then Err(NotAListHash("warnlist"))
        else match CheckEntries("warnlist", warn.entries)
          case Some(e) => Err(e)
          case None => Ok((ListsOf(deny), ListsOf(warn)))
  }

  /** A deny list of words alone: those words are what the patrols check,
      and the warn list is empty. */
  lemma LegacyConfiguredLists()
    ensures LegacySetup([("deny", Hash([("words", List([Str("lorem")]))]))]) ==
      Ok((Lists(["lorem"], []), Lists([], [])))
  {
    var hs := [("words", List([Str("lorem")]))];
    var config := [("deny", Hash(hs))];
    assert Get(config, "deny") == Hash(hs);
    assert Get(config, "warn") == Nil;
    assert Get(hs, "words") == List([Str("lorem")]);
    assert Get(hs, "constants") == Nil;
    assert StringItems(List([Str("lorem")]));
    var ws := ItemStrings(List([Str("lorem")]));
    assert |ws| == 1 && Str(ws[0]) == Str("lorem");
    assert ws == ["lorem"];
    assert Get([], "words") == Nil && Get([], "constants") == Nil;
  }

  // ---------------------------------------------------------------------------
  // What a probe yields

  /** The issues and warnings one piece of work adds. */
  datatype Report = Report(issues: seq<Issue>, warnings: seq<Issue>)

  /** A patrol's rules: both lists, the `all` policy and the regex engine. */
  datatype Rules = Rules(deny: Lists, warn: Lists, all: bool, test: RegexTester)

  /** `examine_string` over the tokens: for each token the deny check, then
      the warn check; under "first" the first hit ends the string. */
  function TokenFindings(r: Rules, tokens: seq<string>, file: string, line: nat): Report
    decreases |tokens|
  {
    if tokens == [] then Report([], [])
    else
      var here := TokenReport(r, tokens[0], file, line);
      if Stops(r, tokens[0]) then here
      else
        var rest := TokenFindings(r, tokens[1..], file, line);
        Report(here.issues + rest.issues, here.warnings + rest.warnings)
  }

  /** What one token adds: an issue if the deny list matches it, and a
      warning if the warn list does and the deny hit did not end the loop. */
  function TokenReport(r: Rules, t: string, file: string, line: nat): Report {
    var one := [Issue(Patrols.ExpressionMessage(t), file, line)];
    var denied := AnyMatches(r.deny.words, t, r.test);
    if denied && !r.all then Report(one, [])
    else Report(if denied then one else [], if AnyMatches(r.warn.words, t, r.test) then one else [])
  }

  /** Whether the token ends the loop: a hit under "first". */
  predicate Stops(r: Rules, t: string) {
    (AnyMatches(r.deny.words, t, r.test) || AnyMatches(r.warn.words, t, r.test)) && !r.all
  }

  /** `examine_constant`: the deny and the warn check run independently. */
  function NameFindings(r: Rules, name: string, file: string, line: nat): (rep: Report)
    ensures rep.issues == (if AnyMatches(r.deny.constants, name, r.test)
                            then [Issue(Patrols.ConstantMessage(name), file, line)] else [])
    ensures rep.warnings == (if AnyMatches(r.warn.constants, name, r.test)
                              then [Issue(Patrols.ConstantMessage(name), file, line)] else [])
  {
    Report(if AnyMatches(r.deny.constants, name, r.test) then [Issue(Patrols.ConstantMessage(name), file, line)] else [],
           if AnyMatches(r.warn.constants, name, r.test) then [Issue(Patrols.ConstantMessage(name), file, line)] else [])
  }

  function Findings(r: Rules, p: Probe, file: string): Report {
    match p
    case TextProbe(text, line) => TokenFindings(r, Tokens(text), file, line)
    case NameProbe(name, line) => NameFindings(r, name, file, line)
  }

  /** One side of a report. */
  function Side(rep: Report, issues: bool): seq<Issue> {
    if issues then rep.issues else rep.warnings
  }

  /** One side of the findings of a sequence of probes, in order. */
  function AllFindings(r: Rules, ps: seq<Probe>, file: string, issues: bool): seq<Issue> {
    if ps == [] then [] else Side(Findings(r, ps[0], file), issues) + AllFindings(r, ps[1..], file, issues)
  }

  lemma {:induction false} AllFindingsAppend(r: Rules, a: seq<Probe>, b: seq<Probe>, file: string, issues: bool)
    ensures AllFindings(r, a + b, file, issues) == AllFindings(r, a, file, issues) + AllFindings(r, b, file, issues)
    decreases |a|
  {
    if a == [] {
      assert a + b == b;
    } else {
      SplitFront(a, b);
      AllFindingsAppend(r, a[1..], b, file, issues);
      Assoc(Side(Findings(r, a[0], file), issues), AllFindings(r, a[1..], file, issues), AllFindings(r, b, file, issues));
    }
  }

  lemma AllFindingsNil(r: Rules, file: string, issues: bool)
    ensures AllFindings(r, [], file, issues) == []
  {
  }

  lemma {:induction false} AllFindingsOne(r: Rules, p: Probe, file: string, issues: bool)
    ensures AllFindings(r, [p], file, issues) == Side(Findings(r, p, file), issues)
  {
    var one := Side(Findings(r, p, file), issues);
    assert [p][1..] == [];
    assert one + [] == one;
  }

  lemma {:induction false} AllFindingsSnoc(r: Rules, ps: seq<Probe>, i: nat, file: string, issues: bool)
    requires i < |ps|
    ensures AllFindings(r, ps[..i + 1], file, issues) ==
      AllFindings(r, ps[..i], file, issues) + Side(Findings(r, ps[i], file), issues)
  {
    assert ps[..i + 1] == ps[..i] + [ps[i]];
    AllFindingsAppend(r, ps[..i], [ps[i]], file, issues);
    AllFindingsOne(r, ps[i], file, issues);
  }

  /** One more probe's findings appended to what the earlier ones gave. */
  lemma {:induction false} Accumulate(r: Rules, ps: seq<Probe>, i: nat, file: string, issues: bool,
                                      start: seq<Issue>, before: seq<Issue>, after: seq<Issue>)
    requires i < |ps|
    requires before == start + AllFindings(r, ps[..i], file, issues)
    requires after == before + Side(Findings(r, ps[i], file), issues)
    ensures after == start + AllFindings(r, ps[..i + 1], file, issues)
  {
    AllFindingsSnoc(r, ps, i, file, issues);
    Patrols.Reassociate(start, before, after, AllFindings(r, ps[..i], file, issues),
                        Side(Findings(r, ps[i], file), issues), AllFindings(r, ps[..i + 1], file, issues));
  }

  /** One more child's findings appended to what the earlier ones gave. */
  lemma {:induction false} AccumulateChild(r: Rules, cs: seq<Node>, i: nat, file: string, issues: bool,
                                           start: seq<Issue>, before: seq<Issue>, after: seq<Issue>)
    requires i < |cs|
    requires before == start + AllFindings(r, Probes(Other(cs[..i])), file, issues)
    requires after == before + AllFindings(r, Probes(cs[i]), file, issues)
    ensures after == start + AllFindings(r, Probes(Other(cs[..i + 1])), file, issues)
  {
    ChildFindings(r, cs, i, file, issues);
    Patrols.Reassociate(start, before, after, AllFindings(r, Probes(Other(cs[..i])), file, issues),
                        AllFindings(r, Probes(cs[i]), file, issues), AllFindings(r, Probes(Other(cs[..i + 1])), file, issues));
  }

  lemma {:induction false} ChildFindings(r: Rules, cs: seq<Node>, i: nat, file: string, issues: bool)
    requires i < |cs|
    ensures AllFindings(r, Probes(Other(cs[..i + 1])), file, issues) ==
      AllFindings(r, Probes(Other(cs[..i])), file, issues) + AllFindings(r, Probes(cs[i]), file, issues)
  {
    assert cs[..i + 1] == cs[..i] + [cs[i]];
    ChildrenInOrder(cs[..i], cs[i]);
    AllFindingsAppend(r, Probes(Other(cs[..i])), Probes(cs[i]), file, issues);
  }

  /** What the token at `i` contributes, and whether the string goes on. */
  /** One turn of `examine_string`'s loop over the remaining tokens `tail`
      keeps its invariant, or ends the loop with `whole` recorded. */
  lemma {:induction false} TokenAdvance(r: Rules, tail: seq<string>, file: string, line: nat, whole: Report,
                                        startI: seq<Issue>, beforeI: seq<Issue>, afterI: seq<Issue>,
                                        startW: seq<Issue>, beforeW: seq<Issue>, afterW: seq<Issue>)
    requires tail != []
    requires startI + whole.issues == beforeI + TokenFindings(r, tail, file, line).issues
    requires startW + whole.warnings == beforeW + TokenFindings(r, tail, file, line).warnings
    requires afterI == beforeI + TokenReport(r, tail[0], file, line).issues
    requires afterW == beforeW + TokenReport(r, tail[0], file, line).warnings
    ensures Stops(r, tail[0]) ==> startI + whole.issues == afterI && startW + whole.warnings == afterW
    ensures !Stops(r, tail[0]) ==>
      startI + whole.issues == afterI + TokenFindings(r, tail[1..], file, line).issues &&
      startW + whole.warnings == afterW + TokenFindings(r, tail[1..], file, line).warnings
  {
    TokenStep(r, tail, file, line);
    if !Stops(r, tail[0]) {
      var here := TokenReport(r, tail[0], file, line);
      var rest := TokenFindings(r, tail[1..], file, line);
      SideAdvance(startI, whole.issues, beforeI, afterI, here.issues, rest.issues);
      SideAdvance(startW, whole.warnings, beforeW, afterW, here.warnings, rest.warnings);
    }
  }

  /** `TokenFindings` unfolded once. */
  lemma TokenStep(r: Rules, tail: seq<string>, file: string, line: nat)
    requires tail != []
    ensures Stops(r, tail[0]) ==> TokenFindings(r, tail, file, line) == TokenReport(r, tail[0], file, line)
    ensures !Stops(r, tail[0]) ==>
      TokenFindings(r, tail, file, line) ==
        Report(TokenReport(r, tail[0], file, line).issues + TokenFindings(r, tail[1..], file, line).issues,
               TokenReport(r, tail[0], file, line).warnings + TokenFindings(r, tail[1..], file, line).warnings)
  {
  }

  /** One side of the loop step: `here` moves from what is still to come to
      what has been recorded. */
  lemma SideAdvance(start: seq<Issue>, whole: seq<Issue>, before: seq<Issue>, after: seq<Issue>,
                    here: seq<Issue>, rest: seq<Issue>)
    requires start + whole == before + (here + rest)
    requires after == before + here
    ensures start + whole == after + rest
  {
    assert before + (here + rest) == (before + here) + rest;
  }

  // ---------------------------------------------------------------------------
  // Properties of the token rules

  /** Under "first" a string yields at most one finding in all. */
  lemma {:induction false} FirstStopsTheString(r: Rules, tokens: seq<string>, file: string, line: nat)
    requires !r.all
    ensures |TokenFindings(r, tokens, file, line).issues| + |TokenFindings(r, tokens, file, line).warnings| <= 1
    decreases |tokens|
  {
    if tokens != [] {
      FirstStopsTheString(r, tokens[1..], file, line);
    }
  }

  /** The tokens some expression of a list matches, in order. */
  function Matching(expressions: seq<string>, tokens: seq<string>, test: RegexTester): (r: seq<string>)
    ensures forall t :: t in r <==> t in tokens && AnyMatches(expressions, t, test)
    ensures |r| <= |tokens|
  {
    if tokens == [] then []
    else (if AnyMatches(expressions, tokens[0], test) then [tokens[0]] else []) + Matching(expressions, tokens[1..], test)
  }

  function Messages(hits: seq<string>, file: string, line: nat): (r: seq<Issue>)
    ensures |r| == |hits|
    ensures forall k :: 0 <= k < |hits| ==> r[k] == Issue(Patrols.ExpressionMessage(hits[k]), file, line)
  {
    seq(|hits|, k requires 0 <= k < |hits| => Issue(Patrols.ExpressionMessage(hits[k]), file, line))
  }

  /** Under `all` every matching token is reported, on each side
      independently, in token order. */
  lemma {:induction false} AllReportsEveryToken(r: Rules, tokens: seq<string>, file: string, line: nat)
    requires r.all
    ensures TokenFindings(r, tokens, file, line).issues == Messages(Matching(r.deny.words, tokens, r.test), file, line)
    ensures TokenFindings(r, tokens, file, line).warnings == Messages(Matching(r.warn.words, tokens, r.test), file, line)
    decreases |tokens|
  {
    if tokens != [] {
      AllReportsEveryToken(r, tokens[1..], file, line);
      var t := tokens[0];
      assert !Stops(r, t);
      TokenStep(r, tokens, file, line);
      MatchingStep(r.deny.words, tokens, r.test);
      MatchingStep(r.warn.words, tokens, r.test);
      var di := if AnyMatches(r.deny.words, t, r.test) then [t] else [];
      var wi := if AnyMatches(r.warn.words, t, r.test) then [t] else [];
      assert TokenReport(r, t, file, line) == Report(Messages(di, file, line), Messages(wi, file, line));
      MessagesAppend(di, Matching(r.deny.words, tokens[1..], r.test), file, line);
      MessagesAppend(wi, Matching(r.warn.words, tokens[1..], r.test), file, line);
    }
  }

  /** `Matching` keeps token order: the matches of two runs of tokens are
      the matches of the first, then those of the second. */
  lemma {:induction false} MatchingAppend(expressions: seq<string>, a: seq<string>, b: seq<string>, test: RegexTester)
    ensures Matching(expressions, a + b, test) == Matching(expressions, a, test) + Matching(expressions, b, test)
    decreases |a|
  {
    if a == [] {
      assert a + b == b;
    } else {
      SplitFront(a, b);
      MatchingStep(expressions, a + b, test);
      MatchingAppend(expressions, a[1..], b, test);
      var here := if AnyMatches(expressions, a[0], test) then [a[0]] else [];
      Assoc(here, Matching(expressions, a[1..], test), Matching(expressions, b, test));
    }
  }

  /** A single token is kept exactly when some expression matches it. */
  lemma MatchingOne(expressions: seq<string>, t: string, test: RegexTester)
    ensures Matching(expressions, [t], test) == if AnyMatches(expressions, t, test) then [t] else []
  {
    MatchingStep(expressions, [t], test);
    assert [t][1..] == [];
  }

  /** `Matching` unfolded once. */
  lemma MatchingStep(expressions: seq<string>, tokens: seq<string>, test: RegexTester)
    requires tokens != []
    ensures Matching(expressions, tokens, test) ==
      (if AnyMatches(expressions, tokens[0], test) then [tokens[0]] else []) + Matching(expressions, tokens[1..], test)
  {
  }

  lemma MessagesAppend(a: seq<string>, b: seq<string>, file: string, line: nat)
    ensures Messages(a + b, file, line) == Messages(a, file, line) + Messages(b, file, line)
  {
  }

  /** Tokens keep their punctuation, so `lorem` does not match `lorem,`. */
  lemma PunctuationExample(test: RegexTester, file: string)
    ensures TokenFindings(Rules(Lists(["lorem"], []), Lists([], []), false, test), Tokens("lorem, ipsum"), file, 1)
         == Report([], [])
  {
    assert NoSpace("lorem,") && NoSpace("ipsum");
    TwoTokens("lorem,", "ipsum");
    assert "lorem," + " " + "ipsum" == "lorem, ipsum";
    LoremMisses(test, "lorem,", 5, ',');
    LoremMisses(test, "ipsum", 0, 'i');
    var r := Rules(Lists(["lorem"], []), Lists([], []), false, test);
    assert ["lorem,", "ipsum"][1..] == ["ipsum"];
    assert TokenFindings(r, ["ipsum"][1..], file, 1) == Report([], []);
  }

  /** A token with a character `lorem` lacks at `k` does not match it. */
  lemma LoremMisses(test: RegexTester, t: string, k: nat, c: char)
    requires k < |t| && t[k] == c && Lower(c) == c && (k >= 5 || "lorem"[k] != c)
    ensures !AnyMatches(["lorem"], t, test)
  {
    assert Watchlist.RegexSource("lorem").None?;
    DowncaseFixedPoint("lorem");
    assert Downcase(t)[k] == c;
  }

  /** Under "first" a second hit in the same string goes unreported. */
  lemma FirstExample(test: RegexTester, file: string)
    ensures TokenFindings(Rules(Lists(["lorem"], []), Lists([], []), false, test), ["Lorem", "lorem"], file, 1)
         == Report([Issue(Patrols.ExpressionMessage("Lorem"), file, 1)], [])
  {
    DowncaseFixedPoint("lorem");
    assert Downcase("Lorem") == "lorem";
    assert AnyMatches(["lorem"], "Lorem", test);
  }

  // ---------------------------------------------------------------------------
  // The patrols

  /** The state every legacy patrol keeps: its validated lists and what it
      has found. */
  class Patrol {
    const config: Entries
    const deny: Lists
    const warn: Lists
    const test: RegexTester
    /** `@config["all"]`: keep going after a hit. */
    const all: bool
    var issues: seq<Issue>
    var warnings: seq<Issue>
    var context: string

    /** The rules the patrol applies. */
    function PatrolRules(): Rules {
      Rules(deny, warn, all, test)
    }

    constructor (config: Entries, test: RegexTester)
      requires LegacySetup(config).Ok?
      ensures this.config == config && this.test == test
      ensures all == Truthy(Get(config, "all"))
      ensures LegacySetup(config) == Ok((deny, warn))
      ensures issues == [] && warnings == [] && context == ""
    {
      var lists := LegacySetup(config).value;
      this.config := config;
      this.test := test;
      all := Truthy(Get(config, "all"));
      deny := lists.0;
      warn := lists.1;
      issues := [];
      warnings := [];
      context := "";
    }

    /** `reset` */
    method Reset()
      modifies this
      ensures issues == [] && warnings == []
      ensures context == old(context)
    {
      issues := [];
      warnings := [];
    }

    /** `issues?` */
    predicate HasIssues()
      reads this
    {
      issues != []
    }

    /** `warnings?` */
    predicate HasWarnings()
      reads this
    {
      warnings != []
    }

    method AddIssue(description: string, line: nat)
      modifies this
      ensures issues == old(issues) + [Issue(description, context, line)]
      ensures warnings == old(warnings) && context == old(context)
    {
      issues := issues + [Issue(description, context, line)];
    }

    method AddWarning(description: string, line: nat)
      modifies this
      ensures warnings == old(warnings) + [Issue(description, context, line)]
      ensures issues == old(issues) && context == old(context)
    {
      warnings := warnings + [Issue(description, context, line)];
    }

    /** The shared part of `examine`. */
    method Examine(context: string) returns (found: bool)
      modifies this
      ensures this.context == context
      ensures issues == old(issues) && warnings == old(warnings)
      ensures found <==> issues != []
    {
      this.context := context;
      found := issues != [];
    }

    /** `watchlist_match?`: search one list of expressions, stopping at the
        first that matches. */
    method WatchlistMatch(expressions: seq<string>, word: string) returns (found: bool)
      ensures found <==> exists k :: 0 <= k < |expressions| && WordMatchesExpression(word, expressions[k], test)
      ensures found == AnyMatches(expressions, word, test)
    {
      for i := 0 to |expressions|
        invariant forall k :: 0 <= k < i ==> !WordMatchesExpression(word, expressions[k], test)
      {
        if WordMatchesExpression(word, expressions[i], test) {
          return true;
        }
      }
      return false;
    }

    /** `examine_constant` */
    method ExamineConstant(name: string, line: nat)
      modifies this
      ensures issues == old(issues) + NameFindings(PatrolRules(), name, context, line).issues
      ensures warnings == old(warnings) + NameFindings(PatrolRules(), name, context, line).warnings
      ensures context == old(context)
    {
      var denied := WatchlistMatch(deny.constants, name);
      if denied {
        AddIssue(Patrols.ConstantMessage(name), line);
      }
      var warned := WatchlistMatch(warn.constants, name);
      if warned {
        AddWarning(Patrols.ConstantMessage(name), line);
      }
    }

    /** `examine_string`: token by token, the deny check and then the warn
        check; unless `all` is set a hit ends the loop. */
    method ExamineString(text: string, line: nat)
      modifies this
      ensures issues == old(issues) + TokenFindings(PatrolRules(), Tokens(text), context, line).issues
      ensures warnings == old(warnings) + TokenFindings(PatrolRules(), Tokens(text), context, line).warnings
      ensures context == old(context)
    {
      var words := Tokens(text);
      ghost var r := PatrolRules();
      ghost var whole := TokenFindings(r, words, context, line);
      var i := 0;
      while i < |words|
        invariant i <= |words|
        invariant context == old(context)
        invariant old(issues) + whole.issues == issues + TokenFindings(r, words[i..], context, line).issues
        invariant old(warnings) + whole.warnings == warnings + TokenFindings(r, words[i..], context, line).warnings
      {
        ghost var issues0, warnings0 := issues, warnings;
        var stop := ExamineToken(words[i], line);
        assert words[i..][0] == words[i] && words[i..][1..] == words[i + 1..];
        TokenAdvance(r, words[i..], context, line, whole, old(issues), issues0, issues, old(warnings), warnings0, warnings);
        if stop {
          break;
        }
        i := i + 1;
      }
      assert words[|words|..] == [];
    }

    /** The body of `examine_string`'s loop for one token; `stop` is the
        `break`. */
    method ExamineToken(word: string, line: nat) returns (stop: bool)
      modifies this
      ensures stop == Stops(PatrolRules(), word)
      ensures issues == old(issues) + TokenReport(PatrolRules(), word, context, line).issues
      ensures warnings == old(warnings) + TokenReport(PatrolRules(), word, context, line).warnings
      ensures context == old(context)
    {
      var denied := WatchlistMatch(deny.words, word);
      if denied {
        AddIssue(Patrols.ExpressionMessage(word), line);
        if !all {
          return true;
        }
      }
      var warned := WatchlistMatch(warn.words, word);
      if warned {
        AddWarning(Patrols.ExpressionMessage(word), line);
        if !all {
          return true;
        }
      }
      return false;
    }
  }

  /** A legacy patrol over text, line by line. */
  class LinePatrol {
    const patrol: Patrol

    constructor (config: Entries, test: RegexTester)
      requires LegacySetup(config).Ok?
      ensures fresh(patrol)
      ensures patrol.config == config && patrol.test == test
      ensures LegacySetup(config) == Ok((patrol.deny, patrol.warn)) && patrol.all == Truthy(Get(config, "all"))
      ensures patrol.issues == [] && patrol.warnings == []
    {
      patrol := new Patrol(config, test);
    }

    /** `examine`: check every line in order, with its line number. */
    method Examine(source: string, context: string) returns (found: bool)
      modifies patrol
      ensures patrol.context == context
      ensures patrol.issues == old(patrol.issues) + AllFindings(patrol.PatrolRules(), Patrols.LineProbes(source), context, true)
      ensures patrol.warnings == old(patrol.warnings) + AllFindings(patrol.PatrolRules(), Patrols.LineProbes(source), context, false)
      ensures found <==> patrol.issues != []
    {
      var _ := patrol.Examine(context);
      var lines := Lines(source);
      ghost var probes := Patrols.LineProbes(source);
      var lineno := 0;
      for i := 0 to |lines|
        invariant lineno == i
        invariant patrol.context == context
        invariant patrol.issues == old(patrol.issues) + AllFindings(patrol.PatrolRules(), probes[..i], context, true)
        invariant patrol.warnings == old(patrol.warnings) + AllFindings(patrol.PatrolRules(), probes[..i], context, false)
      {
        lineno := lineno + 1;
        ghost var issues, warnings := patrol.issues, patrol.warnings;
        patrol.ExamineString(lines[i], lineno);
        Accumulate(patrol.PatrolRules(), probes, i, context, true, old(patrol.issues), issues, patrol.issues);
        Accumulate(patrol.PatrolRules(), probes, i, context, false, old(patrol.warnings), warnings, patrol.warnings);
      }
      assert probes[..|lines|] == probes;
      found := patrol.HasIssues();
    }
  }

  /** A legacy patrol over Ruby code, through its syntax tree. */
  class CodePatrol {
    const patrol: Patrol

    constructor (config: Entries, test: RegexTester)
      requires LegacySetup(config).Ok?
      ensures fresh(patrol)
      ensures patrol.config == config && patrol.test == test
      ensures LegacySetup(config) == Ok((patrol.deny, patrol.warn)) && patrol.all == Truthy(Get(config, "all"))
      ensures patrol.issues == [] && patrol.warnings == []
    {
      patrol := new Patrol(config, test);
    }

    /** `examine`: walk the tree, if the source parsed. */
    method Examine(tree: Option<Node>, context: string) returns (found: bool)
      modifies patrol
      ensures patrol.context == context
      ensures patrol.issues == old(patrol.issues) + AllFindings(patrol.PatrolRules(), Patrols.TreeProbes(tree), context, true)
      ensures patrol.warnings == old(patrol.warnings) + AllFindings(patrol.PatrolRules(), Patrols.TreeProbes(tree), context, false)
      ensures found <==> patrol.issues != []
    {
      var _ := patrol.Examine(context);
      if tree.Some? {
        TraverseAst(tree.value);
      } else {
        assert AllFindings(patrol.PatrolRules(), [], context, true) == [];
        assert AllFindings(patrol.PatrolRules(), [], context, false) == [];
      }
      found := patrol.HasIssues();
    }

    /** `traverse_ast` */
    method TraverseAst(n: Node)
      modifies patrol
      ensures patrol.context == old(patrol.context)
      ensures patrol.issues == old(patrol.issues) + AllFindings(patrol.PatrolRules(), Probes(n), patrol.context, true)
      ensures patrol.warnings == old(patrol.warnings) + AllFindings(patrol.PatrolRules(), Probes(n), patrol.context, false)
      decreases n
    {
      match n
      case StrNode(value, line) =>
        AllFindingsOne(patrol.PatrolRules(), TextProbe(value, line), patrol.context, true);
        AllFindingsOne(patrol.PatrolRules(), TextProbe(value, line), patrol.context, false);
        patrol.ExamineString(value, line);
      case ConstNode(_, _, _) =>
        var _ := TraverseConst(n);
      case Other(cs) =>
        for i := 0 to |cs|
          invariant patrol.context == old(patrol.context)
          invariant patrol.issues == old(patrol.issues) + AllFindings(patrol.PatrolRules(), Probes(Other(cs[..i])), patrol.context, true)
          invariant patrol.warnings == old(patrol.warnings) + AllFindings(patrol.PatrolRules(), Probes(Other(cs[..i])), patrol.context, false)
        {
          ghost var issues, warnings := patrol.issues, patrol.warnings;
          TraverseAst(cs[i]);
          AccumulateChild(patrol.PatrolRules(), cs, i, patrol.context, true, old(patrol.issues), issues, patrol.issues);
          AccumulateChild(patrol.PatrolRules(), cs, i, patrol.context, false, old(patrol.warnings), warnings, patrol.warnings);
        }
        assert cs[..|cs|] == cs;
    }

    /** `traverse_const`: check the scope first, then the full name. */
    method TraverseConst(n: Node) returns (name: string)
      modifies patrol
      ensures name == ConstChain(n).0
      ensures patrol.context == old(patrol.context)
      ensures patrol.issues == old(patrol.issues) + AllFindings(patrol.PatrolRules(), ConstChain(n).1, patrol.context, true)
      ensures patrol.warnings == old(patrol.warnings) + AllFindings(patrol.PatrolRules(), ConstChain(n).1, patrol.context, false)
      decreases n
    {
      if n.ConstNode? {
        ChainStep(n);
        ghost var chain := ConstChain(n).1;
        ghost var last := |chain| - 1;
        if n.scope.Some? {
          var inner := TraverseConst(n.scope.value);
          name := inner + "::" + n.name;
        } else {
          name := n.name;
          AllFindingsNil(patrol.PatrolRules(), patrol.context, true);
          AllFindingsNil(patrol.PatrolRules(), patrol.context, false);
        }
        ghost var issues, warnings := patrol.issues, patrol.warnings;
        patrol.ExamineConstant(name, n.line);
        Accumulate(patrol.PatrolRules(), chain, last, patrol.context, true, old(patrol.issues), issues, patrol.issues);
        Accumulate(patrol.PatrolRules(), chain, last, patrol.context, false, old(patrol.warnings), warnings, patrol.warnings);
        assert chain[..last + 1] == chain;
      } else {
        name := "?";
        AllFindingsNil(patrol.PatrolRules(), patrol.context, true);
        AllFindingsNil(patrol.PatrolRules(), patrol.context, false);
      }
    }
  }
}
