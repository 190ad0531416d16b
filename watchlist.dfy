/**
 * Watchlists: the configured patterns and how they are found in text.
 *
 * A word watchlist holds pattern strings in configured order. Each round of a
 * scan tries the patterns in that order against the text still left; the first
 * pattern that matches anywhere wins the round, its hit is recorded, and the
 * scan goes on with the text after the match. A constant watchlist is a plain
 * membership test on fully qualified names.
 */
module Watchlist {
  import opened Wrappers
  import opened Text
  import opened Config

  // ---------------------------------------------------------------------------
  // The regular-expression engine is outside the model: `find(re, text)` gives
  // the span of the leftmost match of `re` in `text`, if there is one.

  datatype Span = Span(start: nat, end: nat)

  type RegexFinder = (string, string) -> Option<Span>

  /** A span lies inside the text and is not empty: on an empty match the
      source would scan the same text again, forever. */
  ghost predicate Sound(find: RegexFinder) {
    forall re: string, text: string :: find(re, text).Some? ==>
      find(re, text).value.start < find(re, text).value.end <= |text|
  }

  // ---------------------------------------------------------------------------
  // Classifying a configured string

  datatype Pattern =
    | Regex(source: string)
    | CaseInsensitiveWord(word: string)
    | Word(word: string)

  /** `\A/(.*)/\Z`: slashes around text without a line feed; `\Z` also
      accepts one final line feed after the closing slash. */
  function RegexSource(e: string): (r: Option<string>)
    ensures r.Some? ==> |r.value| + 2 <= |e| && e[0] == '/' && e[1..|r.value| + 1] == r.value
    ensures r.Some? ==> forall k :: 0 <= k < |r.value| ==> r.value[k] != '\n'
  {
    if |e| >= 2 && e[0] == '/' && e[|e| - 1] == '/' && '\n' !in e[1..|e| - 1] then
      Some(e[1..|e| - 1])
    else if |e| >= 3 && e[0] == '/' && e[|e| - 2] == '/' && e[|e| - 1] == '\n' && '\n' !in e[1..|e| - 2] then
      Some(e[1..|e| - 2])
    else
      None
  }

  /** Slashed text is a regex, all-lower-case text a case-insensitive word,
      anything else a case-sensitive word. */
  function Classify(e: string): (p: Pattern)
    ensures p.Regex? <==> RegexSource(e).Some?
    ensures p.Regex? ==> p.source == RegexSource(e).value
    ensures p.CaseInsensitiveWord? <==> RegexSource(e).None? && Downcase(e) == e
    ensures p.Word? <==> RegexSource(e).None? && Downcase(e) != e
    ensures !p.Regex? ==> p.word == e
  {
    DowncaseFixedPoint(e);
    match RegexSource(e)
    case Some(re) => Regex(re)
    case None => if IsLowercase(e) then CaseInsensitiveWord(e) else Word(e)
  }

  /** A word pattern must not be empty: an empty word matches the empty rest
      of a text without consuming anything. */
  predicate ValidExpressions(exprs: seq<string>) {
    forall i :: 0 <= i < |exprs| ==> RegexSource(exprs[i]).Some? || exprs[i] != []
  }

  // ---------------------------------------------------------------------------
  // Word matching: `(\W|\A)(word)(\W|\z)`, optionally ignoring case.

  predicate SameChar(a: char, b: char, ci: bool) {
    if ci then Lower(a) == Lower(b) else a == b
  }

  /** `w` occurs at `q`, bounded on both sides by a non-word character or an
      edge of the text. */
  predicate BoundedAt(text: string, w: string, ci: bool, q: nat) {
    && q + |w| <= |text|
    && (forall i :: 0 <= i < |w| ==> SameChar(text[q + i], w[i], ci))
    && (q == 0 || !IsWordChar(text[q - 1]))
    && (q + |w| == |text| || !IsWordChar(text[q + |w|]))
  }

  /** The order in which the regex engine meets word positions: from start
      position 0 it tries "a non-word character, then the word" (word at 1)
      before "the start of the text, then the word" (word at 0); from start
      position s > 0 only the first applies (word at s + 1). */
  function Rank(q: nat): nat {
    if q == 0 then 1 else if q == 1 then 0 else q
  }

  /** Ranks already tried before the engine starts at position `s`. */
  function Tried(s: nat): nat {
    if s == 0 then 0 else s + 1
  }

  function FindWordFrom(text: string, w: string, ci: bool, s: nat): (r: Option<nat>)
    requires s <= |text|
    requires forall q :: 0 <= q <= |text| && Rank(q) < Tried(s) ==> !BoundedAt(text, w, ci, q)
    ensures r.Some? ==> BoundedAt(text, w, ci, r.value)
    ensures r.Some? ==> forall q :: 0 <= q <= |text| && Rank(q) < Rank(r.value) ==> !BoundedAt(text, w, ci, q)
    ensures r.None? ==> forall q :: 0 <= q <= |text| ==> !BoundedAt(text, w, ci, q)
    decreases |text| - s
  {
    if s < |text| && BoundedAt(text, w, ci, s + 1) then
      assert Rank(s + 1) == Tried(s);
      Some(s + 1)
    else if s == 0 && BoundedAt(text, w, ci, 0) then Some(0)
    else if s == |text| then
      assert forall q :: 0 <= q <= |text| ==> Rank(q) < Tried(s) || (q == 0 && s == 0);
      None
    else
      assert forall q :: 0 <= q <= |text| && Rank(q) < Tried(s + 1) ==>
        Rank(q) < Tried(s) || q == s + 1 || (s == 0 && q == 0);
      FindWordFrom(text, w, ci, s + 1)
  }

  /** Where the engine finds `w`: the first bounded occurrence in its order,
      or none when there is no bounded occurrence at all. */
  function FindWord(text: string, w: string, ci: bool): (r: Option<nat>)
    ensures r.Some? ==> BoundedAt(text, w, ci, r.value)
    ensures r.Some? ==> forall q :: 0 <= q <= |text| && Rank(q) < Rank(r.value) ==> !BoundedAt(text, w, ci, q)
    ensures r.None? ==> forall q :: 0 <= q <= |text| ==> !BoundedAt(text, w, ci, q)
  {
    FindWordFrom(text, w, ci, 0)
  }

  // ---------------------------------------------------------------------------
  // One pattern against one text

  /** A hit is `text[start..end]`; the scan goes on with `text[next..]`. */
  datatype Match = Match(start: nat, end: nat, next: nat)

  function WordMatch(text: string, w: string, ci: bool): (r: Option<Match>)
    requires w != []
    ensures r.Some? ==> r.value.start < r.value.end <= r.value.next <= |text|
  {
    match FindWord(text, w, ci)
    case None => None
    case Some(q) =>
      var e := q + |w|;
      // the boundary character after the word belongs to the match
      Some(Match(q, e, if e < |text| then e + 1 else e))
  }

  function MatchPattern(p: Pattern, text: string, find: RegexFinder): (r: Option<Match>)
    requires Sound(find)
    requires !p.Regex? ==> p.word != []
    ensures r.Some? ==> r.value.start < r.value.end <= r.value.next <= |text|
    ensures p.Regex? ==> (r.Some? <==> find(p.source, text).Some?)
    ensures p.Regex? && r.Some? ==>
      var sp := find(p.source, text).value;
      r.value.start == sp.start && r.value.end == sp.end && r.value.next == sp.end
  {
    match p
    case Regex(re) =>
      (match find(re, text)
       case None => None
       case Some(sp) => Some(Match(sp.start, sp.end, sp.end)))
    case CaseInsensitiveWord(w) => WordMatch(text, w, true)
    case Word(w) => WordMatch(text, w, false)
  }

  function MatchExpression(exprs: seq<string>, i: nat, text: string, find: RegexFinder): (r: Option<Match>)
    requires Sound(find) && ValidExpressions(exprs) && i < |exprs|
    ensures r.Some? ==> r.value.start < r.value.end <= r.value.next <= |text|
  {
    MatchPattern(Classify(exprs[i]), text, find)
  }

  /** What each pattern, in list order, matches in the text. */
  function Candidates(exprs: seq<string>, text: string, find: RegexFinder): (ms: seq<Option<Match>>)
    requires Sound(find) && ValidExpressions(exprs)
    ensures |ms| == |exprs|
    ensures forall i :: 0 <= i < |exprs| ==> ms[i] == MatchExpression(exprs, i, text, find)
  {
    seq(|exprs|, i requires 0 <= i < |exprs| => MatchExpression(exprs, i, text, find))
  }

  /** The index of the pattern that wins a round: the first, from `from` on,
      that matches anywhere in the text. */
  function Winner(ms: seq<Option<Match>>, from: nat): (r: Option<nat>)
    requires from <= |ms|
    ensures r.Some? ==> from <= r.value < |ms| && ms[r.value].Some?
    ensures r.Some? ==> forall j :: from <= j < r.value ==> ms[j].None?
    ensures r.None? ==> forall j :: from <= j < |ms| ==> ms[j].None?
    decreases |ms| - from
  {
    if from == |ms| then None
    else if ms[from].Some? then Some(from)
    else Winner(ms, from + 1)
  }

  /** The match of one round of the scan. */
  function RoundMatch(exprs: seq<string>, text: string, find: RegexFinder): (r: Option<Match>)
    requires Sound(find) && ValidExpressions(exprs)
    ensures r.Some? ==> r.value.start < r.value.end <= r.value.next <= |text|
  {
    var ms := Candidates(exprs, text, find);
    match Winner(ms, 0)
    case None => None
    case Some(i) => ms[i]
  }

  /** All hits of a scan, round after round. */
  function ScanHits(exprs: seq<string>, text: string, find: RegexFinder): seq<string>
    requires Sound(find) && ValidExpressions(exprs)
    decreases |text|
  {
    match RoundMatch(exprs, text, find)
    case None => []
    case Some(m) => [text[m.start..m.end]] + ScanHits(exprs, text[m.next..], find)
  }

  // ---------------------------------------------------------------------------
  // The watchlists

  datatype WordWatchlist = WordWatchlist(expressions: seq<string>) {

    /** `match?`: try the patterns in order, return the first match. */
    method MatchOnce(text: string, find: RegexFinder) returns (r: Option<Match>)
      requires Sound(find) && ValidExpressions(expressions)
      ensures r == RoundMatch(expressions, text, find)
    {
      ghost var ms := Candidates(expressions, text, find);
      for i := 0 to |expressions|
        invariant Winner(ms, 0) == Winner(ms, i)
      {
        var m := MatchPattern(Classify(expressions[i]), text, find);
        if m.Some? {
          return m;
        }
      }
      return None;
    }

    /** `scan`: collect hits while some pattern matches what is left. */
    method Scan(text: string, find: RegexFinder) returns (results: seq<string>)
      requires Sound(find) && ValidExpressions(expressions)
      ensures results == ScanHits(expressions, text, find)
    {
      results := [];
      var rest := text;
      var m := MatchOnce(rest, find);
      while m.Some?
        invariant m == RoundMatch(expressions, rest, find)
        invariant results + ScanHits(expressions, rest, find) == ScanHits(expressions, text, find)
        decreases |rest|
      {
        var hit := m.value;
        ScanAdvance(expressions, text, rest, find, hit, results);
        results := results + [rest[hit.start..hit.end]];
        rest := rest[hit.next..];
        m := MatchOnce(rest, find);
      }
      ScanDone(expressions, text, rest, find, results);
    }
  }

  datatype ConstantWatchlist = ConstantWatchlist(expressions: seq<string>) {

    /** `scan`: the name itself when it is exactly one of the expressions. */
    function Scan(name: string): (r: seq<string>)
      ensures r != [] <==> name in expressions
      ensures r != [] ==> r == [name]
    {
      if name in expressions then [name] else []
    }
  }

  // ---------------------------------------------------------------------------
  // A deny or warn half of the configuration

  datatype WatchlistSet = WatchlistSet(words: WordWatchlist, constants: ConstantWatchlist)

  const WatchlistKinds: seq<string> := ["words", "constants"]

  /** Configuration errors. The source raises ArgumentError for unknown kinds;
      for a list that is not a list of strings it fails later, at the first
      scan, and on an empty word pattern its scan yields empty hits and,
      on the empty text or a text ending in a non-word character, never ends; the model
      reports both here. */
  datatype SetupError =
    | NotAWatchlistHash
    | UnknownWatchlistTypes(kinds: seq<string>)
    | NotAStringList(kind: string)
    | EmptyWordPattern

  /** `@watchlists.keys - WATCHLIST_KINDS`, in order. */
  function UnknownKinds(es: Entries): (r: seq<string>)
    ensures forall k :: k in r <==> (k in Keys(es) && k !in WatchlistKinds)
  {
    if es == [] then []
    else
      var rest := UnknownKinds(es[1..]);
      assert Keys(es) == [es[0].0] + Keys(es[1..]);
      if es[0].0 in WatchlistKinds then rest else [es[0].0] + rest
  }

  /** `expressions || []` for a list of strings. */
  function StringList(v: Value): (r: Option<seq<string>>)
    ensures !Truthy(v) ==> r == Some([])
    ensures Truthy(v) ==> (r.Some? <==> v.List? && forall i :: 0 <= i < |v.items| ==> v.items[i].Str?)
    ensures Truthy(v) && r.Some? ==>
      |r.value| == |v.items| && forall i :: 0 <= i < |v.items| ==> v.items[i] == Str(r.value[i])
  {
    if !Truthy(v) then Some([])
    else if v.List? && forall i :: 0 <= i < |v.items| ==> v.items[i].Str? then
      Some(seq(|v.items|, i requires 0 <= i < |v.items| => v.items[i].s))
    else None
  }

  /** `expressions || []` for constants: the strings of a list; nothing else
      in it can equal a name. */
  function ConstantList(v: Value): (r: Option<seq<string>>)
    ensures !Truthy(v) ==> r == Some([])
    ensures Truthy(v) ==> (r.Some? <==> v.List?)
    ensures Truthy(v) && r.Some? ==> forall t :: t in r.value <==> Str(t) in v.items
  {
    if !Truthy(v) then Some([])
    else if v.List? then Some(StringsOf(v.items))
    else None
  }

  function StringsOf(vs: seq<Value>): (r: seq<string>)
    ensures forall t :: t in r <==> Str(t) in vs
  {
    if vs == [] then []
    else
      var front := StringsOf(vs[..|vs| - 1]);
      assert vs == vs[..|vs| - 1] + [vs[|vs| - 1]];
      if vs[|vs| - 1].Str? then front + [vs[|vs| - 1].s] else front
  }

  function NewWatchlistSet(v: Value): (r: Result<WatchlistSet, SetupError>)
    ensures !Truthy(v) ==> r == Ok(WatchlistSet(WordWatchlist([]), ConstantWatchlist([])))
    ensures Truthy(v) && !v.Hash? ==> r == Err(NotAWatchlistHash)
    ensures r.Err? && r.error.UnknownWatchlistTypes? <==>
      v.Hash? && exists k :: k in Keys(v.entries) && k !in WatchlistKinds
    ensures r.Ok? && v.Hash? && !HasKey(v.entries, "words") ==> r.value.words.expressions == []
    ensures r.Ok? && v.Hash? && !HasKey(v.entries, "constants") ==> r.value.constants.expressions == []
    ensures r.Ok? ==> ValidExpressions(r.value.words.expressions)
    ensures r.Ok? && v.Hash? ==>
      && Some(r.value.words.expressions) == StringList(Get(v.entries, "words"))
      && Some(r.value.constants.expressions) == ConstantList(Get(v.entries, "constants"))
    ensures (&& v.Hash? && (forall k :: k in Keys(v.entries) ==> k in WatchlistKinds)
             && StringList(Get(v.entries, "words")).Some? && ConstantList(Get(v.entries, "constants")).Some?
             && ValidExpressions(StringList(Get(v.entries, "words")).value)) ==> r.Ok?
  {
    if !Truthy(v) then Ok(WatchlistSet(WordWatchlist([]), ConstantWatchlist([])))
    else if !v.Hash? then Err(NotAWatchlistHash)
    else
      var unknown := UnknownKinds(v.entries);
      if unknown != [] then
        assert unknown[0] in Keys(v.entries) && unknown[0] !in WatchlistKinds;
        Err(UnknownWatchlistTypes(unknown))
      else
        assert forall k :: k in Keys(v.entries) && k !in WatchlistKinds ==> k in unknown;
        match (StringList(Get(v.entries, "words")), ConstantList(Get(v.entries, "constants")))
        case (None, _) => Err(NotAStringList("words"))
        case (_, None) => Err(NotAStringList("constants"))
        case (Some(ws), Some(cs)) =>
          if ValidExpressions(ws) then Ok(WatchlistSet(WordWatchlist(ws), ConstantWatchlist(cs)))
          else Err(EmptyWordPattern)
  }

  /** The lists a configured hash holds are the lists scanned. */
  lemma ConfiguredLists()
    ensures NewWatchlistSet(Hash([("words", List([Str("lorem")])), ("constants", List([Str("Faker")]))]))
         == Ok(WatchlistSet(WordWatchlist(["lorem"]), ConstantWatchlist(["Faker"])))
  {
    var es := [("words", List([Str("lorem")])), ("constants", List([Str("Faker")]))];
    assert Get(es, "words") == List([Str("lorem")]);
    assert Get(es, "constants") == List([Str("Faker")]);
    assert Keys(es) == ["words", "constants"];
    OneWord("lorem");
    OneConstant("Faker");
    assert ValidExpressions(["lorem"]);
  }

  lemma OneWord(w: string)
    ensures StringList(List([Str(w)])) == Some([w])
  {
    var sl := StringList(List([Str(w)]));
    assert List([Str(w)]).items[0].Str?;
    assert sl.Some? && |sl.value| == 1;
    assert Str(sl.value[0]) == Str(w);
    assert sl.value == [w];
  }

  lemma OneConstant(c: string)
    ensures ConstantList(List([Str(c)])) == Some([c])
  {
    var vs := [Str(c)];
    assert vs[..|vs| - 1] == [] && vs[|vs| - 1] == Str(c);
    assert StringsOf([]) == [];
    assert StringsOf(vs) == [] + [c];
    assert [] + [c] == [c];
    assert ConstantList(List(vs)) == Some(StringsOf(vs));
  }

  // ---------------------------------------------------------------------------
  // Properties

  /** `m` is where the word pattern `e` hits: bounded on both sides, no
      earlier-tried position bounded, the boundary character after it
      consumed, and the text there equal to `e` (after downcasing when the
      pattern ignores case). */
  predicate IsWordHit(text: string, e: string, ci: bool, m: Match) {
    && BoundedAt(text, e, ci, m.start)
    && (forall q :: 0 <= q <= |text| && Rank(q) < Rank(m.start) ==> !BoundedAt(text, e, ci, q))
    && m.end == m.start + |e|
    && m.next == (if m.end < |text| then m.end + 1 else m.end)
    && (ci ==> Downcase(text[m.start..m.end]) == e)
    && (!ci ==> text[m.start..m.end] == e)
  }

  /** A word pattern's hit is the word in the text's own casing, bounded on
      both sides, earliest in the engine's order, with the boundary character
      after it consumed; there is no hit exactly when the word occurs nowhere
      bounded. */
  lemma WordHit(e: string, text: string, find: RegexFinder)
    requires Sound(find) && RegexSource(e).None? && e != []
    ensures MatchPattern(Classify(e), text, find).None? <==>
      forall q :: 0 <= q <= |text| ==> !BoundedAt(text, e, Classify(e).CaseInsensitiveWord?, q)
    ensures MatchPattern(Classify(e), text, find).Some? ==>
      IsWordHit(text, e, Classify(e).CaseInsensitiveWord?, MatchPattern(Classify(e), text, find).value)
  {
    var ci := Classify(e).CaseInsensitiveWord?;
    assert MatchPattern(Classify(e), text, find) == WordMatch(text, e, ci);
    WordMatchHit(text, e, ci);
  }

  /** The same, for the word search itself. */
  lemma WordMatchHit(text: string, e: string, ci: bool)
    requires e != [] && (ci ==> Downcase(e) == e)
    ensures WordMatch(text, e, ci).None? <==> forall q :: 0 <= q <= |text| ==> !BoundedAt(text, e, ci, q)
    ensures WordMatch(text, e, ci).Some? ==> IsWordHit(text, e, ci, WordMatch(text, e, ci).value)
  {
    var m := WordMatch(text, e, ci);
    if m.Some? {
      if ci {
        FoldedHit(text, e, m.value.start);
      } else {
        ExactHit(text, e, m.value.start);
      }
    }
  }

  /** A case-insensitive hit of a lower-case word downcases to the word. */
  lemma FoldedHit(text: string, e: string, q: nat)
    requires BoundedAt(text, e, true, q) && Downcase(e) == e
    ensures Downcase(text[q..q + |e|]) == e
  {
    var hit := text[q..q + |e|];
    forall i | 0 <= i < |e| ensures Downcase(hit)[i] == e[i] {
      assert SameChar(text[q + i], e[i], true);
      assert Lower(e[i]) == Downcase(e)[i];
    }
  }

  /** A case-sensitive hit is the word itself. */
  lemma ExactHit(text: string, e: string, q: nat)
    requires BoundedAt(text, e, false, q)
    ensures text[q..q + |e|] == e
  {
    forall i | 0 <= i < |e| ensures text[q..q + |e|][i] == e[i] {
      assert SameChar(text[q + i], e[i], false);
    }
  }

  /** Positions of the hits in the scanned text. */
  function HitSpans(exprs: seq<string>, text: string, find: RegexFinder): seq<Span>
    requires Sound(find) && ValidExpressions(exprs)
    decreases |text|
  {
    match RoundMatch(exprs, text, find)
    case None => []
    case Some(m) => [Span(m.start, m.end)] + Shifted(HitSpans(exprs, text[m.next..], find), m.next)
  }

  function Shifted(spans: seq<Span>, d: nat): (r: seq<Span>)
    ensures |r| == |spans|
    ensures forall k :: 0 <= k < |r| ==> r[k] == Span(spans[k].start + d, spans[k].end + d)
  {
    seq(|spans|, k requires 0 <= k < |spans| => Span(spans[k].start + d, spans[k].end + d))
  }

  /** Non-empty spans inside the text, each ending before the next begins. */
  predicate InOrder(spans: seq<Span>, text: string) {
    && (forall k :: 0 <= k < |spans| ==> spans[k].start < spans[k].end <= |text|)
    && (forall k :: 0 < k < |spans| ==> spans[k - 1].end <= spans[k].start)
  }

  /** One span per hit, inside the text, each hit the text at its span. */
  predicate HitsAt(hits: seq<string>, spans: seq<Span>, text: string) {
    && |spans| == |hits|
    && forall k :: 0 <= k < |hits| ==>
      spans[k].start <= spans[k].end <= |text| && hits[k] == text[spans[k].start..spans[k].end]
  }

  /** A hit in front of the hits found in the rest of the text. */
  lemma HitsAtCons(hits: seq<string>, spans: seq<Span>, text: string, m: Match)
    requires m.start <= m.end <= m.next <= |text|
    requires HitsAt(hits, spans, text[m.next..])
    ensures HitsAt([text[m.start..m.end]] + hits, [Span(m.start, m.end)] + Shifted(spans, m.next), text)
  {
    var rest := text[m.next..];
    var sh := Shifted(spans, m.next);
    forall k | 0 <= k < |spans| ensures hits[k] == text[sh[k].start..sh[k].end] {
      assert rest[spans[k].start..spans[k].end] == text[m.next + spans[k].start..m.next + spans[k].end];
    }
  }

  /** Each hit is the text at its span. */
  lemma {:induction false} ScanPositions(exprs: seq<string>, text: string, find: RegexFinder)
    requires Sound(find) && ValidExpressions(exprs)
    ensures HitsAt(ScanHits(exprs, text, find), HitSpans(exprs, text, find), text)
    decreases |text|
  {
    match RoundMatch(exprs, text, find)
    case None =>
    case Some(m) =>
      var rest := text[m.next..];
      ScanPositions(exprs, rest, find);
      HitsAtCons(ScanHits(exprs, rest, find), HitSpans(exprs, rest, find), text, m);
  }

  /** The spans do not overlap and run left to right: every round resumes
      after the previous match, on a proper suffix of the text. */
  lemma {:induction false} ScanInOrder(exprs: seq<string>, text: string, find: RegexFinder)
    requires Sound(find) && ValidExpressions(exprs)
    ensures InOrder(HitSpans(exprs, text, find), text)
    decreases |text|
  {
    match RoundMatch(exprs, text, find)
    case None =>
    case Some(m) =>
      var rest := text[m.next..];
      ScanInOrder(exprs, rest, find);
      var ss := HitSpans(exprs, rest, find);
      var sh := Shifted(ss, m.next);
      var spans := [Span(m.start, m.end)] + sh;
      assert spans == HitSpans(exprs, text, find);
      forall k | 0 <= k < |spans| ensures spans[k].start < spans[k].end <= |text| {
        if k > 0 {
          assert spans[k] == sh[k - 1];
        }
      }
      forall k | 0 < k < |spans| ensures spans[k - 1].end <= spans[k].start {
        if k > 1 {
          assert spans[k - 1] == sh[k - 2] && spans[k] == sh[k - 1];
        }
      }
  }

  /** Configuration order beats position: the first hit of a scan comes from
      the first pattern that matches anywhere, wherever the later ones
      occur. */
  lemma FirstPatternWins(exprs: seq<string>, text: string, find: RegexFinder, i: nat)
    requires Sound(find) && ValidExpressions(exprs) && i < |exprs|
    requires MatchExpression(exprs, i, text, find).Some?
    requires forall j :: 0 <= j < i ==> MatchExpression(exprs, j, text, find).None?
    ensures ScanHits(exprs, text, find) != []
    ensures var m := MatchExpression(exprs, i, text, find).value;
      ScanHits(exprs, text, find)[0] == text[m.start..m.end]
  {
    var ms := Candidates(exprs, text, find);
    var w := Winner(ms, 0);
    if w.Some? && w.value != i {
      assert false;
    }
  }

  /** A watchlist with no expressions finds nothing. */
  lemma NoExpressions(text: string, find: RegexFinder)
    requires Sound(find)
    ensures ScanHits([], text, find) == []
  {
  }

  /** "ipsum" is configured before "lorem", so it wins the first round though
      "lorem" comes first in the text; the scan then resumes after "ipsum"
      and "lorem" is never reported. */
  lemma OrderExample(find: RegexFinder)
    requires Sound(find)
    ensures ScanHits(["ipsum", "lorem"], "lorem ipsum", find) == ["ipsum"]
  {
    OrderFirstRound(find);
    SingleRound(["ipsum", "lorem"], "lorem ipsum", find, Match(6, 11, 11));
    IpsumSlices();
  }

  /** The first round of the example: "ipsum" at 6, up to the end of the text. */
  lemma OrderFirstRound(find: RegexFinder)
    requires Sound(find)
    ensures ValidExpressions(["ipsum", "lorem"])
    ensures RoundMatch(["ipsum", "lorem"], "lorem ipsum", find) == Some(Match(6, 11, 11))
  {
    var exprs, text := ["ipsum", "lorem"], "lorem ipsum";
    assert ValidExpressions(exprs);
    IpsumAtSix();
    IpsumIsLowerWord();
    LowerWordMatch(exprs, 0, text, find);
    FirstMatchWins(exprs, text, find);
  }

  lemma IpsumIsLowerWord()
    ensures Classify("ipsum") == CaseInsensitiveWord("ipsum")
  {
    DowncaseFixedPoint("ipsum");
  }

  lemma IpsumSlices()
    ensures "lorem ipsum"[6..11] == "ipsum"
    ensures "lorem ipsum"[11..] == []
  {
  }

  /** A round whose match reaches the end of the text is the last one. */
  lemma SingleRound(exprs: seq<string>, text: string, find: RegexFinder, m: Match)
    requires Sound(find) && ValidExpressions(exprs)
    requires RoundMatch(exprs, text, find) == Some(m) && m.next == |text|
    ensures ScanHits(exprs, text, find) == [text[m.start..m.end]]
  {
    ScanStep(exprs, text, find, m);
    assert text[m.next..] == [];
    EmptyTextHasNoHits(exprs, find);
  }

  /** A lower-case word pattern matches case-insensitively. */
  lemma LowerWordMatch(exprs: seq<string>, i: nat, text: string, find: RegexFinder)
    requires Sound(find) && ValidExpressions(exprs) && i < |exprs|
    requires Classify(exprs[i]) == CaseInsensitiveWord(exprs[i])
    ensures MatchExpression(exprs, i, text, find) == WordMatch(text, exprs[i], true)
  {
  }

  /** When the first pattern matches, it wins the round. */
  lemma FirstMatchWins(exprs: seq<string>, text: string, find: RegexFinder)
    requires Sound(find) && ValidExpressions(exprs) && exprs != []
    requires MatchExpression(exprs, 0, text, find).Some?
    ensures RoundMatch(exprs, text, find) == MatchExpression(exprs, 0, text, find)
  {
    assert Winner(Candidates(exprs, text, find), 0) == Some(0);
  }

  /** The scan loop's step: one more hit collected, the rest still to scan. */
  lemma ScanAdvance(exprs: seq<string>, text: string, rest: string, find: RegexFinder, m: Match, results: seq<string>)
    requires Sound(find) && ValidExpressions(exprs)
    requires RoundMatch(exprs, rest, find) == Some(m)
    requires results + ScanHits(exprs, rest, find) == ScanHits(exprs, text, find)
    ensures (results + [rest[m.start..m.end]]) + ScanHits(exprs, rest[m.next..], find) == ScanHits(exprs, text, find)
  {
    ScanStep(exprs, rest, find, m);
    var hit, tail := [rest[m.start..m.end]], ScanHits(exprs, rest[m.next..], find);
    assert (results + hit) + tail == results + (hit + tail);
  }

  /** The scan loop's exit: nothing matches the rest. */
  lemma ScanDone(exprs: seq<string>, text: string, rest: string, find: RegexFinder, results: seq<string>)
    requires Sound(find) && ValidExpressions(exprs)
    requires RoundMatch(exprs, rest, find).None?
    requires results + ScanHits(exprs, rest, find) == ScanHits(exprs, text, find)
    ensures results == ScanHits(exprs, text, find)
  {
    assert ScanHits(exprs, rest, find) == [];
    assert results + [] == results;
  }

  /** One round of the scan, then the scan of the rest. */
  lemma ScanStep(exprs: seq<string>, text: string, find: RegexFinder, m: Match)
    requires Sound(find) && ValidExpressions(exprs)
    requires RoundMatch(exprs, text, find) == Some(m)
    ensures ScanHits(exprs, text, find) == [text[m.start..m.end]] + ScanHits(exprs, text[m.next..], find)
  {
  }

  lemma IpsumAtSix()
    ensures FindWord("lorem ipsum", "ipsum", true) == Some(6)
  {
    var text, w := "lorem ipsum", "ipsum";
    assert BoundedAt(text, w, true, 6) by {
      forall i | 0 <= i < 5 ensures SameChar(text[6 + i], w[i], true) {
        assert text[6 + i] == w[i];
      }
    }
    forall q | 0 <= q < 6 ensures !BoundedAt(text, w, true, q) {
      assert text[q] != 'i' && !IsUpper(text[q]) by {
        assert text[..6] == "lorem ";
        assert text[q] == text[..6][q];
      }
      assert !SameChar(text[q + 0], w[0], true);
    }
  }

  lemma EmptyTextHasNoHits(exprs: seq<string>, find: RegexFinder)
    requires Sound(find) && ValidExpressions(exprs)
    ensures ScanHits(exprs, [], find) == []
  {
    var w := Winner(Candidates(exprs, [], find), 0);
    if w.Some? {
      assert false;
    }
  }

  /** A lower-case pattern finds the word whatever its case and reports it as
      written in the text. */
  lemma CaseExample(find: RegexFinder)
    requires Sound(find)
    ensures ScanHits(["lorem"], "Lorem ipsum", find) == ["Lorem"]
  {
    var exprs, text := ["lorem"], "Lorem ipsum";
    assert ValidExpressions(exprs);
    LoremIsLowerWord();
    LoremAtZero();
    LowerWordMatch(exprs, 0, text, find);
    FirstMatchWins(exprs, text, find);
    ScanStep(exprs, text, find, Match(0, 5, 6));
    CaseSlices();
    LoremNotInIpsum();
    LowerWordMatch(exprs, 0, "ipsum", find);
    NoMatchNoHits(exprs, "ipsum", find);
  }

  lemma LoremIsLowerWord()
    ensures Classify("lorem") == CaseInsensitiveWord("lorem")
  {
    DowncaseFixedPoint("lorem");
  }

  lemma LoremAtZero()
    ensures WordMatch("Lorem ipsum", "lorem", true) == Some(Match(0, 5, 6))
  {
    var text := "Lorem ipsum";
    assert BoundedAt(text, "lorem", true, 0) by {
      forall i | 0 <= i < 5 ensures SameChar(text[0 + i], "lorem"[i], true) {
        assert Lower(text[i]) == "lorem"[i];
      }
    }
    assert FindWord(text, "lorem", true) == Some(0);
  }

  lemma LoremNotInIpsum()
    ensures WordMatch("ipsum", "lorem", true) == None
  {
    assert !BoundedAt("ipsum", "lorem", true, 0) by {
      assert !SameChar("ipsum"[0 + 0], "lorem"[0], true);
    }
  }

  lemma CaseSlices()
    ensures "Lorem ipsum"[0..5] == "Lorem"
    ensures "Lorem ipsum"[6..] == "ipsum"
  {
  }

  /** When no pattern matches, the scan finds nothing. */
  lemma NoMatchNoHits(exprs: seq<string>, text: string, find: RegexFinder)
    requires Sound(find) && ValidExpressions(exprs)
    requires forall i :: 0 <= i < |exprs| ==> MatchExpression(exprs, i, text, find).None?
    ensures ScanHits(exprs, text, find) == []
  {
    var w := Winner(Candidates(exprs, text, find), 0);
    if w.Some? {
      assert false;
    }
  }
}
