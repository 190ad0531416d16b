/**
 * The few Ruby string primitives the scanner relies on, over ASCII:
 * the `\w` and `\s` character classes, `String#downcase`, `String#lines`,
 * `String#split(/\s+/)` and `Integer#to_s`.
 */
module Text {

  /** Ruby's `\w`: `[a-zA-Z0-9_]`. */
  predicate IsWordChar(c: char) {
    ('a' <= c <= 'z') || ('A' <= c <= 'Z') || ('0' <= c <= '9') || c == '_'
  }

  /** Ruby's `\s`: space, tab, line feed, vertical tab, form feed, carriage return. */
  predicate IsSpace(c: char) {
    c == ' ' || c == '\t' || c == '\n' || c == '\U{000B}' || c == '\U{000C}' || c == '\r'
  }

  predicate IsUpper(c: char) {
    'A' <= c <= 'Z'
  }

  function Lower(c: char): (r: char)
    ensures !IsUpper(r)
    ensures !IsUpper(c) ==> r == c
    ensures IsWordChar(r) == IsWordChar(c)
  {
    if IsUpper(c) then (c as int - 'A' as int + 'a' as int) as char else c
  }

  function Downcase(s: string): (r: string)
    ensures |r| == |s|
    ensures forall i :: 0 <= i < |s| ==> r[i] == Lower(s[i])
  {
    seq(|s|, i requires 0 <= i < |s| => Lower(s[i]))
  }

  /** `s.downcase == s`: the string has no upper-case letter. */
  predicate IsLowercase(s: string) {
    forall i :: 0 <= i < |s| ==> !IsUpper(s[i])
  }

  lemma DowncaseFixedPoint(s: string)
    ensures Downcase(s) == s <==> IsLowercase(s)
  {
    if Downcase(s) == s {
      forall i | 0 <= i < |s| ensures !IsUpper(s[i]) {
        assert Lower(s[i]) == s[i];
      }
    }
  }

  predicate EndsWith(s: string, suffix: string) {
    |suffix| <= |s| && s[|s| - |suffix|..] == suffix
  }

  /** The sequences of `ss` joined with nothing in between. */
  function Concat<T>(ss: seq<seq<T>>): seq<T> {
    if ss == [] then [] else Concat(ss[..|ss| - 1]) + ss[|ss| - 1]
  }

  lemma {:induction false} ConcatAppend<T>(a: seq<seq<T>>, b: seq<seq<T>>)
    ensures Concat(a + b) == Concat(a) + Concat(b)
    decreases |b|
  {
    if b == [] {
      assert a + b == a;
    } else {
      var ab, init, last := a + b, b[..|b| - 1], b[|b| - 1];
      assert ab[..|ab| - 1] == a + init;
      assert ab[|ab| - 1] == last;
      ConcatAppend(a, init);
      calc {
        Concat(ab);
        Concat(a + init) + last;
        (Concat(a) + Concat(init)) + last;
        Concat(a) + (Concat(init) + last);
      }
    }
  }

  /** Joining gives nothing exactly when every part is empty. */
  lemma {:induction false} ConcatEmpty<T>(ss: seq<seq<T>>)
    ensures Concat(ss) == [] <==> forall k :: 0 <= k < |ss| ==> ss[k] == []
    decreases |ss|
  {
    if ss != [] {
      var init := ss[..|ss| - 1];
      ConcatEmpty(init);
      assert forall k :: 0 <= k < |init| ==> init[k] == ss[k];
    }
  }

  /** The head and tail of an append whose left part is non-empty. */
  lemma SplitFront<T>(a: seq<T>, b: seq<T>)
    requires a != []
    ensures (a + b)[0] == a[0] && (a + b)[1..] == a[1..] + b
  {
  }

  lemma Rejoin<T>(s: seq<T>, n: nat)
    requires n <= |s|
    ensures s[..n] + s[n..] == s
  {
  }

  lemma Assoc<T>(x: seq<T>, y: seq<T>, z: seq<T>)
    ensures x + (y + z) == (x + y) + z
  {
  }

  lemma ConcatCons<T>(x: seq<T>, rest: seq<seq<T>>)
    ensures Concat([x] + rest) == x + Concat(rest)
  {
    ConcatAppend([x], rest);
    assert Concat([x]) == Concat([]) + x;
  }

  lemma ConcatFront<T>(x: seq<T>, rest: seq<seq<T>>, tail: seq<T>, whole: seq<T>)
    requires Concat(rest) == tail && x + tail == whole
    ensures Concat([x] + rest) == whole
  {
    ConcatCons(x, rest);
  }

  /** Index of the first `c` in `s`, or `|s|` when there is none. */
  function IndexOf(s: string, c: char): (r: nat)
    ensures r <= |s|
    ensures r < |s| ==> s[r] == c
    ensures forall k :: 0 <= k < r ==> s[k] != c
  {
    if s == [] then 0
    else if s[0] == c then 0
    else 1 + IndexOf(s[1..], c)
  }

  // ---------------------------------------------------------------------------
  // String#lines: cut after every line feed; the line feed stays with its line.

  function Lines(s: string): (r: seq<string>)
    decreases |s|
  {
    if s == [] then []
    else
      var i := IndexOf(s, '\n');
      if i == |s| then [s] else [s[..i + 1]] + Lines(s[i + 1..])
  }

  /** A line as `String#lines` yields it: non-empty, with a line feed only as its
      last character, and ending in one unless it is the last line. */
  predicate IsLine(line: string, last: bool) {
    && line != []
    && (forall j :: 0 <= j < |line| - 1 ==> line[j] != '\n')
    && (!last ==> line[|line| - 1] == '\n')
  }

  predicate LineShaped(lines: seq<string>) {
    forall k :: 0 <= k < |lines| ==> IsLine(lines[k], k == |lines| - 1)
  }

  /** `String#lines` loses nothing: joining the lines gives the text back. */
  lemma {:induction false} LinesRoundTrip(s: string)
    ensures Concat(Lines(s)) == s
    decreases |s|
  {
    if s != [] {
      var i := IndexOf(s, '\n');
      if i < |s| {
        var line, rest := s[..i + 1], s[i + 1..];
        LinesStep(s, i);
        Rejoin(s, i + 1);
        LinesRoundTrip(rest);
        ConcatFront(line, Lines(rest), rest, s);
      } else {
        LastLine(s);
        assert Concat([s]) == Concat([]) + s;
      }
    }
  }

  /** One step of `String#lines`: the first line, then the lines of the rest. */
  lemma LinesStep(s: string, i: nat)
    requires s != [] && i == IndexOf(s, '\n') && i < |s|
    ensures Lines(s) == [s[..i + 1]] + Lines(s[i + 1..])
  {
  }

  /** Text without a line feed is one line. */
  lemma LastLine(s: string)
    requires s != [] && IndexOf(s, '\n') == |s|
    ensures Lines(s) == [s]
  {
  }

  lemma {:induction false} LinesShape(s: string)
    ensures LineShaped(Lines(s))
    decreases |s|
  {
    if s != [] {
      var i := IndexOf(s, '\n');
      if i < |s| {
        var rest := s[i + 1..];
        LinesShape(rest);
        LinesStep(s, i);
        var ls := Lines(s);
        assert IsLine(s[..i + 1], false);
        forall k | 0 < k < |ls| ensures IsLine(ls[k], k == |ls| - 1) {
          assert ls[k] == Lines(rest)[k - 1];
        }
      }
    }
  }

  // ---------------------------------------------------------------------------
  // String#split(/\s+/): cut at every maximal run of white space, keep a
  // leading empty field, drop trailing empty fields.

  function IndexOfSpace(s: string): (r: nat)
    ensures r <= |s|
    ensures r < |s| ==> IsSpace(s[r])
    ensures forall k :: 0 <= k < r ==> !IsSpace(s[k])
  {
    if s == [] then 0
    else if IsSpace(s[0]) then 0
    else 1 + IndexOfSpace(s[1..])
  }

  /** First index at or after `i` that is not white space. */
  function SkipSpace(s: string, i: nat): (r: nat)
    requires i <= |s|
    ensures i <= r <= |s|
    ensures r < |s| ==> !IsSpace(s[r])
    ensures forall k :: i <= k < r ==> IsSpace(s[k])
    decreases |s| - i
  {
    if i == |s| || !IsSpace(s[i]) then i else SkipSpace(s, i + 1)
  }

  function Fields(s: string): (r: seq<string>)
    ensures |r| >= 1
    decreases |s|
  {
    var i := IndexOfSpace(s);
    if i == |s| then [s]
    else
      var j := SkipSpace(s, i);
      [s[..i]] + Fields(s[j..])
  }

  function DropTrailingEmpty(fs: seq<string>): (r: seq<string>)
    ensures |r| <= |fs| && r == fs[..|r|]
    ensures r != [] ==> r[|r| - 1] != []
    ensures forall k :: |r| <= k < |fs| ==> fs[k] == []
  {
    if fs != [] && fs[|fs| - 1] == [] then DropTrailingEmpty(fs[..|fs| - 1]) else fs
  }

  function Tokens(s: string): seq<string> {
    DropTrailingEmpty(Fields(s))
  }

  /** The text with every white-space character removed. */
  function WithoutSpace(s: string): (r: string)
  {
    if s == [] then []
    else (if IsSpace(s[0]) then [] else [s[0]]) + WithoutSpace(s[1..])
  }

  lemma {:induction false} WithoutSpaceAppend(a: string, b: string)
    ensures WithoutSpace(a + b) == WithoutSpace(a) + WithoutSpace(b)
    decreases |a|
  {
    if a == [] {
      assert a + b == b;
    } else {
      assert (a + b)[1..] == a[1..] + b;
      WithoutSpaceAppend(a[1..], b);
    }
  }

  lemma {:induction false} WithoutSpaceOfRun(s: string, i: nat, j: nat)
    requires i <= j <= |s|
    requires forall k :: i <= k < j ==> IsSpace(s[k])
    ensures WithoutSpace(s[i..j]) == []
    decreases j - i
  {
    if i < j {
      assert s[i..j][1..] == s[i + 1..j];
      WithoutSpaceOfRun(s, i + 1, j);
    }
  }

  lemma {:induction false} WithoutSpaceOfWord(s: string)
    requires forall k :: 0 <= k < |s| ==> !IsSpace(s[k])
    ensures WithoutSpace(s) == s
    decreases |s|
  {
    if s != [] {
      WithoutSpaceOfWord(s[1..]);
    }
  }

  predicate NoSpace(t: string) {
    forall j :: 0 <= j < |t| ==> !IsSpace(t[j])
  }

  /** Two words with one space between them are two tokens. */
  lemma TwoTokens(a: string, b: string)
    requires NoSpace(a) && NoSpace(b) && b != []
    ensures Tokens(a + " " + b) == [a, b]
  {
    var s := a + " " + b;
    assert s[|a|] == ' ';
    assert forall k :: 0 <= k < |a| ==> s[k] == a[k];
    var i := IndexOfSpace(s);
    assert i == |a|;
    assert s[|a| + 1] == b[0];
    assert SkipSpace(s, |a|) == |a| + 1;
    assert s[..|a|] == a && s[|a| + 1..] == b;
    assert IndexOfSpace(b) == |b|;
    assert Fields(s) == [a] + Fields(b);
  }

  /** No field holds white space. */
  lemma {:induction false} FieldsNoSpace(s: string)
    ensures forall k :: 0 <= k < |Fields(s)| ==> NoSpace(Fields(s)[k])
    decreases |s|
  {
    var i := IndexOfSpace(s);
    if i < |s| {
      var rest := s[SkipSpace(s, i)..];
      FieldsNoSpace(rest);
      var fs := Fields(s);
      assert NoSpace(s[..i]);
      forall k | 0 < k < |fs| ensures NoSpace(fs[k]) {
        assert fs[k] == Fields(rest)[k - 1];
      }
    }
  }

  /** Every field but the first and the last is non-empty. */
  lemma {:induction false} FieldsNonEmpty(s: string)
    ensures forall k :: 0 < k < |Fields(s)| - 1 ==> Fields(s)[k] != []
    decreases |s|
  {
    var i := IndexOfSpace(s);
    if i < |s| {
      var j := SkipSpace(s, i);
      var rest := s[j..];
      FieldsNonEmpty(rest);
      var fs := Fields(s);
      if |fs| > 2 {
        // rest starts with a non-space character, so its first field is not empty
        assert |Fields(rest)| >= 2;
        assert IndexOfSpace(rest) < |rest|;
        assert !IsSpace(rest[0]);
        assert Fields(rest)[0] != [];
      }
      forall k | 1 < k < |fs| - 1 ensures fs[k] != [] {
        assert fs[k] == Fields(rest)[k - 1];
      }
    }
  }

  /** A word, then a run of white space, then the rest. */
  lemma {:induction false} WithoutSpaceOfField(s: string, i: nat, j: nat)
    requires i <= j <= |s|
    requires forall k :: 0 <= k < i ==> !IsSpace(s[k])
    requires forall k :: i <= k < j ==> IsSpace(s[k])
    ensures WithoutSpace(s) == s[..i] + WithoutSpace(s[j..])
  {
    var word, run, rest := s[..i], s[i..j], s[j..];
    calc {
      WithoutSpace(s);
      { assert s == (word + run) + rest; }
      WithoutSpace((word + run) + rest);
      { WithoutSpaceAppend(word + run, rest); }
      WithoutSpace(word + run) + WithoutSpace(rest);
      { WithoutSpaceAppend(word, run); }
      WithoutSpace(word) + WithoutSpace(run) + WithoutSpace(rest);
      { WithoutSpaceOfRun(s, i, j); }
      WithoutSpace(word) + WithoutSpace(rest);
      { assert forall k :: 0 <= k < |word| ==> word[k] == s[k];
        WithoutSpaceOfWord(word); }
      word + WithoutSpace(rest);
    }
  }

  /** The fields put together are the text without its white space. */
  lemma {:induction false} FieldsConcat(s: string)
    ensures Concat(Fields(s)) == WithoutSpace(s)
    decreases |s|
  {
    var i := IndexOfSpace(s);
    if i == |s| {
      assert Concat([s]) == Concat([]) + s;
      WithoutSpaceOfWord(s);
    } else {
      var j := SkipSpace(s, i);
      var rest := s[j..];
      var word, run := s[..i], s[i..j];
      FieldsConcat(rest);
      assert Fields(s) == [word] + Fields(rest);
      ConcatCons<char>(word, Fields(rest));
      assert Concat(Fields(s)) == word + WithoutSpace(rest);
      WithoutSpaceOfField(s, i, j);
    }
  }

  lemma {:induction false} ConcatDropTrailingEmpty(fs: seq<string>)
    ensures Concat(DropTrailingEmpty(fs)) == Concat(fs)
    decreases |fs|
  {
    if fs != [] && fs[|fs| - 1] == [] {
      ConcatDropTrailingEmpty(fs[..|fs| - 1]);
    }
  }

  /** `split(/\s+/)` gives tokens without white space; only the first may be empty
      (when the text starts with white space); together they are the text
      without its white space. */
  lemma TokensShape(s: string)
    ensures forall k :: 0 <= k < |Tokens(s)| ==> NoSpace(Tokens(s)[k])
    ensures forall k :: 0 < k < |Tokens(s)| ==> Tokens(s)[k] != []
    ensures Concat(Tokens(s)) == WithoutSpace(s)
  {
    var fs := Fields(s);
    var ts := Tokens(s);
    FieldsNoSpace(s);
    FieldsNonEmpty(s);
    FieldsConcat(s);
    ConcatDropTrailingEmpty(fs);
    forall k | 0 < k < |ts| ensures ts[k] != [] {
      assert ts[k] == fs[k];
      if k < |ts| - 1 {
        assert k < |fs| - 1;
      }
    }
  }

  // ---------------------------------------------------------------------------
  // Integer#to_s for line numbers, and its inverse.

  function DigitChar(d: nat): (c: char)
    requires d < 10
  {
    ('0' as int + d) as char
  }

  predicate IsDigit(c: char) {
    '0' <= c <= '9'
  }

  function NatToString(n: nat): (r: string)
    ensures |r| >= 1
    decreases n
  {
    if n < 10 then [DigitChar(n)] else NatToString(n / 10) + [DigitChar(n % 10)]
  }

  function DigitValue(c: char): nat
    requires IsDigit(c)
  {
    c as int - '0' as int
  }

  function ParseDigits(s: string): nat
    requires forall k :: 0 <= k < |s| ==> IsDigit(s[k])
  {
    if s == [] then 0 else 10 * ParseDigits(s[..|s| - 1]) + DigitValue(s[|s| - 1])
  }

  /** The decimal rendering is all digits and reads back as the same number. */
  lemma {:induction false} NatToStringRoundTrip(n: nat)
    ensures forall k :: 0 <= k < |NatToString(n)| ==> IsDigit(NatToString(n)[k])
    ensures ParseDigits(NatToString(n)) == n
    decreases n
  {
    if n >= 10 {
      NatToStringRoundTrip(n / 10);
      var s := NatToString(n);
      assert s[..|s| - 1] == NatToString(n / 10);
    }
  }
}
