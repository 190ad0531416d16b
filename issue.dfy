/** The finding record: what was found, in which file, on which line. */
module Issues {
  import opened Wrappers
  import opened Text

  /** Line 0 stands for "no particular line" (the default of the examine helpers). */
  datatype Issue = Issue(description: string, file: string, line: nat) {

    /** `file:line`. */
    function Location(): string {
      file + ":" + NatToString(line)
    }

    /** The location, one space, then the description. */
    function ToString(): string {
      Location() + " " + description
    }
  }

  /** Index of the last `c` in `s`, if any. */
  function LastIndexOf(s: string, c: char): (r: Option<nat>)
    ensures r.Some? ==> r.value < |s| && s[r.value] == c
    ensures r.Some? ==> forall k :: r.value < k < |s| ==> s[k] != c
    ensures r.None? ==> forall k :: 0 <= k < |s| ==> s[k] != c
  {
    if s == [] then None
    else if s[|s| - 1] == c then Some(|s| - 1)
    else LastIndexOf(s[..|s| - 1], c)
  }

  /** Reads a `file:line` location back: the line number is the all-digit text
      after the last colon, so a file name may itself contain colons. */
  function ParseLocation(loc: string): Option<(string, nat)> {
    match LastIndexOf(loc, ':')
    case None => None
    case Some(k) =>
      var digits := loc[k + 1..];
      if digits != [] && forall j :: 0 <= j < |digits| ==> IsDigit(digits[j])
      then Some((loc[..k], ParseDigits(digits)))
      else None
  }

  /** A location determines its file and its line. */
  lemma LocationRoundTrip(i: Issue)
    ensures ParseLocation(i.Location()) == Some((i.file, i.line))
  {
    var loc := i.Location();
    var digits := NatToString(i.line);
    NatToStringRoundTrip(i.line);
    assert loc == i.file + [':'] + digits;
    assert loc[|i.file|] == ':';
    forall k | |i.file| < k < |loc| ensures loc[k] != ':' {
      assert loc[k] == digits[k - |i.file| - 1];
    }
    assert LastIndexOf(loc, ':') == Some(|i.file|);
    assert loc[|i.file| + 1..] == digits;
    assert loc[..|i.file|] == i.file;
  }

  /** The rendered issue starts with its location and a space and ends with its
      description, which is what a search for the description relies on. */
  lemma ToStringShape(i: Issue)
    ensures EndsWith(i.ToString(), i.description)
    ensures i.ToString()[..|i.Location()| + 1] == i.Location() + " "
    ensures |i.ToString()| == |i.Location()| + 1 + |i.description|
  {
  }
}
