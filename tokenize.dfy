/** The tokenising of the weight and impact arguments: Python's `str.split(",")`,
    `str.strip()` and the comprehension filter that drops blank tokens. */
module Tokenize {

  /** Python's `str.isspace` for a single character. */
  predicate IsSpace(c: char) {
    || c == ' '
    || ('\U{9}' <= c <= '\U{D}')
    || ('\U{1C}' <= c <= '\U{1F}')
    || c == '\U{85}' || c == '\U{A0}' || c == '\U{1680}'
    || ('\U{2000}' <= c <= '\U{200A}')
    || c == '\U{2028}' || c == '\U{2029}' || c == '\U{202F}' || c == '\U{205F}' || c == '\U{3000}'
  }

  predicate AllSpace(s: string) {
    forall i :: 0 <= i < |s| ==> IsSpace(s[i])
  }

  /** A string with no whitespace at either end. */
  predicate Trimmed(s: string) {
    s == [] || (!IsSpace(s[0]) && !IsSpace(s[|s| - 1]))
  }

  /** The parts separated by `sep`: the inverse of Split. */
  function Join(parts: seq<string>, sep: char): string
    requires |parts| > 0
  {
    if |parts| == 1 then parts[0] else parts[0] + [sep] + Join(parts[1..], sep)
  }

  /** Python's `s.split(sep)` for a one-character separator: always at least one
      part (the empty string splits into `[""]`), the parts hold no separator,
      and joining them back gives `s`. */
  function Split(s: string, sep: char): (parts: seq<string>)
    ensures |parts| > 0
    ensures forall k :: 0 <= k < |parts| ==> sep !in parts[k]
    ensures Join(parts, sep) == s
  {
    if |s| == 0 then [""]
    else
      var rest := Split(s[1..], sep);
      if s[0] == sep then
        [""] + rest
      else
        var parts := [[s[0]] + rest[0]] + rest[1..];
        assert parts[1..] == rest[1..];
        assert Join(parts, sep) == [s[0]] + Join(rest, sep);
        parts
  }

  /** How many whitespace characters `s` starts with. */
  function LeadingSpace(s: string): (k: nat)
    ensures k <= |s| && AllSpace(s[..k])
    ensures k < |s| ==> !IsSpace(s[k])
  {
    if |s| > 0 && IsSpace(s[0]) then
      var k := 1 + LeadingSpace(s[1..]);
      assert s[..k] == [s[0]] + s[1..][..k - 1];
      k
    else
      0
  }

  /** Where the whitespace that `s` ends with begins. */
  function TrailingStart(s: string): (k: nat)
    ensures k <= |s| && AllSpace(s[k..])
    ensures k > 0 ==> !IsSpace(s[k - 1])
  {
    if |s| > 0 && IsSpace(s[|s| - 1]) then
      var k := TrailingStart(s[..|s| - 1]);
      assert s[k..] == s[..|s| - 1][k..] + [s[|s| - 1]];
      k
    else
      |s|
  }

  /** Python's `s.strip()`: `s` without its leading and trailing whitespace. */
  function Strip(s: string): (r: string)
    ensures exists a, b :: 0 <= a <= b <= |s| && r == s[a..b] && AllSpace(s[..a]) && AllSpace(s[b..])
    ensures Trimmed(r)
    ensures r == [] <==> AllSpace(s)
  {
    var a := LeadingSpace(s);
    if a == |s| then
      assert s[..a] == s && s[a..] == [];
      []
    else
      var b := TrailingStart(s);
      forall i | b <= i < |s|
        ensures IsSpace(s[i])
      {
        assert s[b..][i - b] == s[i];
      }
      assert !IsSpace(s[a]);
      assert !AllSpace(s) by {
        assert !IsSpace(s[a]);
      }
      s[a..b]
  }

  /** The stripped parts that are not blank, in order: the list comprehension
      `[p.strip() for p in parts if p.strip()]`. */
  function NonBlank(parts: seq<string>): (tokens: seq<string>)
  {
    if parts == [] then []
    else if Strip(parts[0]) != [] then [Strip(parts[0])] + NonBlank(parts[1..])
    else NonBlank(parts[1..])
  }

  /** Every token the filter keeps is the non-empty strip of some part. */
  lemma {:induction false} NonBlankFromParts(parts: seq<string>)
    ensures forall t :: t in NonBlank(parts) ==> t != [] && exists j :: 0 <= j < |parts| && t == Strip(parts[j])
  {
    if parts != [] {
      var rest := NonBlank(parts[1..]);
      NonBlankFromParts(parts[1..]);
      forall t | t in rest
        ensures exists j :: 0 <= j < |parts| && t == Strip(parts[j])
      {
        var j :| 0 <= j < |parts[1..]| && t == Strip(parts[1..][j]);
        assert parts[1..][j] == parts[j + 1];
      }
    }
  }

  /** Every part whose strip is not empty gives a token. */
  lemma {:induction false} PartsToNonBlank(parts: seq<string>)
    ensures forall j :: 0 <= j < |parts| && Strip(parts[j]) != [] ==> Strip(parts[j]) in NonBlank(parts)
  {
    if parts != [] {
      var rest := NonBlank(parts[1..]);
      PartsToNonBlank(parts[1..]);
      forall j | 0 <= j < |parts| && Strip(parts[j]) != []
        ensures Strip(parts[j]) in NonBlank(parts)
      {
        if j > 0 {
          assert parts[1..][j - 1] == parts[j];
          assert Strip(parts[j]) in rest;
        }
      }
    }
  }

  /** The tokens of a comma-separated argument: the stripped parts between
      commas that are not blank. Each is non-empty, trimmed and comma-free. */
  function Tokens(s: string): (tokens: seq<string>)
    ensures forall k :: 0 <= k < |tokens| ==> IsToken(tokens[k])
  {
    NonBlankAreTokens(Split(s, ','));
    NonBlank(Split(s, ','))
  }

  /** A token as Tokens yields it: not empty, trimmed, free of commas. */
  predicate IsToken(t: string) {
    t != [] && Trimmed(t) && ',' !in t
  }

  lemma StripKeepsOut(s: string, c: char)
    requires c !in s
    ensures c !in Strip(s)
  {
    var a, b :| 0 <= a <= b <= |s| && Strip(s) == s[a..b];
    forall i | 0 <= i < |Strip(s)|
      ensures Strip(s)[i] != c
    {
      assert Strip(s)[i] == s[a + i];
    }
  }

  lemma {:induction false} NonBlankAreTokens(parts: seq<string>)
    requires forall k :: 0 <= k < |parts| ==> ',' !in parts[k]
    ensures forall k :: 0 <= k < |NonBlank(parts)| ==> IsToken(NonBlank(parts)[k])
  {
    if parts != [] {
      NonBlankAreTokens(parts[1..]);
      StripKeepsOut(parts[0], ',');
    }
  }

  lemma StripTrimmed(t: string)
    requires t != [] && Trimmed(t)
    ensures Strip(t) == t
  {
    assert t[..|t|] == t;
  }

  lemma {:induction false} SplitOfPart(p: string, sep: char)
    requires sep !in p
    ensures Split(p, sep) == [p]
  {
    if |p| > 0 {
      SplitOfPart(p[1..], sep);
      assert [p[0]] + p[1..] == p;
    }
  }

  lemma {:induction false} SplitAfterPart(p: string, sep: char, rest: string)
    requires sep !in p
    ensures Split(p + [sep] + rest, sep) == [p] + Split(rest, sep)
  {
    var s := p + [sep] + rest;
    if |p| == 0 {
      assert s == [sep] + rest;
      assert s[1..] == rest;
    } else {
      assert s[1..] == p[1..] + [sep] + rest;
      SplitAfterPart(p[1..], sep, rest);
      assert [p[0]] + p[1..] == p;
    }
  }

  /** Split undoes Join when no part holds the separator. */
  lemma {:induction false} SplitJoin(parts: seq<string>, sep: char)
    requires |parts| > 0
    requires forall k :: 0 <= k < |parts| ==> sep !in parts[k]
    ensures Split(Join(parts, sep), sep) == parts
  {
    if |parts| == 1 {
      SplitOfPart(parts[0], sep);
    } else {
      SplitJoin(parts[1..], sep);
      SplitAfterPart(parts[0], sep, Join(parts[1..], sep));
      assert [parts[0]] + parts[1..] == parts;
    }
  }

  lemma {:induction false} NonBlankOfTokens(ts: seq<string>)
    requires forall k :: 0 <= k < |ts| ==> IsToken(ts[k])
    ensures NonBlank(ts) == ts
  {
    if ts != [] {
      StripTrimmed(ts[0]);
      NonBlankOfTokens(ts[1..]);
      assert [ts[0]] + ts[1..] == ts;
    }
  }

  /** Tokenising the comma-joined tokens gives them back: Tokens loses nothing
      but separators, surrounding whitespace and blank tokens. */
  lemma TokensOfJoin(ts: seq<string>)
    requires |ts| > 0
    requires forall k :: 0 <= k < |ts| ==> IsToken(ts[k])
    ensures Tokens(Join(ts, ',')) == ts
  {
    SplitJoin(ts, ',');
    NonBlankOfTokens(ts);
  }

  lemma SplitBlankPart()
    ensures Split("1,,1", ',') == ["1", "", "1"]
  {
    var parts := ["1", "", "1"];
    assert Join(parts[2..], ',') == "1";
    assert Join(parts[1..], ',') == ",1";
    assert Join(parts, ',') == "1,,1";
    SplitJoin(parts, ',');
  }

  /** One step of the filter: the first part is kept, stripped, unless blank. */
  lemma NonBlankStep(p: string, rest: seq<string>)
    ensures NonBlank([p] + rest) == if Strip(p) != [] then [Strip(p)] + NonBlank(rest) else NonBlank(rest)
  {
    assert ([p] + rest)[1..] == rest;
  }

  lemma NonBlankBlankPart()
    ensures NonBlank(["1", "", "1"]) == ["1", "1"]
  {
    StripTrimmed("1");
    assert AllSpace("");
    NonBlankStep("1", []);
    NonBlankStep("", ["1"]);
    NonBlankStep("1", ["", "1"]);
  }

  /** A blank part yields no token, so "1,,1" gives two weights. */
  lemma TokensDropBlankPart()
    ensures Tokens("1,,1") == ["1", "1"]
  {
    SplitBlankPart();
    NonBlankBlankPart();
  }

  lemma StripPadded(c: char)
    requires !IsSpace(c)
    ensures Strip([' ', c, ' ']) == [c]
  {
    var s := [' ', c, ' '];
    assert s[1..][0] == c;
    assert LeadingSpace(s) == 1;
    assert s[..2][1] == c;
    assert TrailingStart(s) == 2;
    assert s[1..2] == [c];
  }

  lemma SplitPaddedSigns()
    ensures Split(" + , - ,", ',') == [" + ", " - ", ""]
  {
    var parts := [" + ", " - ", ""];
    assert Join(parts[1..], ',') == " - ," by {
      assert parts[1..][1..] == [""];
    }
    assert Join(parts, ',') == " + , - ,";
    SplitJoin(parts, ',');
  }

  lemma NonBlankPaddedSigns()
    ensures NonBlank([" + ", " - ", ""]) == ["+", "-"]
  {
    StripPadded('+');
    StripPadded('-');
    assert AllSpace("");
    NonBlankStep("", []);
    NonBlankStep(" - ", [""]);
    NonBlankStep(" + ", [" - ", ""]);
  }

  /** Whitespace around a token is dropped, and so is a trailing blank part. */
  lemma TokensStripParts()
    ensures Tokens(" + , - ,") == ["+", "-"]
  {
    SplitPaddedSigns();
    NonBlankPaddedSigns();
  }
}
