/**
  The string primitives the app relies on: `toLowerCase`, `trim` and
  `includes`. Lower-casing is modelled on ASCII letters and trimming on ASCII
  white space; `includes` is an exact substring test.
 */
module Text {

  /** The ASCII characters `String.prototype.trim` removes. */
  predicate IsWhitespace(c: char) {
    c == ' ' || c == '\t' || c == '\n' || c == '\r' || c == '\U{000B}' || c == '\U{000C}'
  }

  /** A string made only of white space (the empty string included). */
  predicate IsBlank(s: string) {
    forall i :: 0 <= i < |s| ==> IsWhitespace(s[i])
  }

  predicate IsUpper(c: char) {
    'A' <= c <= 'Z'
  }

  function LowerChar(c: char): (d: char)
    ensures !IsUpper(d)
    ensures IsWhitespace(d) <==> IsWhitespace(c)
    ensures IsUpper(c) ==> d as int == c as int + 32
  {
    if IsUpper(c) then (c as int + 32) as char else c
  }

  /** `s.toLowerCase()`. */
  function ToLower(s: string): (r: string)
    ensures |r| == |s|
    ensures forall i :: 0 <= i < |r| ==> !IsUpper(r[i])
    ensures forall i :: 0 <= i < |s| ==> !IsUpper(s[i]) ==> r[i] == s[i]
    ensures forall i :: 0 <= i < |s| ==> IsUpper(s[i]) ==> r[i] as int == s[i] as int + 32
    ensures IsBlank(r) <==> IsBlank(s)
  {
    var r := seq(|s|, i requires 0 <= i < |s| => LowerChar(s[i]));
    assert forall i :: 0 <= i < |s| ==> r[i] == LowerChar(s[i]);
    r
  }

  /** Drops the white space at the front. */
  function TrimStart(s: string): (r: string)
    ensures |r| <= |s| && r == s[|s| - |r|..]
    ensures forall i :: 0 <= i < |s| - |r| ==> IsWhitespace(s[i])
    ensures |r| > 0 ==> !IsWhitespace(r[0])
  {
    if |s| > 0 && IsWhitespace(s[0]) then TrimStart(s[1..]) else s
  }

  /** Drops the white space at the back. */
  function TrimEnd(s: string): (r: string)
    ensures |r| <= |s| && r == s[..|r|]
    ensures forall i :: |r| <= i < |s| ==> IsWhitespace(s[i])
    ensures |r| > 0 ==> !IsWhitespace(r[|r| - 1])
  {
    if |s| > 0 && IsWhitespace(s[|s| - 1]) then TrimEnd(s[..|s| - 1]) else s
  }

  /** `needle` occurs in `hay` starting at position `i`. */
  predicate OccursAt(hay: string, needle: string, i: int) {
    0 <= i && i + |needle| <= |hay| && hay[i..i + |needle|] == needle
  }

  /**
    `s.trim()`: `s` with a blank prefix and a blank suffix removed, leaving
    no white space at either end.
   */
  function Trim(s: string): (r: string)
    ensures |r| == 0 <==> IsBlank(s)
    ensures |r| > 0 ==> !IsWhitespace(r[0]) && !IsWhitespace(r[|r| - 1])
    ensures StripsTo(s, r)
  {
    TrimEmptyIffBlank(s);
    TrimPieces(s);
    TrimEnd(TrimStart(s))
  }

  /** Trimming leaves nothing exactly when the text is blank. */
  lemma TrimEmptyIffBlank(s: string)
    ensures |TrimEnd(TrimStart(s))| == 0 <==> IsBlank(s)
  {
    var front := TrimStart(s);
    if |TrimEnd(front)| == 0 {
      assert |front| == 0;
    } else {
      assert |front| > 0 && front[0] == s[|s| - |front|];
    }
  }

  /** `r` is `s` with a blank prefix and a blank suffix removed. */
  ghost predicate StripsTo(s: string, r: string) {
    exists lo :: OccursAt(s, r, lo) && IsBlank(s[..lo]) && IsBlank(s[lo + |r|..])
  }

  /** Trimming removes exactly a blank prefix and a blank suffix. */
  lemma TrimPieces(s: string)
    ensures StripsTo(s, TrimEnd(TrimStart(s)))
  {
    var front := TrimStart(s);
    var r := TrimEnd(front);
    var lo := |s| - |front|;
    BlankPrefix(s);
    BlankSuffix(front);
    assert s[lo + |r|..] == front[|r|..];
    assert OccursAt(s, r, lo);
    assert OccursAt(s, r, lo) && IsBlank(s[..lo]) && IsBlank(s[lo + |r|..]);
  }

  /** What `TrimStart` removes is blank. */
  lemma {:induction false} BlankPrefix(s: string)
    ensures IsBlank(s[..|s| - |TrimStart(s)|])
  {
    var lo := |s| - |TrimStart(s)|;
    forall i | 0 <= i < lo ensures IsWhitespace(s[..lo][i]) {
      assert s[..lo][i] == s[i];
    }
  }

  /** What `TrimEnd` removes is blank. */
  lemma {:induction false} BlankSuffix(s: string)
    ensures IsBlank(s[|TrimEnd(s)|..])
  {
    var hi := |TrimEnd(s)|;
    forall i | 0 <= i < |s| - hi ensures IsWhitespace(s[hi..][i]) {
      assert s[hi..][i] == s[hi + i];
    }
  }

  /** `hay.startsWith(needle)`. */
  predicate StartsWith(hay: string, needle: string) {
    |needle| <= |hay| && hay[..|needle|] == needle
  }

  /** `hay.includes(needle)`, by scanning every start position. */
  predicate Contains(hay: string, needle: string) {
    StartsWith(hay, needle) || (|hay| > 0 && Contains(hay[1..], needle))
  }

  /** Dropping the first character shifts every later occurrence one place left. */
  lemma OccursShift(hay: string, needle: string, i: int)
    requires |hay| > 0 && i > 0
    ensures OccursAt(hay, needle, i) <==> OccursAt(hay[1..], needle, i - 1)
  {
    if i + |needle| <= |hay| {
      assert hay[1..][i - 1..i - 1 + |needle|] == hay[i..i + |needle|];
    }
  }

  /** The scan finds `needle` exactly when it occurs at some position. */
  lemma {:induction false} ContainsIffOccurs(hay: string, needle: string)
    ensures Contains(hay, needle) <==> exists i :: OccursAt(hay, needle, i)
  {
    assert OccursAt(hay, needle, 0) <==> StartsWith(hay, needle);
    if |hay| > 0 {
      ContainsIffOccurs(hay[1..], needle);
      forall i | i > 0
        ensures OccursAt(hay, needle, i) <==> OccursAt(hay[1..], needle, i - 1)
      {
        OccursShift(hay, needle, i);
      }
      if Contains(hay[1..], needle) {
        var j :| OccursAt(hay[1..], needle, j);
        assert OccursAt(hay, needle, j + 1);
      }
    }
  }

  /** The case-insensitive search used by every search box: `text.toLowerCase().includes(query.toLowerCase())`. */
  predicate MatchesSearch(text: string, query: string) {
    Contains(ToLower(text), ToLower(query))
  }

  /** The empty string occurs in every string, so an empty search matches everything. */
  lemma EmptySearchMatches(text: string)
    ensures MatchesSearch(text, "")
  {
    assert StartsWith(ToLower(text), ToLower(""));
  }

  /** The search ignores case on both sides: lower-casing either the text or the query first changes nothing. */
  lemma SearchIgnoresCase(text: string, query: string)
    ensures MatchesSearch(ToLower(text), query) == MatchesSearch(text, query)
    ensures MatchesSearch(text, ToLower(query)) == MatchesSearch(text, query)
  {
    ToLowerIdempotent(text);
    ToLowerIdempotent(query);
  }

  /** Trimming is idempotent. */
  lemma TrimIdempotent(s: string)
    ensures Trim(Trim(s)) == Trim(s)
  {
    var t := Trim(s);
    assert TrimStart(t) == t;
    assert TrimEnd(t) == t;
  }

  /** A trimmed string that is not empty is not blank. */
  lemma TrimmedNotBlank(s: string)
    requires !IsBlank(s)
    ensures !IsBlank(Trim(s)) && |Trim(s)| > 0
  {
    assert !IsWhitespace(Trim(s)[0]);
  }

  /** Lower-casing is idempotent. */
  lemma ToLowerIdempotent(s: string)
    ensures ToLower(ToLower(s)) == ToLower(s)
  {
  }
}
