/**
  The amount field of the product form (src/components/products/AddEditProductForm.tsx):
  `sanitizeAmountInput` turns commas into dots, drops every character other
  than digits and dots, and when more than one dot is left keeps only the
  first, by splitting on '.' and joining the tail back without separators.
 */
module AmountInput {

  predicate IsDigit(c: char) {
    '0' <= c <= '9'
  }

  /** The characters the sanitised text may hold. */
  predicate AmountChar(c: char) {
    IsDigit(c) || c == '.'
  }

  /** A decimal separator as typed: either a dot or a comma. */
  predicate IsSeparator(c: char) {
    c == '.' || c == ','
  }

  /** Number of dots. */
  function Dots(s: string): nat {
    if |s| == 0 then 0 else (if s[0] == '.' then 1 else 0) + Dots(s[1..])
  }

  /** The digits of `s`, in order. */
  function Digits(s: string): string {
    if |s| == 0 then "" else (if IsDigit(s[0]) then [s[0]] else "") + Digits(s[1..])
  }

  /** The text before the first separator (dot or comma). */
  function BeforeSeparator(s: string): string {
    if |s| == 0 || IsSeparator(s[0]) then "" else [s[0]] + BeforeSeparator(s[1..])
  }

  /** `text.replace(/,/g, '.')`. */
  function CommasToDots(s: string): (r: string)
    ensures |r| == |s|
    ensures forall i :: 0 <= i < |s| ==> r[i] == (if s[i] == ',' then '.' else s[i])
  {
    seq(|s|, i requires 0 <= i < |s| => if s[i] == ',' then '.' else s[i])
  }

  /** `.replace(/[^0-9.]/g, '')`. */
  function KeepAmountChars(s: string): string {
    if |s| == 0 then "" else (if AmountChar(s[0]) then [s[0]] else "") + KeepAmountChars(s[1..])
  }

  /** `allowed`: the text after both replacements. */
  function Allowed(text: string): string {
    KeepAmountChars(CommasToDots(text))
  }

  /** `s.split('.')`. */
  function Split(s: string): (parts: seq<string>)
    ensures |parts| >= 1
  {
    if |s| == 0 then [""]
    else
      var rest := Split(s[1..]);
      if s[0] == '.' then [""] + rest else [[s[0]] + rest[0]] + rest[1..]
  }

  /** `parts.join('')`. */
  function Concat(parts: seq<string>): string {
    if |parts| == 0 then "" else parts[0] + Concat(parts[1..])
  }

  /**
    `sanitizeAmountInput`. The result holds only digits and dots, at most one
    dot, and exactly one when the input had a dot or a comma; it keeps every
    digit of the input in order, and the digits before its dot are the digits
    typed before the first separator.
   */
  function Sanitize(text: string): (r: string)
    ensures forall i :: 0 <= i < |r| ==> AmountChar(r[i])
    ensures Dots(r) <= 1
    ensures Dots(r) == 1 <==> exists i :: 0 <= i < |text| && IsSeparator(text[i])
    ensures Digits(r) == Digits(text)
    ensures Dots(r) == 1 ==> BeforeDot(r) == Digits(BeforeSeparator(text))
  {
    var allowed := Allowed(text);
    var parts := Split(allowed);
    var r := if |parts| > 2 then parts[0] + "." + Concat(parts[1..]) else allowed;
    SanitizeClosedForm(text);
    KeepFirstDotFacts(text);
    r
  }

  /** The text before the first dot. */
  function BeforeDot(s: string): string {
    if |s| == 0 || s[0] == '.' then "" else [s[0]] + BeforeDot(s[1..])
  }

  /** The text after the first dot (empty when there is none). */
  function AfterDot(s: string): string {
    if |s| == 0 then "" else if s[0] == '.' then s[1..] else AfterDot(s[1..])
  }

  /** `s` without its dots. */
  function StripDots(s: string): string {
    if |s| == 0 then "" else (if s[0] == '.' then "" else [s[0]]) + StripDots(s[1..])
  }

  /** What splitting on '.' produces: one more part than dots, the text before the first dot, and the rest's non-dot text. */
  lemma {:induction false} SplitShape(s: string)
    ensures |Split(s)| == Dots(s) + 1
    ensures Split(s)[0] == BeforeDot(s)
    ensures Concat(Split(s)[1..]) == StripDots(AfterDot(s))
  {
    if |s| > 0 {
      SplitShape(s[1..]);
      var rest := Split(s[1..]);
      if s[0] == '.' {
        ConcatSplit(s[1..]);
        assert Split(s)[1..] == rest;
      } else {
        assert Split(s)[1..] == rest[1..];
      }
    }
  }

  /** Joining the parts without separators drops exactly the dots. */
  lemma {:induction false} ConcatSplit(s: string)
    ensures Concat(Split(s)) == StripDots(s)
  {
    if |s| > 0 {
      ConcatSplit(s[1..]);
      var rest := Split(s[1..]);
      if s[0] == '.' {
        assert Split(s)[1..] == rest;
      } else {
        var parts := Split(s);
        assert parts[1..] == rest[1..];
        assert Concat(rest) == rest[0] + Concat(rest[1..]);
        assert Concat(parts) == [s[0]] + rest[0] + Concat(rest[1..]);
      }
    }
  }

  /** Keeps the first dot and drops the later ones; text with at most one dot is kept as it is. */
  function KeepFirstDot(s: string): string {
    if Dots(s) >= 2 then BeforeDot(s) + "." + StripDots(AfterDot(s)) else s
  }

  /** Splitting on '.' and re-joining the tail keeps the first dot and drops the later ones. */
  lemma SanitizeClosedForm(text: string)
    ensures var allowed := Allowed(text);
      var parts := Split(allowed);
      (if |parts| > 2 then parts[0] + "." + Concat(parts[1..]) else allowed) == KeepFirstDot(allowed)
  {
    SplitShape(Allowed(text));
  }

  /** The properties of the sanitised text, stated for the closed form. */
  lemma KeepFirstDotFacts(text: string)
    ensures var r := KeepFirstDot(Allowed(text));
      && (forall i :: 0 <= i < |r| ==> AmountChar(r[i]))
      && Dots(r) <= 1
      && (Dots(r) == 1 <==> exists i :: 0 <= i < |text| && IsSeparator(text[i]))
      && Digits(r) == Digits(text)
      && (Dots(r) == 1 ==> BeforeDot(r) == Digits(BeforeSeparator(text)))
  {
    var allowed := Allowed(text);
    AllowedFacts(text);
    if Dots(allowed) >= 2 {
      DropLaterDots(allowed);
    } else if Dots(allowed) == 1 {
      BeforeDotFacts(allowed);
    }
  }

  /** With two or more dots, the first is kept, the others dropped, and nothing else changes. */
  lemma DropLaterDots(s: string)
    requires Dots(s) >= 2
    requires forall i :: 0 <= i < |s| ==> AmountChar(s[i])
    ensures var r := KeepFirstDot(s);
      && (forall i :: 0 <= i < |r| ==> AmountChar(r[i]))
      && Dots(r) == 1
      && Digits(r) == Digits(s)
      && BeforeDot(r) == BeforeDot(s)
  {
    var a, b := BeforeDot(s), AfterDot(s);
    SplitAtFirstDot(s);
    JoinChars(s);
    JoinCounts(a, b);
    BeforeDotOfJoin(a, StripDots(b));
  }

  /** Text with a dot is the text before it, the dot, and the text after it. */
  lemma SplitAtFirstDot(s: string)
    requires Dots(s) >= 2
    ensures s == BeforeDot(s) + ("." + AfterDot(s))
    ensures KeepFirstDot(s) == BeforeDot(s) + ("." + StripDots(AfterDot(s)))
    ensures Dots(BeforeDot(s)) == 0
  {
    BeforeDotFacts(s);
  }

  /** Keeping the first dot leaves amount text as amount text. */
  lemma JoinChars(s: string)
    requires Dots(s) >= 2
    requires IsAmountText(s)
    ensures IsAmountText(KeepFirstDot(s))
  {
    var a, b := BeforeDot(s), StripDots(AfterDot(s));
    AroundDotChars(s);
    StripDotsFacts(AfterDot(s));
    assert IsAmountText(".");
    AmountTextAppend(".", b);
    AmountTextAppend(a, "." + b);
    assert KeepFirstDot(s) == a + ("." + b);
  }

  /** Re-joining around one dot with the tail's dots stripped leaves one dot and every digit. */
  lemma JoinCounts(a: string, b: string)
    requires Dots(a) == 0
    ensures Dots(a + ("." + StripDots(b))) == 1
    ensures Digits(a + ("." + StripDots(b))) == Digits(a + ("." + b))
  {
    StripDotsFacts(b);
    DotsAppend(a, "." + StripDots(b));
    DotsAppend(".", StripDots(b));
    DigitsAppend(a, "." + StripDots(b));
    DigitsAppend(".", StripDots(b));
    DigitsAppend(a, "." + b);
    DigitsAppend(".", b);
  }

  lemma {:induction false} DotsAppend(a: string, b: string)
    ensures Dots(a + b) == Dots(a) + Dots(b)
  {
    if |a| > 0 {
      assert (a + b)[1..] == a[1..] + b;
      DotsAppend(a[1..], b);
    } else {
      assert a + b == b;
    }
  }

  lemma {:induction false} DigitsAppend(a: string, b: string)
    ensures Digits(a + b) == Digits(a) + Digits(b)
  {
    if |a| > 0 {
      assert (a + b)[1..] == a[1..] + b;
      DigitsAppend(a[1..], b);
    } else {
      assert a + b == b;
    }
  }

  /** Text made only of digits and dots. */
  predicate IsAmountText(s: string) {
    forall i :: 0 <= i < |s| ==> AmountChar(s[i])
  }

  /** The text before the first dot has no dot; with a dot present, the text is split around it. */
  lemma {:induction false} BeforeDotFacts(s: string)
    ensures Dots(BeforeDot(s)) == 0
    ensures Dots(s) >= 1 ==> s == BeforeDot(s) + ("." + AfterDot(s)) && Dots(AfterDot(s)) == Dots(s) - 1
  {
    if |s| > 0 {
      BeforeDotFacts(s[1..]);
      if s[0] != '.' && Dots(s) >= 1 {
        assert s == [s[0]] + s[1..];
      }
    }
  }

  /** Both sides of the first dot of amount text are amount text. */
  lemma {:induction false} AroundDotChars(s: string)
    requires IsAmountText(s)
    ensures IsAmountText(BeforeDot(s)) && IsAmountText(AfterDot(s))
  {
    if |s| > 0 {
      assert IsAmountText(s[1..]) by {
        forall i | 0 <= i < |s[1..]| ensures AmountChar(s[1..][i]) {
          assert s[1..][i] == s[i + 1];
        }
      }
      AroundDotChars(s[1..]);
    }
  }

  /** Stripping dots keeps the digits, leaves no dot and keeps amount text amount text. */
  lemma {:induction false} StripDotsFacts(s: string)
    ensures Dots(StripDots(s)) == 0
    ensures Digits(StripDots(s)) == Digits(s)
    ensures IsAmountText(s) ==> IsAmountText(StripDots(s))
  {
    if |s| > 0 {
      StripDotsFacts(s[1..]);
      var head := if s[0] == '.' then "" else [s[0]];
      DotsAppend(head, StripDots(s[1..]));
      DigitsAppend(head, StripDots(s[1..]));
      if IsAmountText(s) {
        assert IsAmountText(s[1..]) by {
          forall i | 0 <= i < |s[1..]| ensures AmountChar(s[1..][i]) {
            assert s[1..][i] == s[i + 1];
          }
        }
        AmountTextAppend(head, StripDots(s[1..]));
      }
    }
  }

  /** Amount text joined to amount text is amount text. */
  lemma AmountTextAppend(a: string, b: string)
    requires IsAmountText(a) && IsAmountText(b)
    ensures IsAmountText(a + b)
  {
    forall i | 0 <= i < |a + b| ensures AmountChar((a + b)[i]) {
      if i < |a| {
        assert (a + b)[i] == a[i];
      } else {
        assert (a + b)[i] == b[i - |a|];
      }
    }
  }

  /** What the first dot is preceded by after re-joining. */
  lemma {:induction false} BeforeDotOfJoin(a: string, b: string)
    requires Dots(a) == 0
    ensures BeforeDot(a + "." + b) == a
  {
    if |a| > 0 {
      assert (a + "." + b)[1..] == a[1..] + "." + b;
      BeforeDotOfJoin(a[1..], b);
    }
  }

  /** The character `text[0]` becomes after both replacements, if any. */
  function AllowedHead(c: char): string {
    var d := if c == ',' then '.' else c;
    if AmountChar(d) then [d] else ""
  }

  /** The replacements work character by character. */
  lemma AllowedStep(text: string)
    requires |text| > 0
    ensures Allowed(text) == AllowedHead(text[0]) + Allowed(text[1..])
  {
    assert CommasToDots(text)[1..] == CommasToDots(text[1..]);
  }

  /**
    The replacements: only digits and dots remain, one dot per separator
    typed, every digit kept, and the digits before the first separator are
    exactly what precedes the first dot.
   */
  lemma AllowedFacts(text: string)
    ensures forall i :: 0 <= i < |Allowed(text)| ==> AmountChar(Allowed(text)[i])
    ensures Dots(Allowed(text)) == 0 <==> forall i :: 0 <= i < |text| ==> !IsSeparator(text[i])
    ensures Digits(Allowed(text)) == Digits(text)
    ensures BeforeDot(Allowed(text)) == Digits(BeforeSeparator(text))
  {
    AllowedChars(text);
    AllowedDots(text);
    AllowedDigits(text);
    AllowedBeforeDot(text);
  }

  lemma {:induction false} AllowedChars(text: string)
    ensures forall i :: 0 <= i < |Allowed(text)| ==> AmountChar(Allowed(text)[i])
  {
    if |text| > 0 {
      AllowedStep(text);
      AllowedChars(text[1..]);
    }
  }

  lemma {:induction false} AllowedDots(text: string)
    ensures Dots(Allowed(text)) == 0 <==> forall i :: 0 <= i < |text| ==> !IsSeparator(text[i])
  {
    if |text| > 0 {
      var tail := text[1..];
      AllowedStep(text);
      AllowedDots(tail);
      DotsAppend(AllowedHead(text[0]), Allowed(tail));
      assert forall i :: 0 < i < |text| ==> text[i] == tail[i - 1];
    }
  }

  lemma {:induction false} AllowedDigits(text: string)
    ensures Digits(Allowed(text)) == Digits(text)
  {
    if |text| > 0 {
      AllowedStep(text);
      AllowedDigits(text[1..]);
      DigitsAppend(AllowedHead(text[0]), Allowed(text[1..]));
    }
  }

  lemma {:induction false} AllowedBeforeDot(text: string)
    ensures BeforeDot(Allowed(text)) == Digits(BeforeSeparator(text))
  {
    if |text| > 0 {
      var tail := text[1..];
      var head := AllowedHead(text[0]);
      AllowedStep(text);
      AllowedBeforeDot(tail);
      if !IsSeparator(text[0]) {
        assert BeforeSeparator(text) == [text[0]] + BeforeSeparator(tail);
        DigitsAppend([text[0]], BeforeSeparator(tail));
        assert [text[0]][1..] == "";
        if |head| == 1 {
          assert (head + Allowed(tail))[1..] == Allowed(tail);
        } else {
          assert head + Allowed(tail) == Allowed(tail);
        }
      }
    }
  }

  /** A text that is already sanitised is left as it is. */
  lemma SanitizeIdempotent(text: string)
    ensures Sanitize(Sanitize(text)) == Sanitize(text)
  {
    var r := Sanitize(text);
    CleanTextUnchanged(r);
    SanitizeClosedForm(r);
  }

  /** Text of digits and at most one dot passes both replacements unchanged. */
  lemma {:induction false} CleanTextUnchanged(s: string)
    requires forall i :: 0 <= i < |s| ==> AmountChar(s[i])
    ensures Allowed(s) == s
  {
    if |s| > 0 {
      CleanTextUnchanged(s[1..]);
      assert CommasToDots(s) == s;
      assert CommasToDots(s[1..]) == s[1..];
    }
  }
}
