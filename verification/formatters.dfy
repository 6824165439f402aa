/**
  Relative-time formatting (src/utils/formatters.ts). The clock reading
  `now` and the locale date text are parameters; times are milliseconds.
 */
module Formatters {

  /** The bucket a time difference falls into, with its whole-unit value. */
  datatype RelativeTime = JustNow | MinutesAgo(n: nat) | HoursAgo(n: nat) | DaysAgo(n: nat) | OnDate

  const SecondMs: int := 1000
  const MinuteMs: int := 60 * SecondMs
  const HourMs: int := 60 * MinuteMs
  const DayMs: int := 24 * HourMs
  const WeekMs: int := 7 * DayMs

  /** `Math.floor(x / d)` for a positive divisor; Dafny's `/` already rounds down there. */
  function FloorDiv(x: int, d: int): (q: int)
    requires d > 0
    ensures q * d <= x < q * d + d
  {
    x / d
  }

  /** Multiplying both sides by a positive number keeps an inequality. */
  lemma MulMonotone(u: int, v: int, m: int)
    requires u <= v && m > 0
    ensures u * m <= v * m
  {
    assert v * m - u * m == (v - u) * m;
  }

  /** A positive factor can be cancelled from a strict inequality. */
  lemma MulCancel(u: int, v: int, m: int)
    requires u * m < v * m && m > 0
    ensures u < v
  {
    if u >= v {
      MulMonotone(v, u, m);
    }
  }

  /** `floor(x / d)` is the only `q` with `q * d <= x < q * d + d`. */
  lemma FloorDivUnique(x: int, d: int, q: int)
    requires d > 0 && q * d <= x < q * d + d
    ensures FloorDiv(x, d) == q
  {
    var f := FloorDiv(x, d);
    assert f * d <= x < f * d + d;
    assert f * d < (q + 1) * d && q * d < (f + 1) * d;
    MulCancel(f, q + 1, d);
    MulCancel(q, f + 1, d);
  }

  /** Dividing by `a` and then by `b`, rounding down each time, is dividing by `a * b`. */
  lemma FloorDivTwice(x: int, a: int, b: int)
    requires a > 0 && b > 0
    ensures FloorDiv(FloorDiv(x, a), b) == FloorDiv(x, a * b)
  {
    var q1 := FloorDiv(x, a);
    var q2 := FloorDiv(q1, b);
    MulMonotone(q2 * b, q1, a);
    MulMonotone(q1 + 1, q2 * b + b, a);
    assert (q2 * b) * a == q2 * (a * b);
    assert (q2 * b + b) * a == q2 * (a * b) + a * b;
    assert (q1 + 1) * a == q1 * a + a;
    FloorDivUnique(x, a * b, q2);
  }

  /** The bucketing of `formatRelativeTime` for a difference `diffMs = now - date`. */
  function Bucket(diffMs: int): (r: RelativeTime)
    ensures r.JustNow? <==> diffMs < MinuteMs
    ensures r.MinutesAgo? <==> MinuteMs <= diffMs < HourMs
    ensures r.HoursAgo? <==> HourMs <= diffMs < DayMs
    ensures r.DaysAgo? <==> DayMs <= diffMs < WeekMs
    ensures r.OnDate? <==> WeekMs <= diffMs
    ensures r.MinutesAgo? ==> 1 <= r.n <= 59 && r.n * MinuteMs <= diffMs < (r.n + 1) * MinuteMs
    ensures r.HoursAgo? ==> 1 <= r.n <= 23 && r.n * HourMs <= diffMs < (r.n + 1) * HourMs
    ensures r.DaysAgo? ==> 1 <= r.n <= 6 && r.n * DayMs <= diffMs < (r.n + 1) * DayMs
  {
    var diffSec := FloorDiv(diffMs, 1000);
    var diffMin := FloorDiv(diffSec, 60);
    var diffHour := FloorDiv(diffMin, 60);
    var diffDay := FloorDiv(diffHour, 24);
    FloorDivTwice(diffMs, 1000, 60);
    FloorDivTwice(diffMs, 60000, 60);
    FloorDivTwice(diffMs, 3600000, 24);
    if diffSec < 60 then JustNow
    else if diffMin < 60 then MinutesAgo(diffMin)
    else if diffHour < 24 then HoursAgo(diffHour)
    else if diffDay < 7 then DaysAgo(diffDay)
    else OnDate
  }

  /** How coarse a bucket is: 0 for "just now" up to 4 for a date. */
  function Rank(r: RelativeTime): nat {
    match r
    case JustNow => 0
    case MinutesAgo(_) => 1
    case HoursAgo(_) => 2
    case DaysAgo(_) => 3
    case OnDate => 4
  }

  /** A larger difference never lands in a finer bucket, nor on a smaller value in the same bucket. */
  lemma BucketMonotone(d1: int, d2: int)
    requires d1 <= d2
    ensures Rank(Bucket(d1)) <= Rank(Bucket(d2))
    ensures Rank(Bucket(d1)) == Rank(Bucket(d2)) && Bucket(d1).MinutesAgo? ==> Bucket(d1).n <= Bucket(d2).n
    ensures Rank(Bucket(d1)) == Rank(Bucket(d2)) && Bucket(d1).HoursAgo? ==> Bucket(d1).n <= Bucket(d2).n
    ensures Rank(Bucket(d1)) == Rank(Bucket(d2)) && Bucket(d1).DaysAgo? ==> Bucket(d1).n <= Bucket(d2).n
  {
    var b1 := Bucket(d1);
    var b2 := Bucket(d2);
    if Rank(b1) == Rank(b2) && (b1.MinutesAgo? || b1.HoursAgo? || b1.DaysAgo?) {
      var unit := if b1.MinutesAgo? then MinuteMs else if b1.HoursAgo? then HourMs else DayMs;
      assert b1.n * unit <= d1 <= d2 < (b2.n + 1) * unit;
      MulCancel(b1.n, b2.n + 1, unit);
    }
  }

  /** The decimal digits of a natural number. */
  function NatToString(n: nat): (s: string)
    ensures |s| >= 1
    ensures forall i :: 0 <= i < |s| ==> '0' <= s[i] <= '9'
    ensures (s[0] == '0') <==> n == 0
    ensures n < 10 <==> |s| == 1
  {
    if n < 10 then [DigitChar(n)] else NatToString(n / 10) + [DigitChar(n % 10)]
  }

  function DigitChar(d: nat): (c: char)
    requires d < 10
    ensures '0' <= c <= '9' && c as int - '0' as int == d
  {
    ('0' as int + d) as char
  }

  /** The number a string of decimal digits denotes. */
  function DigitsValue(s: string): nat
    requires forall i :: 0 <= i < |s| ==> '0' <= s[i] <= '9'
  {
    if |s| == 0 then 0
    else DigitsValue(s[..|s| - 1]) * 10 + (s[|s| - 1] as int - '0' as int)
  }

  /** Reading back the printed digits gives the number. */
  lemma {:induction false} NatToStringRoundTrip(n: nat)
    ensures DigitsValue(NatToString(n)) == n
  {
    if n >= 10 {
      NatToStringRoundTrip(n / 10);
      var s := NatToString(n);
      assert s[..|s| - 1] == NatToString(n / 10);
    }
  }

  /** `"<n> <unit> ago"`, with the singular unit exactly when `n` is one. */
  function Ago(n: nat, singular: string): string {
    NatToString(n) + " " + (if n == 1 then singular else singular + "s") + " ago"
  }

  /** `formatRelativeTime(date)` read at time `now`; `localeDate` stands for `date.toLocaleDateString()`. */
  function FormatRelativeTime(date: int, now: int, localeDate: string): (text: string)
    ensures now - date < MinuteMs <==> text == "just now" && Bucket(now - date).JustNow?
    ensures now - date >= WeekMs ==> text == localeDate
    ensures Bucket(now - date).MinutesAgo? ==> text == Ago(Bucket(now - date).n, "minute")
    ensures Bucket(now - date).HoursAgo? ==> text == Ago(Bucket(now - date).n, "hour")
    ensures Bucket(now - date).DaysAgo? ==> text == Ago(Bucket(now - date).n, "day")
  {
    match Bucket(now - date)
    case JustNow => "just now"
    case MinutesAgo(m) => Ago(m, "minute")
    case HoursAgo(h) => Ago(h, "hour")
    case DaysAgo(d) => Ago(d, "day")
    case OnDate => localeDate
  }

  /** A date in the future (negative difference) still reads "just now". */
  lemma FutureIsJustNow(date: int, now: int, localeDate: string)
    requires date > now
    ensures FormatRelativeTime(date, now, localeDate) == "just now"
  {
  }

  /** The plural "s" appears exactly when the value is not one. */
  lemma PluralIffNotOne(n: nat, singular: string)
    ensures var text := Ago(n, singular);
      var tail := singular + "s ago";
      (|text| >= |tail| && text[|text| - |tail|..] == tail) <==> n != 1
  {
    var text := Ago(n, singular);
    var tail := singular + "s ago";
    if n == 1 {
      assert text == "1 " + singular + " ago";
      if |text| >= |tail| {
        assert text[|text| - |tail|..] != tail by {
          assert |text| - |tail| == 1;
          assert text[1] == ' ';
          assert |tail| > 0 && text[|text| - |tail|..][0] == text[1];
          if |singular| == 0 {
            assert tail[0] == 's';
          } else {
            assert text[2..2 + |singular|] == singular;
            assert tail[..|singular|] == singular;
            assert text[|text| - |tail|..][1..1 + |singular|] == text[2..2 + |singular|];
            assert text[|text| - |tail|..][0] == ' ';
            assert text[|text| - |tail|..][..|singular| + 1] == [' '] + singular;
            assert tail[..|singular| + 1] == singular + ['s'];
            SpaceShiftMismatch(singular);
          }
        }
      }
    } else {
      assert text == NatToString(n) + " " + tail;
      assert text[|text| - |tail|..] == tail;
    }
  }

  /** `" " + w` never equals `w + "s"`: the first has one more space than the second. */
  lemma SpaceShiftMismatch(w: string)
    ensures [' '] + w != w + ['s']
  {
    if [' '] + w == w + ['s'] {
      CountSpacesAppend([' '], w);
      CountSpacesAppend(w, ['s']);
    }
  }

  function Spaces(s: string): nat {
    if |s| == 0 then 0 else (if s[0] == ' ' then 1 else 0) + Spaces(s[1..])
  }

  lemma {:induction false} CountSpacesAppend(a: string, b: string)
    ensures Spaces(a + b) == Spaces(a) + Spaces(b)
  {
    if |a| > 0 {
      assert (a + b)[1..] == a[1..] + b;
      CountSpacesAppend(a[1..], b);
    } else {
      assert a + b == b;
    }
  }
}
