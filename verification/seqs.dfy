/**
  Generic building blocks shared by every module of the model: an optional
  value (TypeScript's `T | undefined` / `T | null`) and the JavaScript array
  operations `filter`, `find`, `some` and `filter(..).length`, each defined
  once and characterised by its contract.
 */
module Seqs {

  /** An optional value: `undefined`/`null` is `None`. */
  datatype Option<+T> = None | Some(value: T) {

    /** The encapsulated value, or `default` when absent (`x ?? default`). */
    function GetOr(default: T): T {
      match this
      case Some(v) => v
      case None => default
    }
  }

  /** `s.filter(f)`: the elements satisfying `f`, in their original order. */
  function Filter<T(==)>(s: seq<T>, f: T -> bool): (r: seq<T>)
    ensures |r| <= |s|
    ensures forall i :: 0 <= i < |r| ==> r[i] in s && f(r[i])
    ensures forall i :: 0 <= i < |s| && f(s[i]) ==> s[i] in r
    ensures IsSubsequence(r, s)
    ensures (forall i :: 0 <= i < |s| ==> f(s[i])) ==> r == s
  {
    if |s| == 0 then []
    else if f(s[0]) then [s[0]] + Filter(s[1..], f)
    else Filter(s[1..], f)
  }

  /** `s.filter(f).length`. */
  function Count<T>(s: seq<T>, f: T -> bool): (n: nat)
    ensures n <= |s|
    ensures n == 0 <==> forall i :: 0 <= i < |s| ==> !f(s[i])
    ensures n == |s| <==> forall i :: 0 <= i < |s| ==> f(s[i])
  {
    if |s| == 0 then 0
    else (if f(s[0]) then 1 else 0) + Count(s[1..], f)
  }

  /** `s.some(f)`. */
  predicate Exists<T>(s: seq<T>, f: T -> bool) {
    exists i :: 0 <= i < |s| && f(s[i])
  }

  /** `s.find(f)`: the first element satisfying `f`, if any. */
  function FindFirst<T>(s: seq<T>, f: T -> bool): (r: Option<T>)
    ensures r.None? <==> forall i :: 0 <= i < |s| ==> !f(s[i])
    ensures r.Some? ==> f(r.value)
    ensures r.Some? ==> exists k :: 0 <= k < |s| && s[k] == r.value && forall j :: 0 <= j < k ==> !f(s[j])
  {
    if |s| == 0 then None
    else if f(s[0]) then Some(s[0])
    else
      var rest := FindFirst(s[1..], f);
      assert rest.Some? ==> exists k :: 0 <= k < |s| && s[k] == rest.value && forall j :: 0 <= j < k ==> !f(s[j]) by {
        if rest.Some? {
          var k :| 0 <= k < |s[1..]| && s[1..][k] == rest.value && forall j :: 0 <= j < k ==> !f(s[1..][j]);
          assert s[k + 1] == rest.value;
          assert forall j :: 0 <= j < k + 1 ==> !f(s[j]) by {
            forall j | 0 <= j < k + 1 ensures !f(s[j]) {
              if j > 0 { assert s[j] == s[1..][j - 1]; }
            }
          }
        }
      }
      rest
  }

  /** `a` is obtained from `b` by deleting elements, keeping the order of the rest. */
  predicate IsSubsequence<T(==)>(a: seq<T>, b: seq<T>) {
    |a| == 0 ||
    (|b| > 0 && ((a[0] == b[0] && IsSubsequence(a[1..], b[1..])) || IsSubsequence(a, b[1..])))
  }

  /** A subsequence of a subsequence is a subsequence. */
  lemma {:induction false} SubsequenceTrans<T>(a: seq<T>, b: seq<T>, c: seq<T>)
    requires IsSubsequence(a, b) && IsSubsequence(b, c)
    ensures IsSubsequence(a, c)
    decreases |c|
  {
    if |a| > 0 {
      if b[0] == c[0] && IsSubsequence(b[1..], c[1..]) {
        if a[0] == b[0] && IsSubsequence(a[1..], b[1..]) {
          SubsequenceTrans(a[1..], b[1..], c[1..]);
        } else {
          SubsequenceTrans(a, b[1..], c[1..]);
        }
      } else {
        SubsequenceTrans(a, b, c[1..]);
      }
    }
  }

  /** No value occurs twice. */
  predicate NoDuplicates<T(==)>(s: seq<T>) {
    forall i, j :: 0 <= i < j < |s| ==> s[i] != s[j]
  }

  /** `filter` distributes over concatenation: it keeps relative order. */
  lemma {:induction false} FilterAppend<T>(a: seq<T>, b: seq<T>, f: T -> bool)
    ensures Filter(a + b, f) == Filter(a, f) + Filter(b, f)
  {
    if |a| == 0 {
      assert a + b == b;
    } else {
      assert (a + b)[1..] == a[1..] + b;
      FilterAppend(a[1..], b, f);
    }
  }

  /** Counting is the length of the filtered sequence. */
  lemma {:induction false} CountIsFilterLength<T>(s: seq<T>, f: T -> bool)
    ensures Count(s, f) == |Filter(s, f)|
  {
    if |s| > 0 {
      CountIsFilterLength(s[1..], f);
    }
  }

  /** Counting distributes over concatenation. */
  lemma {:induction false} CountAppend<T>(a: seq<T>, b: seq<T>, f: T -> bool)
    ensures Count(a + b, f) == Count(a, f) + Count(b, f)
  {
    if |a| == 0 {
      assert a + b == b;
    } else {
      assert (a + b)[1..] == a[1..] + b;
      CountAppend(a[1..], b, f);
    }
  }

  /** Filtering by `f` and by its negation splits a sequence in two. */
  lemma {:induction false} FilterComplement<T>(s: seq<T>, f: T -> bool, g: T -> bool)
    requires forall i :: 0 <= i < |s| ==> (g(s[i]) <==> !f(s[i]))
    ensures |Filter(s, f)| + |Filter(s, g)| == |s|
  {
    if |s| > 0 {
      FilterComplement(s[1..], f, g);
    }
  }

  /** When `f` is the disjoint union of `g` and `h`, its count is the sum of theirs. */
  lemma {:induction false} CountDisjointUnion<T>(s: seq<T>, f: T -> bool, g: T -> bool, h: T -> bool)
    requires forall i :: 0 <= i < |s| ==> (f(s[i]) <==> g(s[i]) || h(s[i]))
    requires forall i :: 0 <= i < |s| ==> !(g(s[i]) && h(s[i]))
    ensures Count(s, f) == Count(s, g) + Count(s, h)
  {
    if |s| > 0 {
      CountDisjointUnion(s[1..], f, g, h);
    }
  }

  /** Counting inside a filtered sequence counts the conjunction. */
  lemma {:induction false} CountOfFilter<T>(s: seq<T>, f: T -> bool, g: T -> bool, fg: T -> bool)
    requires forall i :: 0 <= i < |s| ==> (fg(s[i]) <==> f(s[i]) && g(s[i]))
    ensures Count(Filter(s, f), g) == Count(s, fg)
  {
    if |s| > 0 {
      CountOfFilter(s[1..], f, g, fg);
    }
  }

  /** Counting is monotone in the predicate. */
  lemma {:induction false} CountMonotone<T>(s: seq<T>, f: T -> bool, g: T -> bool)
    requires forall i :: 0 <= i < |s| ==> f(s[i]) ==> g(s[i])
    ensures Count(s, f) <= Count(s, g)
  {
    if |s| > 0 {
      CountMonotone(s[1..], f, g);
    }
  }

  /** Filtering with predicates that agree on the sequence gives the same result. */
  lemma {:induction false} FilterCongruent<T>(s: seq<T>, f: T -> bool, g: T -> bool)
    requires forall i :: 0 <= i < |s| ==> (f(s[i]) <==> g(s[i]))
    ensures Filter(s, f) == Filter(s, g)
  {
    if |s| > 0 {
      FilterCongruent(s[1..], f, g);
    }
  }

  /** The set of values `f` takes on the elements of `s`. */
  function Image<T, U>(s: seq<T>, f: T -> U): set<U> {
    set i | 0 <= i < |s| :: f(s[i])
  }

  /** The image holds the value of every element. */
  lemma ImageHas<T, U>(s: seq<T>, f: T -> U, n: nat)
    requires n < |s|
    ensures f(s[n]) in Image(s, f)
  {
  }

  /** An image has at most as many values as the sequence has elements, exactly as many when `f` separates them. */
  lemma {:induction false} ImageSize<T, U>(s: seq<T>, f: T -> U)
    ensures |Image(s, f)| <= |s|
    ensures (forall i, j :: 0 <= i < j < |s| ==> f(s[i]) != f(s[j])) ==> |Image(s, f)| == |s|
  {
    if |s| > 0 {
      ImageSize(s[1..], f);
      var rest := Image(s[1..], f);
      assert Image(s, f) == {f(s[0])} + rest by {
        forall i | 0 <= i < |s| ensures f(s[i]) in {f(s[0])} + rest {
          if i > 0 { assert s[i] == s[1..][i - 1]; }
        }
        forall i | 0 <= i < |s[1..]| ensures f(s[1..][i]) in Image(s, f) {
          assert s[1..][i] == s[i + 1];
        }
      }
      if forall i, j :: 0 <= i < j < |s| ==> f(s[i]) != f(s[j]) {
        assert forall i, j :: 0 <= i < j < |s[1..]| ==> f(s[1..][i]) != f(s[1..][j]) by {
          forall i, j | 0 <= i < j < |s[1..]| ensures f(s[1..][i]) != f(s[1..][j]) {
            assert s[1..][i] == s[i + 1] && s[1..][j] == s[j + 1];
          }
        }
        assert f(s[0]) !in rest by {
          forall i | 0 <= i < |s[1..]| ensures f(s[1..][i]) != f(s[0]) {
            assert s[1..][i] == s[i + 1];
          }
        }
      }
    }
  }

  /** A subset is no larger than its superset. */
  lemma {:induction false} SubsetSize<T>(a: set<T>, b: set<T>)
    requires a <= b
    ensures |a| <= |b|
  {
    if a != {} {
      var x :| x in a;
      SubsetSize(a - {x}, b - {x});
    }
  }
}
