/**
  Category lookup and the keyword-based category suggestion engine
  (src/utils/categoryHelper.ts). The static catalog is a parameter.
 */
module CategoryHelper {
  import opened Seqs
  import opened Text
  import opened Types

  /** No two catalog entries share an id. */
  predicate DistinctIds(catalog: seq<Category>) {
    forall i, j :: 0 <= i < j < |catalog| ==> catalog[i].id != catalog[j].id
  }

  /** `productName.toLowerCase().trim()`. */
  function Normalize(productName: string): string {
    Trim(ToLower(productName))
  }

  /** A keyword hits when its lower-cased form is a substring of the normalised name. */
  predicate KeywordHits(normalized: string, keyword: string) {
    Contains(normalized, ToLower(keyword))
  }

  /** The number of keywords of `c` that hit (`matchingKeywords.length`). */
  function MatchCount(normalized: string, c: Category): nat {
    Count(c.keywords, k => KeywordHits(normalized, k))
  }

  /** The match count of every catalog category, in catalog order. */
  function MatchCounts(catalog: seq<Category>, normalized: string): (counts: seq<nat>)
    ensures |counts| == |catalog|
    ensures forall i :: 0 <= i < |catalog| ==> counts[i] == MatchCount(normalized, catalog[i])
  {
    seq(|catalog|, i requires 0 <= i < |catalog| => MatchCount(normalized, catalog[i]))
  }

  /**
    Index `j` is the best among `counts[from..]`: it has at least one hit, no
    index has more, and every earlier index has strictly fewer.
   */
  predicate IsBestIn(counts: seq<nat>, from: nat, j: nat) {
    && from <= j < |counts|
    && counts[j] > 0
    && (forall i :: from <= i < |counts| ==> counts[i] <= counts[j])
    && (forall i :: from <= i < j ==> counts[i] < counts[j])
  }

  /** Category `j` is the best match for the normalised name. */
  predicate IsBestMatch(catalog: seq<Category>, normalized: string, j: nat) {
    IsBestIn(MatchCounts(catalog, normalized), 0, j)
  }

  /**
    The first element of the matches after the stable descending sort by
    match count: the earliest index of maximal count, if any count is positive.
   */
  function BestIndex(counts: seq<nat>, from: nat): (r: Option<nat>)
    requires from <= |counts|
    ensures r.None? <==> forall i :: from <= i < |counts| ==> counts[i] == 0
    ensures r.Some? ==> IsBestIn(counts, from, r.value)
    decreases |counts| - from
  {
    if from == |counts| then None
    else
      var rest := BestIndex(counts, from + 1);
      if counts[from] > 0 && (rest.None? || counts[from] >= counts[rest.value]) then Some(from)
      else rest
  }

  /** `Math.min(matchCount / 3, 1)`. */
  function Confidence(matchCount: nat): (r: real)
    ensures 0.0 <= r <= 1.0
    ensures matchCount >= 1 ==> r >= 1.0 / 3.0
    ensures matchCount < 3 ==> r * 3.0 == matchCount as real
    ensures matchCount >= 3 ==> r == 1.0
  {
    var ratio := matchCount as real / 3.0;
    if ratio < 1.0 then ratio else 1.0
  }

  /** `category.defaultUnit || 'pcs'`: an absent or empty default unit gives `'pcs'`. */
  function UnitOf(c: Category): (unit: string)
    ensures c.defaultUnit.Some? && c.defaultUnit.value != "" ==> unit == c.defaultUnit.value
    ensures c.defaultUnit.None? || c.defaultUnit.value == "" ==> unit == "pcs"
  {
    match c.defaultUnit
    case Some(u) => if u != "" then u else "pcs"
    case None => "pcs"
  }

  /**
    Suggestion `s` proposes the best match `j`: its id, its unit and the
    confidence of its match count.
   */
  predicate Describes(s: ProductSuggestion, catalog: seq<Category>, normalized: string, j: nat) {
    && IsBestMatch(catalog, normalized, j)
    && s.suggestedCategoryId == catalog[j].id
    && s.suggestedUnit == UnitOf(catalog[j])
    && s.confidence == Confidence(MatchCount(normalized, catalog[j]))
  }

  /** `suggestCategory`: the best-matching category for a product name, if any. */
  function SuggestCategory(catalog: seq<Category>, productName: string): (r: Option<ProductSuggestion>)
    ensures r.None? <==>
      (Normalize(productName) == [] ||
       forall i :: 0 <= i < |catalog| ==> MatchCount(Normalize(productName), catalog[i]) == 0)
    ensures r.Some? ==> r.value.name == productName
    ensures r.Some? ==> 1.0 / 3.0 <= r.value.confidence <= 1.0
    ensures r.Some? ==> exists j :: Describes(r.value, catalog, Normalize(productName), j)
  {
    var normalized := Normalize(productName);
    if normalized == [] then None
    else
      match BestIndex(MatchCounts(catalog, normalized), 0)
      case None => None
      case Some(j) =>
        var best := catalog[j];
        var s := ProductSuggestion(productName, best.id, UnitOf(best), Confidence(MatchCount(normalized, best)));
        assert Describes(s, catalog, normalized, j);
        Some(s)
  }

  /** A name that is empty or only white space gets no suggestion. */
  lemma BlankNameHasNoSuggestion(catalog: seq<Category>, productName: string)
    requires IsBlank(productName)
    ensures SuggestCategory(catalog, productName).None?
  {
  }

  /**
    The best match is determined uniquely: the contract of `SuggestCategory`
    pins down a single category (ties go to the earliest in catalog order).
   */
  lemma BestMatchUnique(catalog: seq<Category>, normalized: string, j: nat, k: nat)
    requires IsBestMatch(catalog, normalized, j)
    requires IsBestMatch(catalog, normalized, k)
    ensures j == k
  {
  }

  /**
    Among categories tied on the maximal count, the earliest wins: a later
    category with the same count is never the one suggested.
   */
  lemma TieGoesToEarliest(catalog: seq<Category>, productName: string, i: nat, j: nat)
    requires DistinctIds(catalog)
    requires i < j < |catalog|
    requires MatchCount(Normalize(productName), catalog[i]) == MatchCount(Normalize(productName), catalog[j])
    requires SuggestCategory(catalog, productName).Some?
    ensures SuggestCategory(catalog, productName).value.suggestedCategoryId != catalog[j].id
  {
    var r := SuggestCategory(catalog, productName).value;
    var b :| Describes(r, catalog, Normalize(productName), b);
    var counts := MatchCounts(catalog, Normalize(productName));
    assert counts[i] == counts[j];
    assert b != j;
  }

  /** `getCategoryById`: the first catalog entry with that id. */
  function GetCategoryById(catalog: seq<Category>, id: string): (r: Option<Category>)
    ensures r.None? <==> forall i :: 0 <= i < |catalog| ==> catalog[i].id != id
    ensures r.Some? ==> r.value.id == id
    ensures r.Some? ==> exists k ::
      0 <= k < |catalog| && catalog[k] == r.value && forall i :: 0 <= i < k ==> catalog[i].id != id
  {
    FindFirst(catalog, (c: Category) => c.id == id)
  }

  /** With distinct ids, lookup finds exactly the catalog entry carrying the id. */
  lemma GetCategoryByIdExact(catalog: seq<Category>, id: string, c: Category)
    requires DistinctIds(catalog)
    ensures GetCategoryById(catalog, id) == Some(c) <==> c in catalog && c.id == id
  {
    var r := GetCategoryById(catalog, id);
    if c in catalog && c.id == id {
      var m :| 0 <= m < |catalog| && catalog[m] == c;
      var k :| 0 <= k < |catalog| && catalog[k] == r.value && forall i :: 0 <= i < k ==> catalog[i].id != id;
      assert k == m;
    }
  }

  /** `getCategoriesByIds`: the known categories, in the order of `ids`; unknown ids are dropped. */
  function GetCategoriesByIds(catalog: seq<Category>, ids: seq<string>): (r: seq<Category>)
    ensures |r| <= |ids|
    ensures (forall k :: 0 <= k < |ids| ==> GetCategoryById(catalog, ids[k]).Some?) ==> |r| == |ids|
    ensures forall k :: 0 <= k < |r| ==> r[k] in catalog && r[k].id in ids
    ensures forall k :: 0 <= k < |ids| && GetCategoryById(catalog, ids[k]).Some? ==>
      GetCategoryById(catalog, ids[k]).value in r
  {
    if |ids| == 0 then []
    else
      var rest := GetCategoriesByIds(catalog, ids[1..]);
      match GetCategoryById(catalog, ids[0])
      case Some(c) => [c] + rest
      case None => rest
  }

  /** Lookup of a concatenation is the concatenation of lookups: the input order is kept. */
  lemma {:induction false} GetCategoriesByIdsAppend(catalog: seq<Category>, a: seq<string>, b: seq<string>)
    ensures GetCategoriesByIds(catalog, a + b) == GetCategoriesByIds(catalog, a) + GetCategoriesByIds(catalog, b)
  {
    if |a| > 0 {
      assert (a + b)[1..] == a[1..] + b;
      GetCategoriesByIdsAppend(catalog, a[1..], b);
    } else {
      assert a + b == b;
    }
  }

  /** A single known id yields its category, an unknown one nothing. */
  lemma GetCategoriesByIdsSingle(catalog: seq<Category>, id: string)
    ensures GetCategoryById(catalog, id).Some? ==>
      GetCategoriesByIds(catalog, [id]) == [GetCategoryById(catalog, id).value]
    ensures GetCategoryById(catalog, id).None? ==> GetCategoriesByIds(catalog, [id]) == []
  {
    assert [id][1..] == [];
  }
}
