/**
  Grouping products into category buckets, as ListDetailScreen.tsx and
  ProductsScreen.tsx both do with `reduce` into an object and then
  `Object.entries`: a product goes to bucket `categoryId || 'uncategorized'`,
  each bucket keeps product order, and buckets appear in order of first
  occurrence (the object's key insertion order).
 */
module Grouping {
  import opened Seqs
  import opened Types

  const Uncategorized: string := "uncategorized"

  /** `product.categoryId || 'uncategorized'`: an absent or empty id is uncategorized. */
  function GroupKey(p: Product): (key: string)
    ensures p.categoryId.Some? && p.categoryId.value != "" ==> key == p.categoryId.value
    ensures p.categoryId.None? || p.categoryId.value == "" ==> key == Uncategorized
  {
    match p.categoryId
    case Some(id) => if id != "" then id else Uncategorized
    case None => Uncategorized
  }

  /** One bucket: its key and its products. */
  datatype Group = Group(key: string, products: seq<Product>)

  /** The products that belong in bucket `key`, in their original order. */
  function WithKey(products: seq<Product>, key: string): seq<Product> {
    if |products| == 0 then []
    else
      var last := products[|products| - 1];
      WithKey(products[..|products| - 1], key) + (if GroupKey(last) == key then [last] else [])
  }

  /** A bucket is the filter of the products by key: exactly those products, in order. */
  lemma {:induction false} WithKeyIsFilter(products: seq<Product>, key: string)
    ensures WithKey(products, key) == Filter(products, (p: Product) => GroupKey(p) == key)
  {
    if |products| > 0 {
      var init := products[..|products| - 1];
      var last := products[|products| - 1];
      assert init + [last] == products;
      WithKeyIsFilter(init, key);
      FilterAppend(init, [last], (p: Product) => GroupKey(p) == key);
    }
  }

  /** Position of the first product of bucket `key`, or `|products|` when there is none. */
  function FirstIndex(products: seq<Product>, key: string): (i: nat)
    ensures i <= |products|
    ensures i < |products| ==> GroupKey(products[i]) == key
    ensures forall j :: 0 <= j < i ==> GroupKey(products[j]) != key
  {
    if |products| == 0 then 0
    else if GroupKey(products[0]) == key then 0
    else 1 + FirstIndex(products[1..], key)
  }

  /** Position of the bucket with `key`, or `|groups|` when there is none. */
  function KeyIndex(groups: seq<Group>, key: string): (i: nat)
    ensures i <= |groups|
    ensures i < |groups| ==> groups[i].key == key
    ensures forall j :: 0 <= j < i ==> groups[j].key != key
  {
    if |groups| == 0 then 0
    else if groups[0].key == key then 0
    else 1 + KeyIndex(groups[1..], key)
  }

  /** One step of the `reduce`: push onto the product's bucket, opening it at the end if new. */
  function AddToGroups(groups: seq<Group>, p: Product): seq<Group> {
    var key := GroupKey(p);
    var i := KeyIndex(groups, key);
    if i < |groups| then groups[i := Group(key, groups[i].products + [p])]
    else groups + [Group(key, [p])]
  }

  /** The `reduce` over the products, then `Object.entries`. */
  function GroupByCategory(products: seq<Product>): seq<Group> {
    if |products| == 0 then []
    else AddToGroups(GroupByCategory(products[..|products| - 1]), products[|products| - 1])
  }

  /** `key` appended to `ks` unless already there. */
  function AddKey(ks: seq<string>, key: string): seq<string> {
    if key in ks then ks else ks + [key]
  }

  /** The reference order of buckets: every key, once, in order of first occurrence. */
  function Keys(products: seq<Product>): seq<string> {
    if |products| == 0 then []
    else AddKey(Keys(products[..|products| - 1]), GroupKey(products[|products| - 1]))
  }

  lemma KeysAppend(init: seq<Product>, last: Product)
    ensures Keys(init + [last]) == AddKey(Keys(init), GroupKey(last))
  {
    assert (init + [last])[..|init|] == init;
  }

  /** No key is listed twice. */
  predicate Distinct(ks: seq<string>) {
    forall i, j :: 0 <= i < j < |ks| ==> ks[i] != ks[j]
  }

  /** Every product's key is listed. */
  predicate Covers(products: seq<Product>, ks: seq<string>) {
    forall k :: 0 <= k < |products| ==> GroupKey(products[k]) in ks
  }

  /** Every listed key is some product's key. */
  predicate Occur(products: seq<Product>, ks: seq<string>) {
    forall i :: 0 <= i < |ks| ==> FirstIndex(products, ks[i]) < |products|
  }

  /** Keys are listed in increasing order of first occurrence. */
  predicate FirstOccurrenceOrder(products: seq<Product>, ks: seq<string>) {
    forall i, j :: 0 <= i < j < |ks| ==> FirstIndex(products, ks[i]) < FirstIndex(products, ks[j])
  }

  lemma {:induction false} KeysDistinct(products: seq<Product>)
    ensures Distinct(Keys(products))
  {
    if |products| > 0 {
      KeysDistinct(products[..|products| - 1]);
    }
  }

  lemma {:induction false} KeysCover(products: seq<Product>)
    ensures Covers(products, Keys(products))
  {
    if |products| > 0 {
      var init := products[..|products| - 1];
      KeysCover(init);
      forall k | 0 <= k < |init| ensures GroupKey(products[k]) in Keys(products) {
        assert products[k] == init[k];
      }
    }
  }

  lemma {:induction false} KeysOccur(products: seq<Product>)
    ensures Occur(products, Keys(products))
  {
    if |products| > 0 {
      var init := products[..|products| - 1];
      var last := products[|products| - 1];
      assert init + [last] == products;
      KeysOccur(init);
      var ks := Keys(init);
      forall i | 0 <= i < |ks| ensures FirstIndex(products, ks[i]) < |products| {
        FirstIndexAppendPresent(init, last, ks[i]);
      }
      assert FirstIndex(products, GroupKey(last)) <= |init|;
    }
  }

  lemma {:induction false} KeysOrdered(products: seq<Product>)
    ensures FirstOccurrenceOrder(products, Keys(products))
  {
    if |products| > 0 {
      var init := products[..|products| - 1];
      var last := products[|products| - 1];
      assert init + [last] == products;
      KeysOrdered(init);
      KeysOccur(init);
      var ks := Keys(init);
      forall i | 0 <= i < |ks| ensures FirstIndex(products, ks[i]) == FirstIndex(init, ks[i]) {
        FirstIndexAppendPresent(init, last, ks[i]);
      }
      if GroupKey(last) !in ks {
        KeysCover(init);
        FirstIndexAppendAbsent(init, last);
        var ks' := ks + [GroupKey(last)];
        assert forall i :: 0 <= i < |ks| ==> ks'[i] == ks[i];
      }
    }
  }

  /** Appending does not move the first occurrence of a key that already occurs. */
  lemma {:induction false} FirstIndexAppendPresent(init: seq<Product>, last: Product, key: string)
    requires FirstIndex(init, key) < |init|
    ensures FirstIndex(init + [last], key) == FirstIndex(init, key)
  {
    if GroupKey(init[0]) != key {
      assert (init + [last])[1..] == init[1..] + [last];
      FirstIndexAppendPresent(init[1..], last, key);
    }
  }

  /** A key first seen in the appended product occurs first at the end. */
  lemma {:induction false} FirstIndexAppendAbsent(init: seq<Product>, last: Product)
    requires forall k :: 0 <= k < |init| ==> GroupKey(init[k]) != GroupKey(last)
    ensures FirstIndex(init + [last], GroupKey(last)) == |init|
  {
    if |init| > 0 {
      assert (init + [last])[1..] == init[1..] + [last];
      FirstIndexAppendAbsent(init[1..], last);
    }
  }

  /** One bucket per listed key, each holding that key's products. */
  function Buckets(products: seq<Product>, ks: seq<string>): (r: seq<Group>)
    ensures |r| == |ks|
    ensures forall i :: 0 <= i < |ks| ==> r[i] == Group(ks[i], WithKey(products, ks[i]))
  {
    seq(|ks|, i requires 0 <= i < |ks| => Group(ks[i], WithKey(products, ks[i])))
  }

  /** The bucket list the grouping is meant to produce. */
  function Reference(products: seq<Product>): seq<Group> {
    Buckets(products, Keys(products))
  }

  /** A bucket grows by the appended product exactly when the product has its key. */
  lemma WithKeyAppend(init: seq<Product>, last: Product, key: string)
    ensures WithKey(init + [last], key) == WithKey(init, key) + (if GroupKey(last) == key then [last] else [])
  {
    assert (init + [last])[..|init|] == init;
  }

  /** A key that no product carries has an empty bucket. */
  lemma {:induction false} WithKeyAbsent(products: seq<Product>, key: string)
    requires forall k :: 0 <= k < |products| ==> GroupKey(products[k]) != key
    ensures WithKey(products, key) == []
  {
    if |products| > 0 {
      WithKeyAbsent(products[..|products| - 1], key);
    }
  }

  /** Every product with the key is in its bucket. */
  lemma {:induction false} WithKeyContains(products: seq<Product>, key: string, k: nat)
    requires k < |products| && GroupKey(products[k]) == key
    ensures products[k] in WithKey(products, key)
  {
    if k < |products| - 1 {
      WithKeyContains(products[..|products| - 1], key, k);
    }
  }

  /**
    The `reduce` computes the reference grouping: one bucket per key in order
    of first occurrence, each holding exactly that key's products in order.
   */
  lemma {:induction false} GroupByCategoryIsReference(products: seq<Product>)
    ensures GroupByCategory(products) == Reference(products)
  {
    if |products| > 0 {
      var init := products[..|products| - 1];
      var last := products[|products| - 1];
      assert init + [last] == products;
      GroupByCategoryIsReference(init);
      KeysAppend(init, last);
      if GroupKey(last) in Keys(init) {
        ReferenceStepOld(init, last);
      } else {
        ReferenceStepNew(init, last);
      }
    }
  }

  /** A product whose key already has a bucket joins that bucket. */
  lemma ReferenceStepOld(init: seq<Product>, last: Product)
    requires GroupKey(last) in Keys(init)
    requires Keys(init + [last]) == Keys(init)
    ensures AddToGroups(Reference(init), last) == Reference(init + [last])
  {
    var ks := Keys(init);
    var key := GroupKey(last);
    var g := Buckets(init, ks);
    var m :| 0 <= m < |ks| && ks[m] == key;
    assert g[m].key == key;
    var at := KeyIndex(g, key);
    KeysDistinct(init);
    BucketsJoin(init, last, ks, at);
  }

  lemma BucketsJoin(init: seq<Product>, last: Product, ks: seq<string>, at: nat)
    requires at < |ks| && ks[at] == GroupKey(last) && Distinct(ks)
    ensures var g := Buckets(init, ks);
      g[at := Group(GroupKey(last), g[at].products + [last])] == Buckets(init + [last], ks)
  {
    var g := Buckets(init, ks);
    var r := g[at := Group(GroupKey(last), g[at].products + [last])];
    var want := Buckets(init + [last], ks);
    forall i | 0 <= i < |ks| ensures r[i] == want[i] {
      WithKeyAppend(init, last, ks[i]);
      if i == at {
        assert r[i] == Group(ks[i], WithKey(init, ks[i]) + [last]);
      } else {
        assert r[i] == g[i];
      }
    }
  }

  /** A product with a new key opens a bucket at the end. */
  lemma ReferenceStepNew(init: seq<Product>, last: Product)
    requires GroupKey(last) !in Keys(init)
    requires Keys(init + [last]) == Keys(init) + [GroupKey(last)]
    ensures AddToGroups(Reference(init), last) == Reference(init + [last])
  {
    var ks := Keys(init);
    var key := GroupKey(last);
    var g := Buckets(init, ks);
    assert KeyIndex(g, key) == |g|;
    KeysCover(init);
    WithKeyAbsent(init, key);
    BucketsOpen(init, last, ks);
  }

  lemma BucketsOpen(init: seq<Product>, last: Product, ks: seq<string>)
    requires GroupKey(last) !in ks
    requires WithKey(init, GroupKey(last)) == []
    ensures Buckets(init, ks) + [Group(GroupKey(last), [last])] == Buckets(init + [last], ks + [GroupKey(last)])
  {
    var key := GroupKey(last);
    var r := Buckets(init, ks) + [Group(key, [last])];
    var want := Buckets(init + [last], ks + [key]);
    forall i | 0 <= i < |ks| + 1 ensures r[i] == want[i] {
      WithKeyAppend(init, last, (ks + [key])[i]);
    }
  }

  /**
    Reading off the reference: bucket keys are distinct and in first-occurrence
    order, every product has a bucket, every bucket is non-empty and holds
    exactly its key's products in order.
   */
  lemma GroupByCategoryShape(products: seq<Product>)
    ensures var r := GroupByCategory(products);
      && (forall i, j :: 0 <= i < j < |r| ==> r[i].key != r[j].key)
      && (forall i, j :: 0 <= i < j < |r| ==> FirstIndex(products, r[i].key) < FirstIndex(products, r[j].key))
      && (forall k :: 0 <= k < |products| ==> KeyIndex(r, GroupKey(products[k])) < |r|)
      && (forall i :: 0 <= i < |r| ==> r[i].products == WithKey(products, r[i].key))
      && (forall i :: 0 <= i < |r| ==> |r[i].products| > 0)
  {
    GroupByCategoryIsReference(products);
    var r := GroupByCategory(products);
    var ks := Keys(products);
    assert forall i :: 0 <= i < |r| ==> r[i].key == ks[i];
    KeysDistinct(products);
    KeysOrdered(products);
    KeysCover(products);
    KeysOccur(products);
    forall k | 0 <= k < |products| ensures KeyIndex(r, GroupKey(products[k])) < |r| {
      var i :| 0 <= i < |ks| && ks[i] == GroupKey(products[k]);
      assert r[i].key == GroupKey(products[k]);
    }
    forall i | 0 <= i < |r| ensures |r[i].products| > 0 {
      WithKeyContains(products, ks[i], FirstIndex(products, ks[i]));
    }
  }

  /** The number of products over all buckets. */
  function TotalSize(groups: seq<Group>): nat {
    if |groups| == 0 then 0 else TotalSize(groups[..|groups| - 1]) + |groups[|groups| - 1].products|
  }

  /** Replacing one bucket changes the total by the difference in that bucket's size. */
  lemma {:induction false} TotalSizeUpdate(groups: seq<Group>, at: nat, g: Group)
    requires at < |groups|
    ensures TotalSize(groups[at := g]) == TotalSize(groups) - |groups[at].products| + |g.products|
  {
    var n := |groups|;
    var u := groups[at := g];
    if at < n - 1 {
      assert u[..n - 1] == groups[..n - 1][at := g];
      TotalSizeUpdate(groups[..n - 1], at, g);
    } else {
      assert u[..n - 1] == groups[..n - 1];
    }
  }

  /** The grouping is a partition: the bucket sizes add up to the number of products. */
  lemma {:induction false} GroupSizesSum(products: seq<Product>)
    ensures TotalSize(GroupByCategory(products)) == |products|
  {
    if |products| > 0 {
      var init := products[..|products| - 1];
      var last := products[|products| - 1];
      GroupSizesSum(init);
      var g := GroupByCategory(init);
      var at := KeyIndex(g, GroupKey(last));
      if at < |g| {
        TotalSizeUpdate(g, at, Group(GroupKey(last), g[at].products + [last]));
      } else {
        assert (g + [Group(GroupKey(last), [last])])[..|g|] == g;
      }
    }
  }
}
