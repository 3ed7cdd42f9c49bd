/**
  The working list of the expansion engine and its merge-on-insert
  (`TaggedBundleDef` and `addMergeItem` in generator.go).
 */
module Merge {
  import opened Defs
  import opened Tags

  /** `quantity` units of `item`, all carrying the tags `tags`. */
  datatype TaggedBundleDef = TaggedBundleDef(item: int, quantity: int, tags: seq<KeyValuePair>)

  /** The test `addMergeItem` applies to each existing entry. */
  predicate Matches(e: TaggedBundleDef, id: int, tags: seq<KeyValuePair>) {
    e.item == id && SameTags(e.tags, tags)
  }

  /** Two entries stand for the same kind of unit: same item, same tag-set. */
  predicate SameKey(e: TaggedBundleDef, f: TaggedBundleDef) {
    e.item == f.item && multiset(e.tags) == multiset(f.tags)
  }

  /** No two entries share an item and a tag-set. */
  predicate NoDuplicates(items: seq<TaggedBundleDef>) {
    forall i, j :: 0 <= i < j < |items| ==> !SameKey(items[i], items[j])
  }

  /** The scan of `addMergeItem`: the first matching entry, or -1. */
  function FirstMatch(items: seq<TaggedBundleDef>, id: int, tags: seq<KeyValuePair>): (i: int)
    ensures -1 <= i < |items|
    ensures i == -1 <==> forall j :: 0 <= j < |items| ==> !Matches(items[j], id, tags)
    ensures 0 <= i ==> Matches(items[i], id, tags) && forall j :: 0 <= j < i ==> !Matches(items[j], id, tags)
  {
    if |items| == 0 then -1
    else if Matches(items[0], id, tags) then 0
    else
      var i := FirstMatch(items[1..], id, tags);
      assert forall j :: 1 <= j < |items| ==> items[j] == items[1..][j - 1];
      if i == -1 then -1 else i + 1
  }

  /**
    `addMergeItem`: add `quantity` to the first entry with the same item and
    tag-set, or append a new entry when there is none.
   */
  function AddMergeItem(items: seq<TaggedBundleDef>, id: int, quantity: int, tags: seq<KeyValuePair>): seq<TaggedBundleDef> {
    var i := FirstMatch(items, id, tags);
    if i == -1 then items + [TaggedBundleDef(id, quantity, tags)]
    else items[i := Grow(items[i], quantity)]
  }

  /** The matched entry after `quantity` more units are merged into it. */
  function Grow(e: TaggedBundleDef, quantity: int): (r: TaggedBundleDef)
    ensures SameKey(r, e) && r.quantity == e.quantity + quantity
  {
    e.(quantity := e.quantity + quantity)
  }

  /**
    With a matching entry, only the first one changes, by `quantity` more
    units; the length and every other entry stay as they were.
   */
  lemma AddMergeIntoFirstMatch(items: seq<TaggedBundleDef>, id: int, quantity: int, tags: seq<KeyValuePair>, i: nat)
    requires i < |items| && Matches(items[i], id, tags)
    requires forall j :: 0 <= j < i ==> !Matches(items[j], id, tags)
    ensures |AddMergeItem(items, id, quantity, tags)| == |items|
    ensures AddMergeItem(items, id, quantity, tags)[i] == TaggedBundleDef(id, items[i].quantity + quantity, items[i].tags)
    ensures forall j :: 0 <= j < |items| && j != i ==> AddMergeItem(items, id, quantity, tags)[j] == items[j]
  {
    FirstMatchIs(items, id, tags, i);
  }

  /** The scan stops at the first match and nowhere else. */
  lemma FirstMatchIs(items: seq<TaggedBundleDef>, id: int, tags: seq<KeyValuePair>, i: nat)
    requires i < |items| && Matches(items[i], id, tags)
    requires forall j :: 0 <= j < i ==> !Matches(items[j], id, tags)
    ensures FirstMatch(items, id, tags) == i
  {
  }

  /** Without a matching entry, the new entry is appended as given. */
  lemma AddMergeAppends(items: seq<TaggedBundleDef>, id: int, quantity: int, tags: seq<KeyValuePair>)
    requires forall j :: 0 <= j < |items| ==> !Matches(items[j], id, tags)
    ensures AddMergeItem(items, id, quantity, tags) == items + [TaggedBundleDef(id, quantity, tags)]
  {
  }

  /** Merging keeps the list free of duplicate (item, tag-set) entries. */
  lemma AddMergeNoDuplicates(items: seq<TaggedBundleDef>, id: int, quantity: int, tags: seq<KeyValuePair>)
    requires NoDuplicates(items)
    ensures NoDuplicates(AddMergeItem(items, id, quantity, tags))
  {
    var i := FirstMatch(items, id, tags);
    var r := AddMergeItem(items, id, quantity, tags);
    if i == -1 {
      forall j, k | 0 <= j < k < |r|
        ensures !SameKey(r[j], r[k])
      {
        if k == |items| {
          assert !Matches(items[j], id, tags);
        }
      }
    } else {
      forall j, k | 0 <= j < k < |r|
        ensures !SameKey(r[j], r[k])
      {
        assert SameKey(r[j], items[j]) && SameKey(r[k], items[k]);
      }
    }
  }

  /** The number of units in the list. */
  function Total(items: seq<TaggedBundleDef>): int {
    if |items| == 0 then 0 else Total(items[..|items| - 1]) + items[|items| - 1].quantity
  }

  /** The number of units of `id` whose tag-set is `tagSet`. */
  function QuantityOf(items: seq<TaggedBundleDef>, id: int, tagSet: multiset<KeyValuePair>): int {
    if |items| == 0 then 0
    else
      var last := items[|items| - 1];
      QuantityOf(items[..|items| - 1], id, tagSet)
        + (if last.item == id && multiset(last.tags) == tagSet then last.quantity else 0)
  }

  lemma {:induction false} TotalUpdate(items: seq<TaggedBundleDef>, i: nat, e: TaggedBundleDef)
    requires i < |items|
    ensures Total(items[i := e]) == Total(items) - items[i].quantity + e.quantity
    decreases |items|
  {
    var n := |items| - 1;
    if i < n {
      assert items[i := e][..n] == items[..n][i := e];
      TotalUpdate(items[..n], i, e);
    } else {
      assert items[i := e][..n] == items[..n];
    }
  }

  lemma {:induction false} QuantityOfUpdate(items: seq<TaggedBundleDef>, i: nat, e: TaggedBundleDef, id: int, tagSet: multiset<KeyValuePair>)
    requires i < |items| && SameKey(items[i], e)
    ensures QuantityOf(items[i := e], id, tagSet) == QuantityOf(items, id, tagSet)
      + (if e.item == id && multiset(e.tags) == tagSet then e.quantity - items[i].quantity else 0)
    decreases |items|
  {
    var n := |items| - 1;
    if i < n {
      assert items[i := e][..n] == items[..n][i := e];
      QuantityOfUpdate(items[..n], i, e, id, tagSet);
    } else {
      assert items[i := e][..n] == items[..n];
    }
  }

  /** Merging adds exactly `quantity` units to the list. */
  lemma AddMergeTotal(items: seq<TaggedBundleDef>, id: int, quantity: int, tags: seq<KeyValuePair>)
    ensures Total(AddMergeItem(items, id, quantity, tags)) == Total(items) + quantity
  {
    var i := FirstMatch(items, id, tags);
    var r := AddMergeItem(items, id, quantity, tags);
    if i == -1 {
      var added := items + [TaggedBundleDef(id, quantity, tags)];
      assert r == added;
      assert added[..|items|] == items;
    } else {
      var e := Grow(items[i], quantity);
      TotalUpdate(items, i, e);
    }
  }

  /**
    Seen as a multiset of (item, tag-set) units, merging adds `quantity`
    units of `(id, tags)` and changes nothing else.
   */
  lemma AddMergeQuantity(items: seq<TaggedBundleDef>, id: int, quantity: int, tags: seq<KeyValuePair>,
                         id': int, tagSet: multiset<KeyValuePair>)
    ensures QuantityOf(AddMergeItem(items, id, quantity, tags), id', tagSet)
      == QuantityOf(items, id', tagSet) + (if id' == id && tagSet == multiset(tags) then quantity else 0)
  {
    var i := FirstMatch(items, id, tags);
    var r := AddMergeItem(items, id, quantity, tags);
    if i == -1 {
      var added := items + [TaggedBundleDef(id, quantity, tags)];
      assert r == added;
      assert added[..|items|] == items;
    } else {
      var e := Grow(items[i], quantity);
      QuantityOfUpdate(items, i, e, id', tagSet);
    }
  }

  /** Each item id of the merged list is an old one or `id`. */
  lemma AddMergeItems(items: seq<TaggedBundleDef>, id: int, quantity: int, tags: seq<KeyValuePair>)
    ensures forall e :: e in AddMergeItem(items, id, quantity, tags) ==>
      e.item == id || exists f :: f in items && f.item == e.item
  {
    var r := AddMergeItem(items, id, quantity, tags);
    forall e | e in r
      ensures e.item == id || exists f :: f in items && f.item == e.item
    {
      var k :| 0 <= k < |r| && r[k] == e;
      if k < |items| {
        assert items[k].item == e.item;
      }
    }
  }
}
