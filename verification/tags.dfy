/**
  Order-independent tag-set equality (`sameTags` in generator.go): both
  lists are sorted by (key, value) and compared element by element. The
  sort is modelled as insertion sort; because the comparison is a strict
  total order, every correct sort yields the same sequence
  (`SortedUnique`), so the verdict does not depend on which one Go uses.
 */
module Tags {
  import opened Defs

  /** Go's `<` on strings: lexicographic, a proper prefix first. */
  predicate StrLess(a: string, b: string)
    decreases |a|
  {
    if |a| == 0 then |b| > 0
    else if |b| == 0 then false
    else if a[0] != b[0] then a[0] < b[0]
    else StrLess(a[1..], b[1..])
  }

  lemma {:induction false} StrLessIrreflexive(a: string)
    ensures !StrLess(a, a)
    decreases |a|
  {
    if |a| > 0 {
      StrLessIrreflexive(a[1..]);
    }
  }

  lemma {:induction false} StrLessTransitive(a: string, b: string, c: string)
    requires StrLess(a, b) && StrLess(b, c)
    ensures StrLess(a, c)
    decreases |a|
  {
    if |a| > 0 && a[0] == b[0] && b[0] == c[0] {
      StrLessTransitive(a[1..], b[1..], c[1..]);
    }
  }

  lemma {:induction false} StrLessTotal(a: string, b: string)
    requires a != b
    ensures StrLess(a, b) || StrLess(b, a)
    decreases |a|
  {
    if |a| > 0 && |b| > 0 && a[0] == b[0] {
      assert a == [a[0]] + a[1..] && b == [b[0]] + b[1..];
      StrLessTotal(a[1..], b[1..]);
    }
  }

  /** The comparator handed to `sort.Slice`: by key, then by value. */
  predicate TagLess(x: KeyValuePair, y: KeyValuePair) {
    if x.key == y.key then StrLess(x.value, y.value) else StrLess(x.key, y.key)
  }

  lemma TagLessIrreflexive(x: KeyValuePair)
    ensures !TagLess(x, x)
  {
    StrLessIrreflexive(x.value);
  }

  lemma TagLessTransitive(x: KeyValuePair, y: KeyValuePair, z: KeyValuePair)
    requires TagLess(x, y) && TagLess(y, z)
    ensures TagLess(x, z)
  {
    if x.key == y.key && y.key == z.key {
      StrLessTransitive(x.value, y.value, z.value);
    } else if x.key == y.key {
      assert StrLess(x.key, z.key);
    } else if y.key == z.key {
      assert StrLess(x.key, z.key);
    } else {
      StrLessTransitive(x.key, y.key, z.key);
      if x.key == z.key {
        StrLessIrreflexive(x.key);
        StrLessTransitive(y.key, z.key, y.key);
        StrLessIrreflexive(y.key);
      }
    }
  }

  lemma TagLessTotal(x: KeyValuePair, y: KeyValuePair)
    requires x != y
    ensures TagLess(x, y) || TagLess(y, x)
  {
    if x.key == y.key {
      StrLessTotal(x.value, y.value);
    } else {
      StrLessTotal(x.key, y.key);
    }
  }

  /** "Not less" chains: what a sorted sequence has between any two positions. */
  lemma NotLessTransitive(x: KeyValuePair, y: KeyValuePair, z: KeyValuePair)
    requires !TagLess(y, x) && !TagLess(z, y)
    ensures !TagLess(z, x)
  {
    if TagLess(z, x) {
      if x == y {
      } else if y == z {
      } else {
        TagLessTotal(x, y);
        TagLessTotal(y, z);
        TagLessTransitive(x, y, z);
        TagLessTransitive(z, x, z);
        TagLessIrreflexive(z);
      }
    }
  }

  /** No later element is less than an earlier one. */
  predicate Sorted(s: seq<KeyValuePair>) {
    forall i, j :: 0 <= i < j < |s| ==> !TagLess(s[j], s[i])
  }

  /** Inserts `x` before the first element that is not less than it. */
  function Insert(x: KeyValuePair, s: seq<KeyValuePair>): (r: seq<KeyValuePair>)
    ensures multiset(r) == multiset(s) + multiset{x}
  {
    if |s| == 0 then [x]
    else if TagLess(s[0], x) then
      assert s == [s[0]] + s[1..];
      [s[0]] + Insert(x, s[1..])
    else [x] + s
  }

  /** Inserting into a sorted sequence keeps it sorted. */
  lemma {:induction false} InsertSorted(x: KeyValuePair, s: seq<KeyValuePair>)
    requires Sorted(s)
    ensures Sorted(Insert(x, s))
  {
    if |s| == 0 {
    } else if TagLess(s[0], x) {
      InsertSorted(x, s[1..]);
      InsertHeadStaysFirst(x, s, Insert(x, s[1..]));
    } else {
      forall k | 0 < k < |s|
        ensures !TagLess(s[k], x)
      {
        NotLessTransitive(x, s[0], s[k]);
      }
    }
  }

  lemma InsertHeadStaysFirst(x: KeyValuePair, s: seq<KeyValuePair>, rest: seq<KeyValuePair>)
    requires Sorted(s) && |s| > 0 && TagLess(s[0], x)
    requires Sorted(rest) && multiset(rest) == multiset(s[1..]) + multiset{x}
    ensures Sorted([s[0]] + rest)
  {
    forall k | 0 <= k < |rest|
      ensures !TagLess(rest[k], s[0])
    {
      assert rest[k] in multiset(rest);
      if rest[k] == x {
        if TagLess(x, s[0]) {
          TagLessTransitive(x, s[0], x);
          TagLessIrreflexive(x);
        }
      } else {
        assert rest[k] in multiset(s[1..]);
        var j :| 0 <= j < |s[1..]| && s[1..][j] == rest[k];
        assert s[j + 1] == rest[k];
      }
    }
  }

  /** A sorted copy of the tags (the `sort.Slice` calls of `sameTags`). */
  function SortTags(s: seq<KeyValuePair>): (r: seq<KeyValuePair>)
    ensures multiset(r) == multiset(s)
  {
    if |s| == 0 then []
    else
      assert s == [s[0]] + s[1..];
      Insert(s[0], SortTags(s[1..]))
  }

  /** The copy is sorted by the (key, value) comparator. */
  lemma {:induction false} SortTagsSorted(s: seq<KeyValuePair>)
    ensures Sorted(SortTags(s))
  {
    if |s| > 0 {
      SortTagsSorted(s[1..]);
      InsertSorted(s[0], SortTags(s[1..]));
    }
  }

  /** The least element of a non-empty sorted sequence is its first one. */
  lemma SortedHeadIsLeast(s: seq<KeyValuePair>, x: KeyValuePair)
    requires Sorted(s) && |s| > 0 && x in multiset(s)
    ensures !TagLess(x, s[0])
  {
    var j :| 0 <= j < |s| && s[j] == x;
    if j == 0 {
      TagLessIrreflexive(x);
    }
  }

  /** Two sorted sequences holding the same tags are the same sequence. */
  lemma {:induction false} SortedUnique(a: seq<KeyValuePair>, b: seq<KeyValuePair>)
    requires Sorted(a) && Sorted(b)
    requires multiset(a) == multiset(b)
    ensures a == b
    decreases |a|
  {
    if |a| == 0 {
      assert |b| == |multiset(b)| == 0;
    } else {
      assert |b| == |multiset(b)| == |a|;
      assert a[0] in multiset(b) && b[0] in multiset(a);
      SortedHeadIsLeast(b, a[0]);
      SortedHeadIsLeast(a, b[0]);
      if a[0] != b[0] {
        TagLessTotal(a[0], b[0]);
      }
      assert a[0] == b[0];
      assert a == [a[0]] + a[1..] && b == [b[0]] + b[1..];
      assert multiset(a) == multiset{a[0]} + multiset(a[1..]);
      assert multiset(b) == multiset{b[0]} + multiset(b[1..]);
      assert multiset(a[1..]) == multiset(a) - multiset{a[0]} == multiset(b) - multiset{b[0]} == multiset(b[1..]);
      SortedUnique(a[1..], b[1..]);
    }
  }

  /** Sorting sends lists holding the same tags to the same sequence. */
  lemma SortedCopiesAgree(a: seq<KeyValuePair>, b: seq<KeyValuePair>)
    ensures multiset(a) == multiset(b) <==> SortTags(a) == SortTags(b)
  {
    if multiset(a) == multiset(b) {
      SortTagsSorted(a);
      SortTagsSorted(b);
      SortedUnique(SortTags(a), SortTags(b));
    }
  }

  /**
    `sameTags`: different lengths differ; otherwise sort copies of both and
    compare them position by position. True exactly when both lists hold
    the same tags with the same multiplicities.
   */
  function SameTags(a: seq<KeyValuePair>, b: seq<KeyValuePair>): (r: bool)
    ensures r <==> multiset(a) == multiset(b)
  {
    if |a| != |b| then
      assert |multiset(a)| != |multiset(b)|;
      false
    else
      var a1 := SortTags(a);
      var b1 := SortTags(b);
      assert |a1| == |multiset(a)| == |a| && |b1| == |multiset(b)| == |b|;
      var r := forall i :: 0 <= i < |a1| ==> a1[i] == b1[i];
      assert r <==> a1 == b1;
      SortedCopiesAgree(a, b);
      r
  }

  /** Tag-set equality is an equivalence: reflexive, symmetric and transitive. */
  lemma SameTagsEquivalence(a: seq<KeyValuePair>, b: seq<KeyValuePair>, c: seq<KeyValuePair>)
    ensures SameTags(a, a)
    ensures SameTags(a, b) == SameTags(b, a)
    ensures SameTags(a, b) && SameTags(b, c) ==> SameTags(a, c)
  {
  }
}
