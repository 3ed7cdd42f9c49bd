/**
  The byte-slice helpers the catalog decoders rely on: `bytes.IndexByte`,
  `bytes.Split` / `strings.Split` with a one-character separator, and the
  join that `Split` inverts.
 */
module Text {

  /** How many times `c` occurs in `s`. */
  function Count(s: string, c: char): nat {
    multiset(s)[c]
  }

  /** `bytes.IndexByte`: the index of the first `c` in `s`, or -1 when there is none. */
  function IndexOf(s: string, c: char): (i: int)
    ensures -1 <= i < |s|
    ensures i == -1 <==> c !in s
    ensures 0 <= i ==> s[i] == c && c !in s[..i]
  {
    if |s| == 0 then -1
    else if s[0] == c then 0
    else
      var j := IndexOf(s[1..], c);
      assert j >= 0 ==> s[1..][..j] == s[1..j + 1];
      if j == -1 then -1 else j + 1
  }

  /** The first occurrence is found wherever the text around it is put together. */
  lemma IndexOfConcat(a: string, c: char, b: string)
    requires c !in a
    ensures IndexOf(a + [c] + b, c) == |a|
  {
    var s := a + [c] + b;
    assert s[|a|] == c;
    assert s[..|a|] == a;
  }

  /** Puts the parts back together with one `sep` between neighbours (`strings.Join`). */
  function Join(parts: seq<string>, sep: char): string {
    if |parts| == 0 then []
    else if |parts| == 1 then parts[0]
    else parts[0] + [sep] + Join(parts[1..], sep)
  }

  /**
    `bytes.Split(s, sep)`: the maximal separator-free pieces of `s`, one more
    than there are separators; the empty text gives one empty piece.
   */
  function Split(s: string, sep: char): (parts: seq<string>)
    ensures |parts| == Count(s, sep) + 1
    ensures forall k :: 0 <= k < |parts| ==> sep !in parts[k]
    ensures Join(parts, sep) == s
    decreases |s|
  {
    var i := IndexOf(s, sep);
    if i == -1 then
      [s]
    else
      var rest := Split(s[i + 1..], sep);
      SplitStep(s, sep, i);
      [s[..i]] + rest
  }

  /** The bookkeeping behind one step of `Split`: cutting at a separator. */
  lemma SplitStep(s: string, sep: char, i: int)
    requires 0 <= i < |s| && s[i] == sep
    ensures Count(s, sep) == Count(s[..i], sep) + 1 + Count(s[i + 1..], sep)
    ensures s == s[..i] + [sep] + s[i + 1..]
  {
    assert s == s[..i] + [sep] + s[i + 1..];
    assert multiset(s) == multiset(s[..i]) + multiset{sep} + multiset(s[i + 1..]);
  }

  /** Text without the separator is a single piece. */
  lemma SplitWhole(s: string, sep: char)
    requires sep !in s
    ensures Split(s, sep) == [s]
  {
  }

  /** Text made of a separator-free piece, the separator and more text splits after that piece. */
  lemma SplitCons(p: string, sep: char, t: string)
    requires sep !in p
    ensures Split(p + [sep] + t, sep) == [p] + Split(t, sep)
  {
    var s := p + [sep] + t;
    assert s[..|p|] == p;
    assert s[|p| + 1..] == t;
    IndexOfConcat(p, sep, t);
  }

  /** Splitting undoes joining whenever no part holds the separator. */
  lemma {:induction false} SplitJoin(parts: seq<string>, sep: char)
    requires |parts| > 0
    requires forall k :: 0 <= k < |parts| ==> sep !in parts[k]
    ensures Split(Join(parts, sep), sep) == parts
  {
    if |parts| == 1 {
      SplitWhole(parts[0], sep);
    } else {
      SplitCons(parts[0], sep, Join(parts[1..], sep));
      SplitJoin(parts[1..], sep);
      assert [parts[0]] + parts[1..] == parts;
    }
  }

  /** A text ending in the separator splits into pieces whose last one is empty. */
  lemma {:induction false} SplitTrailingSeparator(s: string, sep: char)
    requires |s| > 0 && s[|s| - 1] == sep
    ensures Split(s, sep)[|Split(s, sep)| - 1] == []
    decreases |s|
  {
    var i := IndexOf(s, sep);
    if i < |s| - 1 {
      var t := s[i + 1..];
      assert t[|t| - 1] == sep;
      SplitTrailingSeparator(t, sep);
    } else {
      assert s[i + 1..] == [];
    }
  }
}
