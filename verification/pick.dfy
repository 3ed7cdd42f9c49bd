/**
  The weighted choice of generator.go: a draw `r` in `[0, total)` is walked
  down the option list, subtracting each weight, and the option at which
  the running value first drops below zero is chosen.
 */
module Pick {
  import opened Results

  /** The sum of the weights. */
  function Sum(ws: seq<int>): int {
    if |ws| == 0 then 0 else Sum(ws[..|ws| - 1]) + ws[|ws| - 1]
  }

  /** The combined weight of the options before index `i`. */
  function Prefix(ws: seq<int>, i: nat): int
    requires i <= |ws|
  {
    Sum(ws[..i])
  }

  lemma PrefixStep(ws: seq<int>, i: nat)
    requires i < |ws|
    ensures Prefix(ws, i + 1) == Prefix(ws, i) + ws[i]
  {
    assert ws[..i + 1][..i] == ws[..i];
  }

  /**
    The walk from option `k` on, where `rest` is what is left of the draw
    after the weights before `k` were subtracted.
   */
  function WalkFrom(ws: seq<int>, k: nat, rest: int): (o: Option<nat>)
    requires k <= |ws|
    ensures o.Some? ==> (k <= o.value < |ws|
      && rest + Prefix(ws, k) < Prefix(ws, o.value + 1)
      && forall j :: k < j <= o.value ==> Prefix(ws, j) <= rest + Prefix(ws, k))
    ensures o.None? ==> forall j :: k < j <= |ws| ==> Prefix(ws, j) <= rest + Prefix(ws, k)
    decreases |ws| - k
  {
    if k == |ws| then None
    else
      PrefixStep(ws, k);
      if rest - ws[k] < 0 then Some(k)
      else WalkFrom(ws, k + 1, rest - ws[k])
  }

  /**
    The subtract-until-negative walk for a draw `r`: the first option whose
    cumulative weight exceeds `r`, if any.
   */
  function Walk(ws: seq<int>, r: int): (o: Option<nat>)
    ensures o.Some? ==> (o.value < |ws| && r < Prefix(ws, o.value + 1)
      && forall j :: 0 < j <= o.value ==> Prefix(ws, j) <= r)
    ensures o.None? ==> forall j :: 0 < j <= |ws| ==> Prefix(ws, j) <= r
  {
    WalkFrom(ws, 0, r)
  }

  predicate NonNegative(ws: seq<int>) {
    forall k :: 0 <= k < |ws| ==> ws[k] >= 0
  }

  /** With non-negative weights the cumulative weight never decreases. */
  lemma {:induction false} PrefixMonotone(ws: seq<int>, i: nat, j: nat)
    requires NonNegative(ws) && i <= j <= |ws|
    ensures Prefix(ws, i) <= Prefix(ws, j)
    decreases j - i
  {
    if i < j {
      PrefixStep(ws, j - 1);
      PrefixMonotone(ws, i, j - 1);
    }
  }

  /** `r` falls in the slice of the line that option `i` owns. */
  predicate Owns(ws: seq<int>, i: nat, r: int)
    requires i < |ws|
  {
    Prefix(ws, i) <= r < Prefix(ws, i + 1)
  }

  /**
    With non-negative weights and a draw `0 <= r < Sum(ws)`, the walk
    always chooses, and chooses exactly the option whose slice holds `r`.
   */
  lemma WalkChoosesOwner(ws: seq<int>, r: int, i: nat)
    requires NonNegative(ws) && 0 <= r < Sum(ws)
    requires i < |ws|
    ensures Walk(ws, r) == Some(i) <==> Owns(ws, i, r)
  {
    assert ws[..|ws|] == ws;
    var o := Walk(ws, r);
    assert o.Some? by {
      assert !(Prefix(ws, |ws|) <= r);
    }
    var c := o.value;
    if c > 0 {
      assert Prefix(ws, c) <= r;
    }
    assert Owns(ws, c, r);
    if Owns(ws, i, r) && i > c {
      PrefixMonotone(ws, c + 1, i);
    }
  }

  /** With non-negative weights and a draw `0 <= r < Sum(ws)`, the walk chooses. */
  lemma WalkChooses(ws: seq<int>, r: int)
    requires NonNegative(ws) && 0 <= r < Sum(ws)
    ensures Walk(ws, r).Some?
  {
    assert ws[..|ws|] == ws;
    assert !(Prefix(ws, |ws|) <= r);
  }

  /** An option of weight zero is never chosen by a non-negative draw. */
  lemma ZeroWeightNeverChosen(ws: seq<int>, r: int, i: nat)
    requires 0 <= r && i < |ws| && ws[i] == 0
    ensures Walk(ws, r) != Some(i)
  {
    PrefixStep(ws, i);
  }
}
