/**
  What the expansion engine guarantees: how many draws each unit takes and
  what tags it gets, the quantities bundles and generators add, that every
  step keeps the list free of duplicates, and that a finished run holds
  only terminal items.
 */
module GeneratorLemmas {
  import opened Results
  import opened Defs
  import opened Tags
  import opened Merge
  import opened Pick
  import opened Generator

  /** Every weight a pick may read is non-negative (the decoders give positive ones). */
  predicate WellWeighted(catalog: Catalog) {
    forall id :: id in catalog ==>
      NonNegative(ValueWeights(catalog[id].tagGeneratorValues)) && NonNegative(ContentWeights(catalog[id].bundle))
  }

  /** `t` is the tag the generator `tg` yields for the draw `draw`. */
  predicate TagDrawn(tg: ItemDef, draw: int, t: KeyValuePair) {
    && t.key == tg.tagGeneratorName
    && (exists j :: 0 <= j < |tg.tagGeneratorValues|
          && Owns(ValueWeights(tg.tagGeneratorValues), j, draw)
          && t.value == tg.tagGeneratorValues[j].value)
  }

  /** Every entry of the list names an id in `allowed`. */
  predicate IdsWithin(items: seq<TaggedBundleDef>, allowed: set<int>) {
    forall e :: e in items ==> e.item in allowed
  }

  /** Every content entry names an id in `allowed`. */
  predicate ContentsWithin(contents: seq<BundleDef>, allowed: set<int>) {
    forall b :: b in contents ==> b.item in allowed
  }

  /** The ids whose definitions are terminal. */
  function TerminalIds(catalog: Catalog): set<int> {
    set id | id in catalog && IsTerminal(catalog[id].itemType)
  }

  /** Every entry of the list is defined and terminal. */
  predicate AllTerminal(catalog: Catalog, items: seq<TaggedBundleDef>) {
    IdsWithin(items, TerminalIds(catalog))
  }

  lemma AddMergeItemWithin(items: seq<TaggedBundleDef>, id: int, quantity: int, tags: seq<KeyValuePair>, allowed: set<int>)
    requires IdsWithin(items, allowed) && id in allowed
    ensures IdsWithin(AddMergeItem(items, id, quantity, tags), allowed)
  {
    AddMergeItems(items, id, quantity, tags);
  }

  // ---------------------------------------------------------------------
  // Tags of one unit

  /** One tag generator takes one draw and appends the tag that draw selects. */
  lemma PickTagAppends(catalog: Catalog, tgid: int, tags: seq<KeyValuePair>, draws: seq<int>)
    requires WellWeighted(catalog)
    requires PickTag(catalog, tgid, tags, draws).Ok?
    ensures tgid in catalog && |draws| > 0
    ensures PickTag(catalog, tgid, tags, draws).value.rest == draws[1..]
    ensures |PickTag(catalog, tgid, tags, draws).value.tags| == |tags| + 1
    ensures PickTag(catalog, tgid, tags, draws).value.tags[..|tags|] == tags
    ensures TagDrawn(catalog[tgid], draws[0], PickTag(catalog, tgid, tags, draws).value.tags[|tags|])
  {
    var tg := catalog[tgid];
    var ws := ValueWeights(tg.tagGeneratorValues);
    var d := Draw(draws, Sum(ws)).value;
    WalkChooses(ws, d.value);
    var k := Walk(ws, d.value).value;
    WalkChoosesOwner(ws, d.value, k);
    var t := PickTag(catalog, tgid, tags, draws).value;
    assert t.tags == tags + [KeyValuePair(tg.tagGeneratorName, tg.tagGeneratorValues[k].value)];
  }

  /** A run of tag picks that succeeds starts with a pick that succeeds. */
  lemma PickTagsUnfold(catalog: Catalog, refs: seq<int>, tags: seq<KeyValuePair>, draws: seq<int>)
    requires |refs| > 0 && PickTags(catalog, refs, tags, draws).Ok?
    ensures PickTag(catalog, refs[0], tags, draws).Ok?
    ensures PickTags(catalog, refs, tags, draws)
      == PickTags(catalog, refs[1..], PickTag(catalog, refs[0], tags, draws).value.tags,
                  PickTag(catalog, refs[0], tags, draws).value.rest)
  {
  }

  /**
    The tag generators of a unit take one draw each and append one tag
    each after the source tags.
   */
  lemma {:induction false} PickTagsLength(catalog: Catalog, refs: seq<int>, tags: seq<KeyValuePair>, draws: seq<int>)
    requires WellWeighted(catalog)
    requires PickTags(catalog, refs, tags, draws).Ok?
    ensures |refs| <= |draws|
    ensures PickTags(catalog, refs, tags, draws).value.rest == draws[|refs|..]
    ensures |PickTags(catalog, refs, tags, draws).value.tags| == |tags| + |refs|
    ensures PickTags(catalog, refs, tags, draws).value.tags[..|tags|] == tags
    decreases |refs|
  {
    if |refs| > 0 {
      var t := PickTag(catalog, refs[0], tags, draws).value;
      PickTagsUnfold(catalog, refs, tags, draws);
      PickTagAppends(catalog, refs[0], tags, draws);
      PickTagsLength(catalog, refs[1..], t.tags, t.rest);
      var r := PickTags(catalog, refs, tags, draws).value;
      assert r.tags[..|tags|] == r.tags[..|t.tags|][..|tags|];
    }
  }

  /**
    The `k`-th appended tag is keyed by the `k`-th tag generator's name and
    holds the value the `k`-th draw selects from it.
   */
  lemma {:induction false} PickTagsDrawn(catalog: Catalog, refs: seq<int>, tags: seq<KeyValuePair>, draws: seq<int>, k: nat)
    requires WellWeighted(catalog)
    requires PickTags(catalog, refs, tags, draws).Ok?
    requires k < |refs|
    ensures k < |draws| && |tags| + k < |PickTags(catalog, refs, tags, draws).value.tags|
    ensures refs[k] in catalog
    ensures TagDrawn(catalog[refs[k]], draws[k], PickTags(catalog, refs, tags, draws).value.tags[|tags| + k])
    decreases |refs|
  {
    var t := PickTag(catalog, refs[0], tags, draws).value;
    PickTagsUnfold(catalog, refs, tags, draws);
    PickTagAppends(catalog, refs[0], tags, draws);
    var r := PickTags(catalog, refs, tags, draws).value;
    assert r == PickTags(catalog, refs[1..], t.tags, t.rest).value;
    if k == 0 {
      PickTagsLength(catalog, refs[1..], t.tags, t.rest);
      assert r.tags[|tags|] == r.tags[..|t.tags|][|tags|];
    } else {
      PickTagsDrawn(catalog, refs[1..], t.tags, t.rest, k - 1);
      var i := |t.tags| + (k - 1);
      assert i == |tags| + k;
      assert refs[1..][k - 1] == refs[k];
      assert t.rest[k - 1] == draws[k];
    }
  }

  // ---------------------------------------------------------------------
  // Generator units

  /**
    One generator unit: its tag draws, then one content draw that selects
    the single unit added, carrying the tags just drawn.
   */
  lemma GenerateUnitShape(catalog: Catalog, def: ItemDef, tags: seq<KeyValuePair>,
                          out: seq<TaggedBundleDef>, draws: seq<int>)
    requires WellWeighted(catalog) && NonNegative(ContentWeights(def.bundle))
    requires GenerateUnit(catalog, def, tags, out, draws).Ok?
    ensures |def.tagGenerators| < |draws|
    ensures GenerateUnit(catalog, def, tags, out, draws).value.rest == draws[|def.tagGenerators| + 1..]
    ensures exists k, unitTags ::
      && 0 <= k < |def.bundle|
      && Owns(ContentWeights(def.bundle), k, draws[|def.tagGenerators|])
      && PickTags(catalog, def.tagGenerators, tags, draws) == Ok(Tagged(unitTags, draws[|def.tagGenerators|..]))
      && GenerateUnit(catalog, def, tags, out, draws).value.items == AddMergeItem(out, def.bundle[k].item, 1, unitTags)
  {
    var n := |def.tagGenerators|;
    var t := PickTags(catalog, def.tagGenerators, tags, draws).value;
    PickTagsLength(catalog, def.tagGenerators, tags, draws);
    var ws := ContentWeights(def.bundle);
    var d := Draw(t.rest, Sum(ws)).value;
    assert d.value == draws[n];
    assert d.rest == draws[n + 1..];
    WalkChooses(ws, d.value);
    var k := Walk(ws, d.value).value;
    WalkChoosesOwner(ws, d.value, k);
    assert PickTags(catalog, def.tagGenerators, tags, draws) == Ok(Tagged(t.tags, draws[n..]));
  }

  /** A generator unit adds exactly one unit and takes one draw per tag generator and one more. */
  lemma GenerateUnitAddsOne(catalog: Catalog, def: ItemDef, tags: seq<KeyValuePair>,
                            out: seq<TaggedBundleDef>, draws: seq<int>)
    requires WellWeighted(catalog) && NonNegative(ContentWeights(def.bundle))
    requires GenerateUnit(catalog, def, tags, out, draws).Ok?
    ensures |draws| == |GenerateUnit(catalog, def, tags, out, draws).value.rest| + |def.tagGenerators| + 1
    ensures Total(GenerateUnit(catalog, def, tags, out, draws).value.items) == Total(out) + 1
  {
    GenerateUnitShape(catalog, def, tags, out, draws);
    var k, unitTags :|
      && 0 <= k < |def.bundle|
      && Owns(ContentWeights(def.bundle), k, draws[|def.tagGenerators|])
      && PickTags(catalog, def.tagGenerators, tags, draws) == Ok(Tagged(unitTags, draws[|def.tagGenerators|..]))
      && GenerateUnit(catalog, def, tags, out, draws).value.items == AddMergeItem(out, def.bundle[k].item, 1, unitTags);
    AddMergeTotal(out, def.bundle[k].item, 1, unitTags);
  }

  /** The unit a generator adds is one of its contents. */
  lemma GenerateUnitWithin(catalog: Catalog, def: ItemDef, tags: seq<KeyValuePair>,
                           out: seq<TaggedBundleDef>, draws: seq<int>, allowed: set<int>)
    requires WellWeighted(catalog) && NonNegative(ContentWeights(def.bundle))
    requires GenerateUnit(catalog, def, tags, out, draws).Ok?
    requires IdsWithin(out, allowed) && ContentsWithin(def.bundle, allowed)
    ensures IdsWithin(GenerateUnit(catalog, def, tags, out, draws).value.items, allowed)
  {
    GenerateUnitShape(catalog, def, tags, out, draws);
    var k, unitTags :|
      && 0 <= k < |def.bundle|
      && Owns(ContentWeights(def.bundle), k, draws[|def.tagGenerators|])
      && PickTags(catalog, def.tagGenerators, tags, draws) == Ok(Tagged(unitTags, draws[|def.tagGenerators|..]))
      && GenerateUnit(catalog, def, tags, out, draws).value.items == AddMergeItem(out, def.bundle[k].item, 1, unitTags);
    assert def.bundle[k] in def.bundle;
    AddMergeItemWithin(out, def.bundle[k].item, 1, unitTags, allowed);
  }

  /** A generator unit keeps the list free of duplicate (item, tag-set) entries. */
  lemma GenerateUnitNoDuplicates(catalog: Catalog, def: ItemDef, tags: seq<KeyValuePair>,
                                 out: seq<TaggedBundleDef>, draws: seq<int>)
    requires WellWeighted(catalog) && NonNegative(ContentWeights(def.bundle))
    requires GenerateUnit(catalog, def, tags, out, draws).Ok?
    requires NoDuplicates(out)
    ensures NoDuplicates(GenerateUnit(catalog, def, tags, out, draws).value.items)
  {
    GenerateUnitShape(catalog, def, tags, out, draws);
    var k, unitTags :|
      && 0 <= k < |def.bundle|
      && Owns(ContentWeights(def.bundle), k, draws[|def.tagGenerators|])
      && PickTags(catalog, def.tagGenerators, tags, draws) == Ok(Tagged(unitTags, draws[|def.tagGenerators|..]))
      && GenerateUnit(catalog, def, tags, out, draws).value.items == AddMergeItem(out, def.bundle[k].item, 1, unitTags);
    AddMergeNoDuplicates(out, def.bundle[k].item, 1, unitTags);
  }

  /** A run of units that succeeds starts with a unit that succeeds. */
  lemma GenerateUnitsUnfold(catalog: Catalog, def: ItemDef, tags: seq<KeyValuePair>, count: nat,
                            out: seq<TaggedBundleDef>, draws: seq<int>)
    requires count > 0 && GenerateUnits(catalog, def, tags, count, out, draws).Ok?
    ensures GenerateUnit(catalog, def, tags, out, draws).Ok?
    ensures GenerateUnits(catalog, def, tags, count, out, draws)
      == GenerateUnits(catalog, def, tags, count - 1, GenerateUnit(catalog, def, tags, out, draws).value.items,
                       GenerateUnit(catalog, def, tags, out, draws).value.rest)
  {
  }

  /** `count` generator units take `(|tagGenerators| + 1) * count` draws. */
  lemma {:induction false} GenerateUnitsDraws(catalog: Catalog, def: ItemDef, tags: seq<KeyValuePair>, count: nat,
                                              out: seq<TaggedBundleDef>, draws: seq<int>)
    requires WellWeighted(catalog) && NonNegative(ContentWeights(def.bundle))
    requires GenerateUnits(catalog, def, tags, count, out, draws).Ok?
    ensures |draws| == |GenerateUnits(catalog, def, tags, count, out, draws).value.rest| + (|def.tagGenerators| + 1) * count
    decreases count
  {
    if count > 0 {
      var b := GenerateUnit(catalog, def, tags, out, draws).value;
      GenerateUnitAddsOne(catalog, def, tags, out, draws);
      GenerateUnitsDraws(catalog, def, tags, count - 1, b.items, b.rest);
      GenerateUnitsUnfold(catalog, def, tags, count, out, draws);
      MulStep(|def.tagGenerators| + 1, count);
    }
  }

  /** `count` generator units add exactly `count` units. */
  lemma {:induction false} GenerateUnitsTotal(catalog: Catalog, def: ItemDef, tags: seq<KeyValuePair>, count: nat,
                                              out: seq<TaggedBundleDef>, draws: seq<int>)
    requires WellWeighted(catalog) && NonNegative(ContentWeights(def.bundle))
    requires GenerateUnits(catalog, def, tags, count, out, draws).Ok?
    ensures Total(GenerateUnits(catalog, def, tags, count, out, draws).value.items) == Total(out) + count
    decreases count
  {
    if count > 0 {
      var b := GenerateUnit(catalog, def, tags, out, draws).value;
      GenerateUnitAddsOne(catalog, def, tags, out, draws);
      GenerateUnitsTotal(catalog, def, tags, count - 1, b.items, b.rest);
      GenerateUnitsUnfold(catalog, def, tags, count, out, draws);
    }
  }

  lemma MulStep(a: int, c: nat)
    requires c > 0
    ensures a * c == a * (c - 1) + a
  {
  }

  /** Generator units add entries only for the generator's contents. */
  lemma {:induction false} GenerateUnitsWithin(catalog: Catalog, def: ItemDef, tags: seq<KeyValuePair>, count: nat,
                                               out: seq<TaggedBundleDef>, draws: seq<int>, allowed: set<int>)
    requires WellWeighted(catalog) && NonNegative(ContentWeights(def.bundle))
    requires GenerateUnits(catalog, def, tags, count, out, draws).Ok?
    requires IdsWithin(out, allowed) && ContentsWithin(def.bundle, allowed)
    ensures IdsWithin(GenerateUnits(catalog, def, tags, count, out, draws).value.items, allowed)
    decreases count
  {
    if count > 0 {
      GenerateUnitsUnfold(catalog, def, tags, count, out, draws);
      GenerateUnitWithin(catalog, def, tags, out, draws, allowed);
      var b := GenerateUnit(catalog, def, tags, out, draws).value;
      GenerateUnitsWithin(catalog, def, tags, count - 1, b.items, b.rest, allowed);
    }
  }

  /** Generator units keep the list free of duplicate (item, tag-set) entries. */
  lemma {:induction false} GenerateUnitsNoDuplicates(catalog: Catalog, def: ItemDef, tags: seq<KeyValuePair>, count: nat,
                                                     out: seq<TaggedBundleDef>, draws: seq<int>)
    requires WellWeighted(catalog) && NonNegative(ContentWeights(def.bundle))
    requires GenerateUnits(catalog, def, tags, count, out, draws).Ok?
    requires NoDuplicates(out)
    ensures NoDuplicates(GenerateUnits(catalog, def, tags, count, out, draws).value.items)
    decreases count
  {
    if count > 0 {
      var b := GenerateUnit(catalog, def, tags, out, draws).value;
      GenerateUnitNoDuplicates(catalog, def, tags, out, draws);
      GenerateUnitsNoDuplicates(catalog, def, tags, count - 1, b.items, b.rest);
      GenerateUnitsUnfold(catalog, def, tags, count, out, draws);
    }
  }

  // ---------------------------------------------------------------------
  // Bundles

  /** How many units of `id` one copy of the content list holds. */
  function ContentQuantity(contents: seq<BundleDef>, id: int): int {
    if |contents| == 0 then 0
    else (if contents[0].item == id then contents[0].quantity else 0) + ContentQuantity(contents[1..], id)
  }

  /**
    A bundle of quantity `q` adds, for every item id, `q` times the content
    list's quantity of that id, all carrying the source tags; nothing else
    changes.
   */
  lemma {:induction false} AddBundleQuantity(contents: seq<BundleDef>, q: int, tags: seq<KeyValuePair>,
                                             out: seq<TaggedBundleDef>, id: int, tagSet: multiset<KeyValuePair>)
    ensures QuantityOf(AddBundle(contents, q, tags, out), id, tagSet)
      == QuantityOf(out, id, tagSet) + (if tagSet == multiset(tags) then q * ContentQuantity(contents, id) else 0)
    decreases |contents|
  {
    if |contents| > 0 {
      var c := contents[0];
      var next := AddMergeItem(out, c.item, c.quantity * q, tags);
      AddMergeQuantity(out, c.item, c.quantity * q, tags, id, tagSet);
      AddBundleQuantity(contents[1..], q, tags, next, id, tagSet);
      assert AddBundle(contents, q, tags, out) == AddBundle(contents[1..], q, tags, next);
      var head := if c.item == id then c.quantity else 0;
      var tail := ContentQuantity(contents[1..], id);
      assert ContentQuantity(contents, id) == head + tail;
      if tagSet == multiset(tags) {
        Distribute(q, head, tail);
        assert (if c.item == id then c.quantity * q else 0) == q * head;
      }
    }
  }

  lemma Distribute(q: int, x: int, y: int)
    ensures q * (x + y) == q * x + q * y
  {
  }

  /** A bundle adds entries only for its contents and keeps the list free of duplicates. */
  lemma {:induction false} AddBundleShape(contents: seq<BundleDef>, q: int, tags: seq<KeyValuePair>,
                                          out: seq<TaggedBundleDef>, allowed: set<int>)
    ensures IdsWithin(out, allowed) && ContentsWithin(contents, allowed)
      ==> IdsWithin(AddBundle(contents, q, tags, out), allowed)
    ensures NoDuplicates(out) ==> NoDuplicates(AddBundle(contents, q, tags, out))
    decreases |contents|
  {
    if |contents| > 0 {
      var c := contents[0];
      var next := AddMergeItem(out, c.item, c.quantity * q, tags);
      if IdsWithin(out, allowed) && ContentsWithin(contents, allowed) {
        assert c in contents;
        AddMergeItemWithin(out, c.item, c.quantity * q, tags, allowed);
        assert ContentsWithin(contents[1..], allowed) by {
          forall b | b in contents[1..] ensures b.item in allowed {
            assert b in contents;
          }
        }
      }
      if NoDuplicates(out) {
        AddMergeNoDuplicates(out, c.item, c.quantity * q, tags);
      }
      AddBundleShape(contents[1..], q, tags, next, allowed);
    }
  }

  // ---------------------------------------------------------------------
  // One entry of the list

  /**
    A terminal entry is copied through merge-on-insert: its units are added
    under its own (item, tag-set) key, no draw is taken and nothing counts
    as expanded.
   */
  lemma StepTerminal(catalog: Catalog, e: TaggedBundleDef, out: seq<TaggedBundleDef>, draws: seq<int>,
                     id: int, tagSet: multiset<KeyValuePair>)
    requires e.item in catalog && IsTerminal(catalog[e.item].itemType)
    ensures Step(catalog, e, out, draws).Ok?
    ensures Step(catalog, e, out, draws).value.rest == draws && !Step(catalog, e, out, draws).value.expanded
    ensures QuantityOf(Step(catalog, e, out, draws).value.items, id, tagSet)
      == QuantityOf(out, id, tagSet) + (if id == e.item && tagSet == multiset(e.tags) then e.quantity else 0)
  {
    AddMergeQuantity(out, e.item, e.quantity, e.tags, id, tagSet);
  }

  /**
    A bundle entry is replaced by its contents, each multiplied by the
    entry's quantity and carrying the entry's tags; no draw is taken.
   */
  lemma StepBundle(catalog: Catalog, e: TaggedBundleDef, out: seq<TaggedBundleDef>, draws: seq<int>,
                   id: int, tagSet: multiset<KeyValuePair>)
    requires e.item in catalog && IsBundle(catalog[e.item].itemType)
    ensures Step(catalog, e, out, draws).Ok?
    ensures Step(catalog, e, out, draws).value.rest == draws && Step(catalog, e, out, draws).value.expanded
    ensures QuantityOf(Step(catalog, e, out, draws).value.items, id, tagSet)
      == QuantityOf(out, id, tagSet)
        + (if tagSet == multiset(e.tags) then e.quantity * ContentQuantity(catalog[e.item].bundle, id) else 0)
  {
    AddBundleQuantity(catalog[e.item].bundle, e.quantity, e.tags, out, id, tagSet);
  }

  /**
    A generator entry of quantity `q` is replaced by `max(q, 0)` units, each
    taking one draw per tag generator and one more.
   */
  lemma StepGenerator(catalog: Catalog, e: TaggedBundleDef, out: seq<TaggedBundleDef>, draws: seq<int>)
    requires WellWeighted(catalog)
    requires e.item in catalog && IsGenerator(catalog[e.item].itemType)
    requires Step(catalog, e, out, draws).Ok?
    ensures Step(catalog, e, out, draws).value.expanded
    ensures Total(Step(catalog, e, out, draws).value.items) == Total(out) + (if e.quantity > 0 then e.quantity else 0)
    ensures |draws| == |Step(catalog, e, out, draws).value.rest|
      + (|catalog[e.item].tagGenerators| + 1) * (if e.quantity > 0 then e.quantity else 0)
  {
    var def := catalog[e.item];
    var n: nat := if e.quantity > 0 then e.quantity else 0;
    GenerateUnitsTotal(catalog, def, e.tags, n, out, draws);
    GenerateUnitsDraws(catalog, def, e.tags, n, out, draws);
  }

  /** Every kind of step keeps the list free of duplicate (item, tag-set) entries. */
  lemma StepNoDuplicates(catalog: Catalog, e: TaggedBundleDef, out: seq<TaggedBundleDef>, draws: seq<int>)
    requires WellWeighted(catalog) && NoDuplicates(out)
    requires Step(catalog, e, out, draws).Ok?
    ensures NoDuplicates(Step(catalog, e, out, draws).value.items)
  {
    var def := catalog[e.item];
    if IsTerminal(def.itemType) {
      AddMergeNoDuplicates(out, e.item, e.quantity, e.tags);
    } else if IsGenerator(def.itemType) {
      GenerateUnitsNoDuplicates(catalog, def, e.tags, if e.quantity > 0 then e.quantity else 0, out, draws);
    } else {
      AddBundleShape(def.bundle, e.quantity, e.tags, out, {});
    }
  }

  /** Every content list of the catalog names only ids of the catalog. */
  predicate Closed(catalog: Catalog) {
    forall id :: id in catalog ==> ContentsWithin(catalog[id].bundle, catalog.Keys)
  }

  /** In a closed catalog, a step adds only entries whose definitions exist. */
  lemma StepWithin(catalog: Catalog, e: TaggedBundleDef, out: seq<TaggedBundleDef>, draws: seq<int>)
    requires WellWeighted(catalog) && Closed(catalog) && IdsWithin(out, catalog.Keys)
    requires Step(catalog, e, out, draws).Ok?
    ensures IdsWithin(Step(catalog, e, out, draws).value.items, catalog.Keys)
  {
    var def := catalog[e.item];
    if IsTerminal(def.itemType) {
      AddMergeItemWithin(out, e.item, e.quantity, e.tags, catalog.Keys);
    } else if IsGenerator(def.itemType) {
      GenerateUnitsWithin(catalog, def, e.tags, if e.quantity > 0 then e.quantity else 0, out, draws, catalog.Keys);
    } else {
      AddBundleShape(def.bundle, e.quantity, e.tags, out, catalog.Keys);
    }
  }

  // ---------------------------------------------------------------------
  // One round

  /** A round that succeeds starts with a step that succeeds. */
  lemma RoundUnfold(catalog: Catalog, items: seq<TaggedBundleDef>, st: RoundState)
    requires |items| > 0 && Round(catalog, items, st).Ok?
    ensures Step(catalog, items[0], st.items, st.rest).Ok?
    ensures Round(catalog, items, st) == Round(catalog, items[1..],
      RoundState(Step(catalog, items[0], st.items, st.rest).value.items,
                 Step(catalog, items[0], st.items, st.rest).value.rest,
                 st.expanded || Step(catalog, items[0], st.items, st.rest).value.expanded))
  {
  }

  /** A list is within `allowed` when its first entry and the rest are. */
  lemma IdsWithinCons(items: seq<TaggedBundleDef>, allowed: set<int>)
    requires |items| > 0
    ensures IdsWithin(items, allowed) <==> items[0].item in allowed && IdsWithin(items[1..], allowed)
  {
    assert items == [items[0]] + items[1..];
  }

  /**
    A round that succeeds read only defined entries, and it reports an
    expansion exactly when one was pending or some entry is not terminal.
   */
  lemma {:induction false} RoundExpanded(catalog: Catalog, items: seq<TaggedBundleDef>, st: RoundState)
    requires Round(catalog, items, st).Ok?
    ensures IdsWithin(items, catalog.Keys)
    ensures Round(catalog, items, st).value.expanded <==> st.expanded || !AllTerminal(catalog, items)
    decreases |items|
  {
    if |items| > 0 {
      var s := Step(catalog, items[0], st.items, st.rest).value;
      RoundUnfold(catalog, items, st);
      RoundExpanded(catalog, items[1..], RoundState(s.items, s.rest, st.expanded || s.expanded));
      IdsWithinCons(items, catalog.Keys);
      IdsWithinCons(items, TerminalIds(catalog));
    }
  }

  /** A round keeps the list it builds free of duplicate (item, tag-set) entries. */
  lemma {:induction false} RoundNoDuplicates(catalog: Catalog, items: seq<TaggedBundleDef>, st: RoundState)
    requires WellWeighted(catalog) && NoDuplicates(st.items)
    requires Round(catalog, items, st).Ok?
    ensures NoDuplicates(Round(catalog, items, st).value.items)
    decreases |items|
  {
    if |items| > 0 {
      var s := Step(catalog, items[0], st.items, st.rest).value;
      RoundUnfold(catalog, items, st);
      StepNoDuplicates(catalog, items[0], st.items, st.rest);
      RoundNoDuplicates(catalog, items[1..], RoundState(s.items, s.rest, st.expanded || s.expanded));
    }
  }

  /** In a closed catalog, a round builds a list of defined entries. */
  lemma {:induction false} RoundWithin(catalog: Catalog, items: seq<TaggedBundleDef>, st: RoundState)
    requires WellWeighted(catalog) && Closed(catalog) && IdsWithin(st.items, catalog.Keys)
    requires Round(catalog, items, st).Ok?
    ensures IdsWithin(Round(catalog, items, st).value.items, catalog.Keys)
    decreases |items|
  {
    if |items| > 0 {
      var s := Step(catalog, items[0], st.items, st.rest).value;
      RoundUnfold(catalog, items, st);
      StepWithin(catalog, items[0], st.items, st.rest);
      RoundWithin(catalog, items[1..], RoundState(s.items, s.rest, st.expanded || s.expanded));
    }
  }

  /** Splitting off the first entry of a list splits its quantity of every key. */
  lemma {:induction false} QuantityOfFront(items: seq<TaggedBundleDef>, id: int, tagSet: multiset<KeyValuePair>)
    requires |items| > 0
    ensures QuantityOf(items, id, tagSet)
      == (if items[0].item == id && multiset(items[0].tags) == tagSet then items[0].quantity else 0)
        + QuantityOf(items[1..], id, tagSet)
    decreases |items|
  {
    var n := |items|;
    if n > 1 {
      QuantityOfFront(items[..n - 1], id, tagSet);
      assert items[..n - 1][1..] == items[1..][..n - 2];
      assert items[1..][n - 2] == items[n - 1];
    } else {
      assert items[1..] == [];
    }
  }

  /**
    A round over terminal entries only takes no draw, expands nothing, and
    adds every entry's units under its own (item, tag-set) key.
   */
  lemma {:induction false} RoundTerminals(catalog: Catalog, items: seq<TaggedBundleDef>, st: RoundState,
                                          id: int, tagSet: multiset<KeyValuePair>)
    requires AllTerminal(catalog, items)
    ensures Round(catalog, items, st).Ok?
    ensures Round(catalog, items, st).value.rest == st.rest
    ensures Round(catalog, items, st).value.expanded == st.expanded
    ensures QuantityOf(Round(catalog, items, st).value.items, id, tagSet)
      == QuantityOf(st.items, id, tagSet) + QuantityOf(items, id, tagSet)
    decreases |items|
  {
    if |items| > 0 {
      assert items[0] in items && items[0].item in TerminalIds(catalog);
      StepTerminal(catalog, items[0], st.items, st.rest, id, tagSet);
      var s := Step(catalog, items[0], st.items, st.rest).value;
      assert AllTerminal(catalog, items[1..]) by {
        forall e | e in items[1..] ensures e.item in TerminalIds(catalog) {
          assert e in items;
        }
      }
      RoundTerminals(catalog, items[1..], RoundState(s.items, s.rest, st.expanded || s.expanded), id, tagSet);
      QuantityOfFront(items, id, tagSet);
    }
  }

  /** A round over terminal entries builds a list of terminal entries. */
  lemma {:induction false} RoundTerminalsStayTerminal(catalog: Catalog, items: seq<TaggedBundleDef>, st: RoundState)
    requires AllTerminal(catalog, items) && AllTerminal(catalog, st.items)
    ensures Round(catalog, items, st).Ok?
    ensures AllTerminal(catalog, Round(catalog, items, st).value.items)
    decreases |items|
  {
    if |items| > 0 {
      var e := items[0];
      assert e in items;
      AddMergeItemWithin(st.items, e.item, e.quantity, e.tags, TerminalIds(catalog));
      var s := Step(catalog, e, st.items, st.rest).value;
      assert AllTerminal(catalog, items[1..]) by {
        forall f | f in items[1..] ensures f.item in TerminalIds(catalog) {
          assert f in items;
        }
      }
      RoundTerminalsStayTerminal(catalog, items[1..], RoundState(s.items, s.rest, st.expanded || s.expanded));
    }
  }

  /**
    Terminal entries with distinct (item, tag-set) keys that are not yet in
    the list are appended to it one by one, unchanged and in order.
   */
  lemma {:induction false} RoundCopiesTerminals(catalog: Catalog, items: seq<TaggedBundleDef>, st: RoundState)
    requires AllTerminal(catalog, items) && NoDuplicates(st.items + items)
    ensures Round(catalog, items, st) == Ok(RoundState(st.items + items, st.rest, st.expanded))
    decreases |items|
  {
    if |items| == 0 {
      assert st.items + items == st.items;
    } else {
      var e := items[0];
      var out := st.items;
      assert e in items && e.item in TerminalIds(catalog);
      var all := out + items;
      forall j | 0 <= j < |out|
        ensures !Matches(out[j], e.item, e.tags)
      {
        assert all[j] == out[j] && all[|out|] == e;
        assert !SameKey(out[j], e);
      }
      AddMergeAppends(out, e.item, e.quantity, e.tags);
      assert Step(catalog, e, out, st.rest) == Ok(RoundState(out + [e], st.rest, false));
      assert (out + [e]) + items[1..] == all;
      assert AllTerminal(catalog, items[1..]) by {
        forall f | f in items[1..] ensures f.item in TerminalIds(catalog) {
          assert f in items;
        }
      }
      RoundCopiesTerminals(catalog, items[1..], RoundState(out + [e], st.rest, st.expanded));
    }
  }

  // ---------------------------------------------------------------------
  // The whole run

  /** A run with budget left performs one round and goes on only if it expanded something. */
  lemma GenerateItemsUnfold(catalog: Catalog, items: seq<TaggedBundleDef>, draws: seq<int>, rounds: nat)
    requires rounds > 0 && Round(catalog, items, RoundState([], draws, false)).Ok?
    ensures var st := Round(catalog, items, RoundState([], draws, false)).value;
      GenerateItems(catalog, items, draws, rounds)
        == if st.expanded then GenerateItems(catalog, st.items, st.rest, rounds - 1) else Ok(Batch(st.items, st.rest))
  {
  }

  /** A run that succeeds completed its first round. */
  lemma GenerateItemsFirstRound(catalog: Catalog, items: seq<TaggedBundleDef>, draws: seq<int>, rounds: nat)
    requires GenerateItems(catalog, items, draws, rounds).Ok?
    ensures rounds > 0 && Round(catalog, items, RoundState([], draws, false)).Ok?
  {
  }

  /** A run that succeeds holds only defined, terminal entries. */
  lemma {:induction false} GenerateItemsTerminal(catalog: Catalog, items: seq<TaggedBundleDef>, draws: seq<int>, rounds: nat)
    requires GenerateItems(catalog, items, draws, rounds).Ok?
    ensures AllTerminal(catalog, GenerateItems(catalog, items, draws, rounds).value.items)
    decreases rounds
  {
    var start := RoundState([], draws, false);
    GenerateItemsFirstRound(catalog, items, draws, rounds);
    var st := Round(catalog, items, start).value;
    GenerateItemsUnfold(catalog, items, draws, rounds);
    if st.expanded {
      GenerateItemsTerminal(catalog, st.items, st.rest, rounds - 1);
    } else {
      RoundExpanded(catalog, items, start);
      RoundTerminalsStayTerminal(catalog, items, start);
    }
  }

  /** A run that succeeds holds no two entries with the same (item, tag-set) key. */
  lemma {:induction false} GenerateItemsNoDuplicates(catalog: Catalog, items: seq<TaggedBundleDef>, draws: seq<int>, rounds: nat)
    requires WellWeighted(catalog)
    requires GenerateItems(catalog, items, draws, rounds).Ok?
    ensures NoDuplicates(GenerateItems(catalog, items, draws, rounds).value.items)
    decreases rounds
  {
    var start := RoundState([], draws, false);
    GenerateItemsFirstRound(catalog, items, draws, rounds);
    var st := Round(catalog, items, start).value;
    GenerateItemsUnfold(catalog, items, draws, rounds);
    RoundNoDuplicates(catalog, items, start);
    if st.expanded {
      GenerateItemsNoDuplicates(catalog, st.items, st.rest, rounds - 1);
    }
  }

  /**
    A list of terminal entries is merged in a single round: no draw is
    taken and every (item, tag-set) key keeps its number of units.
   */
  lemma GenerateItemsMergesTerminals(catalog: Catalog, items: seq<TaggedBundleDef>, draws: seq<int>, rounds: nat,
                                     id: int, tagSet: multiset<KeyValuePair>)
    requires rounds > 0 && AllTerminal(catalog, items)
    ensures GenerateItems(catalog, items, draws, rounds).Ok?
    ensures GenerateItems(catalog, items, draws, rounds).value.rest == draws
    ensures QuantityOf(GenerateItems(catalog, items, draws, rounds).value.items, id, tagSet) == QuantityOf(items, id, tagSet)
  {
    RoundTerminals(catalog, items, RoundState([], draws, false), id, tagSet);
  }

  /**
    A list of terminal entries with distinct (item, tag-set) keys is its own
    expansion.
   */
  lemma GenerateItemsFixedPoint(catalog: Catalog, items: seq<TaggedBundleDef>, draws: seq<int>, rounds: nat)
    requires rounds > 0 && AllTerminal(catalog, items) && NoDuplicates(items)
    ensures GenerateItems(catalog, items, draws, rounds) == Ok(Batch(items, draws))
  {
    assert [] + items == items;
    RoundCopiesTerminals(catalog, items, RoundState([], draws, false));
  }

  /**
    Given one more round, a run that finishes either returns the same list at
    once (its first round expanded nothing) or goes on from the list and
    draws its first round left, where the shorter budget finishes too.
   */
  lemma GenerateItemsNextRound(catalog: Catalog, items: seq<TaggedBundleDef>, draws: seq<int>, rounds: nat, result: Batch)
    requires GenerateItems(catalog, items, draws, rounds) == Ok(result)
    ensures rounds > 0
    ensures || GenerateItems(catalog, items, draws, rounds + 1) == Ok(result)
            || exists next: seq<TaggedBundleDef>, rest: seq<int> ::
                 && GenerateItems(catalog, next, rest, rounds - 1) == Ok(result)
                 && GenerateItems(catalog, items, draws, rounds + 1) == GenerateItems(catalog, next, rest, rounds)
  {
    var st := Round(catalog, items, RoundState([], draws, false)).value;
    if st.expanded {
      assert && GenerateItems(catalog, st.items, st.rest, rounds - 1) == Ok(result)
             && GenerateItems(catalog, items, draws, rounds + 1) == GenerateItems(catalog, st.items, st.rest, rounds);
      assert exists next: seq<TaggedBundleDef>, rest: seq<int> ::
        && GenerateItems(catalog, next, rest, rounds - 1) == Ok(result)
        && GenerateItems(catalog, items, draws, rounds + 1) == GenerateItems(catalog, next, rest, rounds);
    }
  }

  /** One more round of budget does not change a run that finishes. */
  lemma {:induction false} GenerateItemsOneMoreRound(catalog: Catalog, items: seq<TaggedBundleDef>, draws: seq<int>,
                                                     rounds: nat, result: Batch)
    requires GenerateItems(catalog, items, draws, rounds) == Ok(result)
    ensures GenerateItems(catalog, items, draws, rounds + 1) == Ok(result)
    decreases rounds
  {
    GenerateItemsNextRound(catalog, items, draws, rounds, result);
    if GenerateItems(catalog, items, draws, rounds + 1) != Ok(result) {
      var next, rest :|
        && GenerateItems(catalog, next, rest, rounds - 1) == Ok(result)
        && GenerateItems(catalog, items, draws, rounds + 1) == GenerateItems(catalog, next, rest, rounds);
      GenerateItemsOneMoreRound(catalog, next, rest, rounds - 1, result);
    }
  }

  /** The round budget only cuts a run off: a run that finishes gives the same result with a larger budget. */
  lemma {:induction false} GenerateItemsMoreRounds(catalog: Catalog, items: seq<TaggedBundleDef>, draws: seq<int>,
                                                   rounds: nat, extra: nat)
    requires GenerateItems(catalog, items, draws, rounds).Ok?
    ensures GenerateItems(catalog, items, draws, rounds + extra) == GenerateItems(catalog, items, draws, rounds)
    decreases extra
  {
    if extra > 0 {
      GenerateItemsMoreRounds(catalog, items, draws, rounds, extra - 1);
      GenerateItemsOneMoreRound(catalog, items, draws, rounds + extra - 1, GenerateItems(catalog, items, draws, rounds).value);
    }
  }
}
