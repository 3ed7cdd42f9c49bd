/**
  The expansion engine (`generateItems` in generator.go). Each round reads
  the working list and rebuilds it through merge-on-insert: terminal entries
  are copied, bundles are replaced by all their contents, and generators are
  replaced unit by unit by one weighted pick each, after one weighted tag per
  tag generator. The rounds stop after one in which nothing was expanded.

  The random source is the sequence `draws`: each call of `rng.Int63n(n)`
  takes the next element, which must lie in `[0, n)`. The unbounded Go loop
  is given a budget of `rounds`.
 */
module Generator {
  import opened Results
  import opened Defs
  import opened Tags
  import opened Merge
  import opened Pick

  /** The definitions, by item id. */
  type Catalog = map<int, ItemDef>

  /** Why a run stops without a result. */
  datatype Panic =
    | MissingDef(id: int)                    // the nil definition of an unknown id is dereferenced
    | UnhandledType(itemType: string)        // panic("unhandled item type: ...")
    | InvalidBound(bound: int)               // rng.Int63n(n) with n <= 0
    | DrawsExhausted                         // the draw sequence is shorter than the run needs
    | DrawOutOfRange(draw: int, bound: int)  // a draw outside [0, n) is not a value Int63n returns
    | RoundLimit                             // the budget of rounds ran out

  /** A draw and the draws left after it. */
  datatype Drawn = Drawn(value: int, rest: seq<int>)

  /** `rng.Int63n(bound)`, answered by the next draw. */
  function Draw(draws: seq<int>, bound: int): (r: Result<Drawn, Panic>)
    ensures r.Ok? ==> 0 <= r.value.value < bound && draws == [r.value.value] + r.value.rest
    ensures r.Ok? <==> 0 < bound && |draws| > 0 && 0 <= draws[0] < bound
    ensures bound <= 0 ==> r == Err(InvalidBound(bound))
  {
    if bound <= 0 then Err(InvalidBound(bound))
    else if |draws| == 0 then Err(DrawsExhausted)
    else if !(0 <= draws[0] < bound) then Err(DrawOutOfRange(draws[0], bound))
    else Ok(Drawn(draws[0], draws[1..]))
  }

  predicate IsTerminal(t: string) {
    t == "item" || t == "tag_tool"
  }

  predicate IsGenerator(t: string) {
    t == "playtimegenerator" || t == "generator"
  }

  predicate IsBundle(t: string) {
    t == "bundle"
  }

  /** The weights of a tag generator's values. */
  function ValueWeights(vs: seq<ValueWeightPair>): (ws: seq<int>)
    ensures |ws| == |vs| && forall k :: 0 <= k < |vs| ==> ws[k] == vs[k].weight
  {
    seq(|vs|, k requires 0 <= k < |vs| => vs[k].weight)
  }

  /** The quantities of a content list, read as weights by generators. */
  function ContentWeights(bs: seq<BundleDef>): (ws: seq<int>)
    ensures |ws| == |bs| && forall k :: 0 <= k < |bs| ==> ws[k] == bs[k].quantity
  {
    seq(|bs|, k requires 0 <= k < |bs| => bs[k].quantity)
  }

  /** A unit's tags so far, and the draws left. */
  datatype Tagged = Tagged(tags: seq<KeyValuePair>, rest: seq<int>)

  /** One tag generator's weighted pick, appended to the unit's tags. */
  function PickTag(catalog: Catalog, tgid: int, tags: seq<KeyValuePair>, draws: seq<int>): Result<Tagged, Panic> {
    if tgid !in catalog then Err(MissingDef(tgid))
    else
      var tg := catalog[tgid];
      var ws := ValueWeights(tg.tagGeneratorValues);
      match Draw(draws, Sum(ws))
      case Err(e) => Err(e)
      case Ok(d) =>
        match Walk(ws, d.value)
        case None => Ok(Tagged(tags, d.rest))
        case Some(k) => Ok(Tagged(tags + [KeyValuePair(tg.tagGeneratorName, tg.tagGeneratorValues[k].value)], d.rest))
  }

  /** The tag generators of a generator, consulted in list order. */
  function PickTags(catalog: Catalog, refs: seq<int>, tags: seq<KeyValuePair>, draws: seq<int>): Result<Tagged, Panic>
    decreases |refs|
  {
    if |refs| == 0 then Ok(Tagged(tags, draws))
    else
      match PickTag(catalog, refs[0], tags, draws)
      case Err(e) => Err(e)
      case Ok(t) => PickTags(catalog, refs[1..], t.tags, t.rest)
  }

  /** The list being built, and the draws left. */
  datatype Batch = Batch(items: seq<TaggedBundleDef>, rest: seq<int>)

  /** One unit of a generator: its tags, then one weighted pick of its contents. */
  function GenerateUnit(catalog: Catalog, def: ItemDef, tags: seq<KeyValuePair>,
                        out: seq<TaggedBundleDef>, draws: seq<int>): Result<Batch, Panic>
  {
    match PickTags(catalog, def.tagGenerators, tags, draws)
    case Err(e) => Err(e)
    case Ok(t) =>
      var ws := ContentWeights(def.bundle);
      match Draw(t.rest, Sum(ws))
      case Err(e) => Err(e)
      case Ok(d) =>
        match Walk(ws, d.value)
        case None => Ok(Batch(out, d.rest))
        case Some(k) => Ok(Batch(AddMergeItem(out, def.bundle[k].item, 1, t.tags), d.rest))
  }

  /** `count` units of a generator, one after the other. */
  function GenerateUnits(catalog: Catalog, def: ItemDef, tags: seq<KeyValuePair>, count: nat,
                         out: seq<TaggedBundleDef>, draws: seq<int>): Result<Batch, Panic>
    decreases count
  {
    if count == 0 then Ok(Batch(out, draws))
    else
      match GenerateUnit(catalog, def, tags, out, draws)
      case Err(e) => Err(e)
      case Ok(b) => GenerateUnits(catalog, def, tags, count - 1, b.items, b.rest)
  }

  /** Every content entry of a bundle, multiplied by the source quantity, with the source tags. */
  function AddBundle(contents: seq<BundleDef>, quantity: int, tags: seq<KeyValuePair>,
                     out: seq<TaggedBundleDef>): seq<TaggedBundleDef>
    decreases |contents|
  {
    if |contents| == 0 then out
    else AddBundle(contents[1..], quantity, tags,
                   AddMergeItem(out, contents[0].item, contents[0].quantity * quantity, tags))
  }

  /** The list being built, the draws left, and whether anything was expanded (`any`). */
  datatype RoundState = RoundState(items: seq<TaggedBundleDef>, rest: seq<int>, expanded: bool)

  /** What one entry of the current list contributes to the next one. */
  function Step(catalog: Catalog, e: TaggedBundleDef, out: seq<TaggedBundleDef>, draws: seq<int>): (r: Result<RoundState, Panic>)
    ensures e.item !in catalog ==> r == Err(MissingDef(e.item))
    ensures e.item in catalog && !IsTerminal(catalog[e.item].itemType)
      && !IsGenerator(catalog[e.item].itemType) && !IsBundle(catalog[e.item].itemType)
      ==> r == Err(UnhandledType(catalog[e.item].itemType))
    ensures r.Ok? ==> e.item in catalog && (r.value.expanded <==> !IsTerminal(catalog[e.item].itemType))
  {
    if e.item !in catalog then Err(MissingDef(e.item))
    else
      var def := catalog[e.item];
      if IsTerminal(def.itemType) then
        Ok(RoundState(AddMergeItem(out, e.item, e.quantity, e.tags), draws, false))
      else if IsGenerator(def.itemType) then
        match GenerateUnits(catalog, def, e.tags, if e.quantity > 0 then e.quantity else 0, out, draws)
        case Err(err) => Err(err)
        case Ok(b) => Ok(RoundState(b.items, b.rest, true))
      else if IsBundle(def.itemType) then
        Ok(RoundState(AddBundle(def.bundle, e.quantity, e.tags, out), draws, true))
      else Err(UnhandledType(def.itemType))
  }

  /** One pass over the current list, from the state `st` on. */
  function Round(catalog: Catalog, items: seq<TaggedBundleDef>, st: RoundState): Result<RoundState, Panic>
    decreases |items|
  {
    if |items| == 0 then Ok(st)
    else
      match Step(catalog, items[0], st.items, st.rest)
      case Err(e) => Err(e)
      case Ok(s) => Round(catalog, items[1..], RoundState(s.items, s.rest, st.expanded || s.expanded))
  }

  /**
    `generateItems`: rounds from an empty list until one expands nothing;
    the list that round built is the result.
   */
  function GenerateItems(catalog: Catalog, items: seq<TaggedBundleDef>, draws: seq<int>, rounds: nat): Result<Batch, Panic>
    decreases rounds
  {
    if rounds == 0 then Err(RoundLimit)
    else
      match Round(catalog, items, RoundState([], draws, false))
      case Err(e) => Err(e)
      case Ok(st) =>
        if st.expanded then GenerateItems(catalog, st.items, st.rest, rounds - 1)
        else Ok(Batch(st.items, st.rest))
  }
}
