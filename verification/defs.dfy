/**
  The item catalog's data (def.go): the record types behind the compact
  text fields, their `UnmarshalText` decoders, and the duplicate-id check
  that runs while definitions are collected into the catalog.
 */
module Defs {
  import opened Results
  import opened Decimal
  import opened Text

  /** A tag: `key:value`. */
  datatype KeyValuePair = KeyValuePair(key: string, value: string)

  /** One candidate of a tag generator: `value:weight`. */
  datatype ValueWeightPair = ValueWeightPair(value: string, weight: int)

  /** One content entry of a bundle or generator: `idxquantity`. */
  datatype BundleDef = BundleDef(item: int, quantity: int)

  /** The part of an item definition the expansion engine reads. */
  datatype ItemDef = ItemDef(
    id: int,
    itemType: string,
    bundle: seq<BundleDef>,
    tagGenerators: seq<int>,
    tagGeneratorName: string,
    tagGeneratorValues: seq<ValueWeightPair>)

  /** Why a text field does not decode. */
  datatype DecodeError =
    | ExpectedString(text: string)
    | ExpectedNumber(text: string)
    | InvalidNumber(text: string)
    | InvalidWeight(weight: int)
    | InvalidQuantity(quantity: int)
    | InvalidItemId(id: int)

  /** Item ids are positive and below one billion. */
  predicate ValidItemId(x: int) {
    0 < x < 1000000000
  }

  /** Whether the first `c` of `b` is its last character: true of the empty text too. */
  predicate FirstIsLast(b: string, c: char) {
    |b| == 0 || (b[|b| - 1] == c && c !in b[..|b| - 1])
  }

  lemma IndexOfIsLast(b: string, c: char)
    ensures IndexOf(b, c) == |b| - 1 <==> FirstIsLast(b, c)
  {
    if |b| > 0 && b[|b| - 1] == c && c !in b[..|b| - 1] {
      IndexOfConcat(b[..|b| - 1], c, []);
      assert b[..|b| - 1] + [c] + [] == b;
    }
  }

  // ---------------------------------------------------------------------
  // KeyValuePair

  /**
    `KeyValuePair.UnmarshalText`: split at the first ':'; no colon means an
    empty value; a colon in last place (and the empty text) is an error.
   */
  function DecodeKeyValuePair(b: string): (r: Result<KeyValuePair, DecodeError>)
    ensures r.Err? <==> FirstIsLast(b, ':')
    ensures r.Err? ==> r.error == ExpectedString(b)
    ensures r.Ok? && ':' !in b ==> r.value == KeyValuePair(b, "")
    ensures r.Ok? && ':' in b ==>
      && ':' !in r.value.key
      && r.value.value != []
      && b == r.value.key + [':'] + r.value.value
  {
    var i := IndexOf(b, ':');
    IndexOfIsLast(b, ':');
    if i == |b| - 1 then Err(ExpectedString(b))
    else if i == -1 then Ok(KeyValuePair(b, ""))
    else
      assert b == b[..i] + [':'] + b[i + 1..];
      Ok(KeyValuePair(b[..i], b[i + 1..]))
  }

  /** The text a tag is written as: the bare key when the value is empty. */
  function EncodeKeyValuePair(p: KeyValuePair): string {
    if p.value == [] then p.key else p.key + [':'] + p.value
  }

  /** A tag with a colon-free key that is not entirely empty decodes back from its text. */
  lemma KeyValuePairRoundTrip(p: KeyValuePair)
    requires ':' !in p.key
    requires p.key != [] || p.value != []
    ensures DecodeKeyValuePair(EncodeKeyValuePair(p)) == Ok(p)
  {
    if p.value != [] {
      IndexOfConcat(p.key, ':', p.value);
      var b := EncodeKeyValuePair(p);
      assert b[..|p.key|] == p.key;
      assert b[|p.key| + 1..] == p.value;
    }
  }

  // ---------------------------------------------------------------------
  // ValueWeightPair

  /**
    `ValueWeightPair.UnmarshalText`: no colon means weight 1; otherwise the
    text after the first colon must be an int32 greater than zero.
   */
  function DecodeValueWeightPair(b: string): (r: Result<ValueWeightPair, DecodeError>)
    ensures r.Ok? ==> 1 <= r.value.weight <= MaxInt32
    ensures FirstIsLast(b, ':') ==> r == Err(ExpectedNumber(b))
    ensures ':' !in b && b != [] ==> r == Ok(ValueWeightPair(b, 1))
    ensures r.Ok? && ':' in b ==>
      && ':' !in r.value.value
      && |r.value.value| < |b|
      && b[..|r.value.value|] == r.value.value
      && b[|r.value.value|] == ':'
      && ParseInt32(b[|r.value.value| + 1..]) == Some(r.value.weight)
    ensures ':' in b && !FirstIsLast(b, ':') ==>
      (r.Ok? <==> ParseInt32(b[IndexOf(b, ':') + 1..]).Some? && ParseInt32(b[IndexOf(b, ':') + 1..]).value > 0)
  {
    var i := IndexOf(b, ':');
    IndexOfIsLast(b, ':');
    if i == |b| - 1 then Err(ExpectedNumber(b))
    else if i == -1 then Ok(ValueWeightPair(b, 1))
    else
      match ParseInt32(b[i + 1..])
      case None => Err(InvalidNumber(b[i + 1..]))
      case Some(x) =>
        if x <= 0 then Err(InvalidWeight(x))
        else Ok(ValueWeightPair(b[..i], x))
  }

  /** The text of a weighted value, with the weight always written out. */
  function EncodeValueWeightPair(p: ValueWeightPair): string {
    p.value + [':'] + FormatInt(p.weight)
  }

  lemma ValueWeightPairRoundTrip(p: ValueWeightPair)
    requires ':' !in p.value
    requires 1 <= p.weight <= MaxInt32
    ensures DecodeValueWeightPair(EncodeValueWeightPair(p)) == Ok(p)
  {
    var b := EncodeValueWeightPair(p);
    IndexOfConcat(p.value, ':', FormatInt(p.weight));
    assert b[|p.value| + 1..] == FormatInt(p.weight);
    assert b[..|p.value|] == p.value;
    ParseFormatRoundTrip(p.weight);
  }

  // ---------------------------------------------------------------------
  // BundleDef

  /** The id check shared by bundle entries and id lists. */
  function DecodeItemId(b: string): (r: Result<int, DecodeError>)
    ensures r.Ok? <==> ParseInt32(b).Some? && ValidItemId(ParseInt32(b).value)
    ensures r.Ok? ==> r.value == ParseInt32(b).value
  {
    match ParseInt32(b)
    case None => Err(InvalidNumber(b))
    case Some(x) =>
      if x <= 0 || x >= 1000000000 then Err(InvalidItemId(x))
      else Ok(x)
  }

  /**
    `BundleDef.UnmarshalText`: the quantity follows the first 'x' and must be
    a positive int32 (1 when there is no 'x'); the id before it must be a
    valid item id. The quantity is checked first.
   */
  function DecodeBundleDef(b: string): (r: Result<BundleDef, DecodeError>)
    ensures r.Ok? ==> ValidItemId(r.value.item) && 1 <= r.value.quantity <= MaxInt32
    ensures 'x' !in b ==> (r.Ok? <==> ParseInt32(b).Some? && ValidItemId(ParseInt32(b).value))
    ensures r.Ok? && 'x' !in b ==> r.value == BundleDef(ParseInt32(b).value, 1)
    ensures r.Ok? && 'x' in b ==>
      && ParseInt32(b[..IndexOf(b, 'x')]) == Some(r.value.item)
      && ParseInt32(b[IndexOf(b, 'x') + 1..]) == Some(r.value.quantity)
    ensures 'x' in b ==> (r.Ok? <==>
      && ParseInt32(b[IndexOf(b, 'x') + 1..]).Some? && ParseInt32(b[IndexOf(b, 'x') + 1..]).value > 0
      && DecodeItemId(b[..IndexOf(b, 'x')]).Ok?)
    ensures 'x' in b && ParseInt32(b[IndexOf(b, 'x') + 1..]).None? ==> r == Err(InvalidNumber(b[IndexOf(b, 'x') + 1..]))
  {
    var i := IndexOf(b, 'x');
    var quantity: Result<int, DecodeError> :=
      if i == -1 then Ok(1)
      else match ParseInt32(b[i + 1..])
        case None => Err(InvalidNumber(b[i + 1..]))
        case Some(x) => if x <= 0 then Err(InvalidQuantity(x)) else Ok(x);
    if quantity.Err? then Err(quantity.error)
    else
      var idText := if i == -1 then b else b[..i];
      match DecodeItemId(idText)
      case Err(e) => Err(e)
      case Ok(id) => Ok(BundleDef(id, quantity.value))
  }

  /** The text of a bundle entry, with the quantity always written out. */
  function EncodeBundleDef(d: BundleDef): string {
    FormatInt(d.item) + ['x'] + FormatInt(d.quantity)
  }

  lemma BundleDefRoundTrip(d: BundleDef)
    requires ValidItemId(d.item) && 1 <= d.quantity <= MaxInt32
    ensures DecodeBundleDef(EncodeBundleDef(d)) == Ok(d)
  {
    var b := EncodeBundleDef(d);
    FormatIntAvoids(d.item, 'x');
    IndexOfConcat(FormatInt(d.item), 'x', FormatInt(d.quantity));
    assert b[..|FormatInt(d.item)|] == FormatInt(d.item);
    assert b[|FormatInt(d.item)| + 1..] == FormatInt(d.quantity);
    ParseFormatRoundTrip(d.item);
    ParseFormatRoundTrip(d.quantity);
  }

  /** A bare id is a bundle entry of quantity one. */
  lemma BundleDefBareId(id: int)
    requires ValidItemId(id)
    ensures DecodeBundleDef(FormatInt(id)) == Ok(BundleDef(id, 1))
  {
    FormatIntAvoids(id, 'x');
    ParseFormatRoundTrip(id);
  }

  // ---------------------------------------------------------------------
  // The ';'-separated lists

  /**
    Decodes every piece in order and stops at the first failure, which
    becomes the failure of the whole list.
   */
  function DecodeAll<T>(pieces: seq<string>, decode: string -> Result<T, DecodeError>): (r: Result<seq<T>, DecodeError>)
    ensures r.Ok? <==> forall k :: 0 <= k < |pieces| ==> decode(pieces[k]).Ok?
    ensures r.Ok? ==> |r.value| == |pieces| && forall k :: 0 <= k < |pieces| ==> decode(pieces[k]) == Ok(r.value[k])
    ensures r.Err? ==> exists k :: (0 <= k < |pieces| && decode(pieces[k]) == Err(r.error)
      && forall j :: 0 <= j < k ==> decode(pieces[j]).Ok?)
  {
    if |pieces| == 0 then Ok([])
    else
      match decode(pieces[0])
      case Err(e) => Err(e)
      case Ok(x) =>
        match DecodeAll(pieces[1..], decode)
        case Err(e) =>
          ghost var k :| 0 <= k < |pieces[1..]| && decode(pieces[1..][k]) == Err(e)
            && forall j :: 0 <= j < k ==> decode(pieces[1..][j]).Ok?;
          assert decode(pieces[k + 1]) == Err(e);
          Err(e)
        case Ok(xs) =>
          assert forall k :: 1 <= k < |pieces| ==> decode(pieces[k]) == Ok(xs[k - 1]);
          Ok([x] + xs)
  }

  /** Pieces that each decode to the matching element decode, as a list, to exactly those elements. */
  lemma DecodeAllOk<T>(pieces: seq<string>, decode: string -> Result<T, DecodeError>, xs: seq<T>)
    requires |xs| == |pieces|
    requires forall k :: 0 <= k < |pieces| ==> decode(pieces[k]) == Ok(xs[k])
    ensures DecodeAll(pieces, decode) == Ok(xs)
  {
    var r := DecodeAll(pieces, decode);
    assert r.Ok?;
    assert r.value == xs;
  }

  /** One piece that does not decode makes the whole list fail. */
  lemma DecodeAllFails<T>(pieces: seq<string>, decode: string -> Result<T, DecodeError>, k: int)
    requires 0 <= k < |pieces| && decode(pieces[k]).Err?
    ensures DecodeAll(pieces, decode).Err?
  {
  }

  /** A list ending in ';' fails whenever the empty piece does not decode: it is the last piece. */
  lemma DecodeAllTrailingSeparator<T>(b: string, decode: string -> Result<T, DecodeError>)
    requires |b| > 0 && b[|b| - 1] == ';' && decode([]).Err?
    ensures DecodeAll(Split(b, ';'), decode).Err?
  {
    SplitTrailingSeparator(b, ';');
    DecodeAllFails(Split(b, ';'), decode, Count(b, ';'));
  }

  /** `KeyValuePairs.UnmarshalText`: a list of tags; it succeeds exactly when every piece decodes. */
  function DecodeKeyValuePairs(b: string): (r: Result<seq<KeyValuePair>, DecodeError>)
    ensures (forall k :: 0 <= k < |Split(b, ';')| ==> DecodeKeyValuePair(Split(b, ';')[k]).Ok?) ==> r.Ok?
    ensures r.Ok? ==> |r.value| == Count(b, ';') + 1
    ensures r.Ok? ==> forall k :: 0 <= k < |r.value| ==> DecodeKeyValuePair(Split(b, ';')[k]) == Ok(r.value[k])
  {
    DecodeAll(Split(b, ';'), DecodeKeyValuePair)
  }

  /** `ValueWeightPairs.UnmarshalText`: weighted values, every weight positive; it succeeds exactly when every piece decodes. */
  function DecodeValueWeightPairs(b: string): (r: Result<seq<ValueWeightPair>, DecodeError>)
    ensures (forall k :: 0 <= k < |Split(b, ';')| ==> DecodeValueWeightPair(Split(b, ';')[k]).Ok?) ==> r.Ok?
    ensures r.Ok? ==> |r.value| == Count(b, ';') + 1
    ensures r.Ok? ==> forall k :: 0 <= k < |r.value| ==> r.value[k].weight >= 1
    ensures r.Ok? ==> forall k :: 0 <= k < |r.value| ==> DecodeValueWeightPair(Split(b, ';')[k]) == Ok(r.value[k])
  {
    DecodeAll(Split(b, ';'), DecodeValueWeightPair)
  }

  /** `BundleDefs.UnmarshalText`: content entries, every quantity positive; it succeeds exactly when every piece decodes. */
  function DecodeBundleDefs(b: string): (r: Result<seq<BundleDef>, DecodeError>)
    ensures (forall k :: 0 <= k < |Split(b, ';')| ==> DecodeBundleDef(Split(b, ';')[k]).Ok?) ==> r.Ok?
    ensures r.Ok? ==> |r.value| == Count(b, ';') + 1
    ensures r.Ok? ==> forall k :: 0 <= k < |r.value| ==>
      ValidItemId(r.value[k].item) && r.value[k].quantity >= 1
    ensures r.Ok? ==> forall k :: 0 <= k < |r.value| ==> DecodeBundleDef(Split(b, ';')[k]) == Ok(r.value[k])
  {
    DecodeAll(Split(b, ';'), DecodeBundleDef)
  }

  /** `IDList.UnmarshalText`: it succeeds exactly when every piece parses to a valid item id. */
  function DecodeIdList(b: string): (r: Result<seq<int>, DecodeError>)
    ensures (forall k :: 0 <= k < |Split(b, ';')| ==>
      ParseInt32(Split(b, ';')[k]).Some? && ValidItemId(ParseInt32(Split(b, ';')[k]).value)) ==> r.Ok?
    ensures r.Ok? ==> |r.value| == Count(b, ';') + 1
    ensures r.Ok? ==> forall k :: 0 <= k < |r.value| ==>
      ValidItemId(r.value[k]) && ParseInt32(Split(b, ';')[k]) == Some(r.value[k])
  {
    DecodeAll(Split(b, ';'), DecodeItemId)
  }

  /** `StringList.UnmarshalText`: the empty text is the empty list; otherwise a plain split. */
  function DecodeStringList(b: string): (r: seq<string>)
    ensures r == [] <==> b == []
    ensures b != [] ==> |r| == Count(b, ';') + 1
    ensures forall k :: 0 <= k < |r| ==> ';' !in r[k]
    ensures Join(r, ';') == b
  {
    if |b| == 0 then [] else Split(b, ';')
  }

  /** A tag list ending in ';' is rejected: its last piece is empty. */
  lemma KeyValuePairsTrailingSeparator(b: string)
    requires |b| > 0 && b[|b| - 1] == ';'
    ensures DecodeKeyValuePairs(b).Err?
  {
    assert FirstIsLast([], ':');
    DecodeAllTrailingSeparator(b, DecodeKeyValuePair);
  }

  /** A weighted-value list ending in ';' is rejected for the same reason. */
  lemma ValueWeightPairsTrailingSeparator(b: string)
    requires |b| > 0 && b[|b| - 1] == ';'
    ensures DecodeValueWeightPairs(b).Err?
  {
    assert FirstIsLast([], ':');
    DecodeAllTrailingSeparator(b, DecodeValueWeightPair);
  }

  /** The empty text is not a tag list, a weighted-value list, a bundle list or an id list. */
  lemma EmptyListsRejected()
    ensures DecodeKeyValuePairs("").Err?
    ensures DecodeValueWeightPairs("").Err?
    ensures DecodeBundleDefs("").Err?
    ensures DecodeIdList("").Err?
    ensures DecodeStringList("") == []
  {
    assert Split("", ';') == [""];
  }

  /** The text of a tag list. */
  function EncodeKeyValuePairs(ps: seq<KeyValuePair>): string {
    Join(seq(|ps|, k requires 0 <= k < |ps| => EncodeKeyValuePair(ps[k])), ';')
  }

  /** A non-empty list of tags free of ':' in keys and ';' anywhere decodes back from its text. */
  lemma KeyValuePairsRoundTrip(ps: seq<KeyValuePair>)
    requires |ps| > 0
    requires forall k :: 0 <= k < |ps| ==>
      ':' !in ps[k].key && ';' !in ps[k].key && ';' !in ps[k].value && (ps[k].key != [] || ps[k].value != [])
    ensures DecodeKeyValuePairs(EncodeKeyValuePairs(ps)) == Ok(ps)
  {
    var texts := seq(|ps|, k requires 0 <= k < |ps| => EncodeKeyValuePair(ps[k]));
    forall k | 0 <= k < |ps|
      ensures ';' !in texts[k]
      ensures DecodeKeyValuePair(texts[k]) == Ok(ps[k])
    {
      KeyValuePairRoundTrip(ps[k]);
    }
    SplitJoin(texts, ';');
    DecodeAllOk(texts, DecodeKeyValuePair, ps);
  }

  /** The text of a weighted-value list. */
  function EncodeValueWeightPairs(ps: seq<ValueWeightPair>): string {
    Join(seq(|ps|, k requires 0 <= k < |ps| => EncodeValueWeightPair(ps[k])), ';')
  }

  /** A non-empty list of separator-free values with positive int32 weights decodes back from its text. */
  lemma ValueWeightPairsRoundTrip(ps: seq<ValueWeightPair>)
    requires |ps| > 0
    requires forall k :: 0 <= k < |ps| ==>
      ':' !in ps[k].value && ';' !in ps[k].value && 1 <= ps[k].weight <= MaxInt32
    ensures DecodeValueWeightPairs(EncodeValueWeightPairs(ps)) == Ok(ps)
  {
    var texts := seq(|ps|, k requires 0 <= k < |ps| => EncodeValueWeightPair(ps[k]));
    forall k | 0 <= k < |ps|
      ensures ';' !in texts[k]
      ensures DecodeValueWeightPair(texts[k]) == Ok(ps[k])
    {
      FormatIntAvoids(ps[k].weight, ';');
      ValueWeightPairRoundTrip(ps[k]);
    }
    SplitJoin(texts, ';');
    DecodeAllOk(texts, DecodeValueWeightPair, ps);
  }

  /** The text of an id list. */
  function EncodeIdList(ids: seq<int>): string {
    Join(seq(|ids|, k requires 0 <= k < |ids| => FormatInt(ids[k])), ';')
  }

  lemma IdListRoundTrip(ids: seq<int>)
    requires |ids| > 0
    requires forall k :: 0 <= k < |ids| ==> ValidItemId(ids[k])
    ensures DecodeIdList(EncodeIdList(ids)) == Ok(ids)
  {
    var texts := seq(|ids|, k requires 0 <= k < |ids| => FormatInt(ids[k]));
    forall k | 0 <= k < |ids|
      ensures ';' !in texts[k]
      ensures DecodeItemId(texts[k]) == Ok(ids[k])
    {
      FormatIntAvoids(ids[k], ';');
      ParseFormatRoundTrip(ids[k]);
    }
    SplitJoin(texts, ';');
    DecodeAllOk(texts, DecodeItemId, ids);
  }

  /** The text of a bundle list. */
  function EncodeBundleDefs(ds: seq<BundleDef>): string {
    Join(seq(|ds|, k requires 0 <= k < |ds| => EncodeBundleDef(ds[k])), ';')
  }

  lemma BundleDefsRoundTrip(ds: seq<BundleDef>)
    requires |ds| > 0
    requires forall k :: 0 <= k < |ds| ==> ValidItemId(ds[k].item) && 1 <= ds[k].quantity <= MaxInt32
    ensures DecodeBundleDefs(EncodeBundleDefs(ds)) == Ok(ds)
  {
    var texts := seq(|ds|, k requires 0 <= k < |ds| => EncodeBundleDef(ds[k]));
    forall k | 0 <= k < |ds|
      ensures ';' !in texts[k]
      ensures DecodeBundleDef(texts[k]) == Ok(ds[k])
    {
      FormatIntAvoids(ds[k].item, ';');
      FormatIntAvoids(ds[k].quantity, ';');
      BundleDefRoundTrip(ds[k]);
    }
    SplitJoin(texts, ';');
    DecodeAllOk(texts, DecodeBundleDef, ds);
  }

  /**
    The list decoders also take short forms that no encoder writes. Values
    without a weight each count once.
   */
  lemma ValueWeightPairsUnweighted(vs: seq<string>)
    requires |vs| > 0
    requires forall k :: 0 <= k < |vs| ==> vs[k] != [] && ':' !in vs[k] && ';' !in vs[k]
    ensures DecodeValueWeightPairs(Join(vs, ';'))
      == Ok(seq(|vs|, k requires 0 <= k < |vs| => ValueWeightPair(vs[k], 1)))
  {
    SplitJoin(vs, ';');
    DecodeAllOk(vs, DecodeValueWeightPair, seq(|vs|, k requires 0 <= k < |vs| => ValueWeightPair(vs[k], 1)));
  }

  /** Ids written with an explicit '+' decode as an id list. */
  lemma IdListSigned(ids: seq<nat>)
    requires |ids| > 0
    requires forall k :: 0 <= k < |ids| ==> ValidItemId(ids[k])
    ensures DecodeIdList(Join(seq(|ids|, k requires 0 <= k < |ids| => "+" + FormatNat(ids[k])), ';')) == Ok(ids)
  {
    var texts := seq(|ids|, k requires 0 <= k < |ids| => "+" + FormatNat(ids[k]));
    forall k | 0 <= k < |ids|
      ensures ';' !in texts[k]
      ensures DecodeItemId(texts[k]) == Ok(ids[k])
    {
      FormatIntAvoids(ids[k], ';');
      ParseInt32Signed(ids[k]);
    }
    SplitJoin(texts, ';');
    DecodeAllOk(texts, DecodeItemId, ids);
  }

  /** Bare ids, without an 'x' and a quantity, decode as bundle entries of quantity one. */
  lemma BundleDefsBareIds(ids: seq<int>)
    requires |ids| > 0
    requires forall k :: 0 <= k < |ids| ==> ValidItemId(ids[k])
    ensures DecodeBundleDefs(EncodeIdList(ids))
      == Ok(seq(|ids|, k requires 0 <= k < |ids| => BundleDef(ids[k], 1)))
  {
    var texts := seq(|ids|, k requires 0 <= k < |ids| => FormatInt(ids[k]));
    forall k | 0 <= k < |ids|
      ensures ';' !in texts[k]
      ensures DecodeBundleDef(texts[k]) == Ok(BundleDef(ids[k], 1))
    {
      FormatIntAvoids(ids[k], ';');
      BundleDefBareId(ids[k]);
    }
    SplitJoin(texts, ';');
    DecodeAllOk(texts, DecodeBundleDef, seq(|ids|, k requires 0 <= k < |ids| => BundleDef(ids[k], 1)));
  }

  // ---------------------------------------------------------------------
  // Collecting definitions into the catalog

  /**
    `items[k]` is the first definition whose id is already taken, by an old
    entry or by an earlier definition of the list: every definition before it
    goes in without a clash.
   */
  predicate FirstDuplicateAt(defs: map<int, ItemDef>, items: seq<ItemDef>, k: int) {
    && 0 <= k < |items|
    && (items[k].id in defs || exists j :: 0 <= j < k && items[j].id == items[k].id)
    && forall j :: 0 <= j < k ==>
         items[j].id !in defs && forall i :: 0 <= i < j ==> items[i].id != items[j].id
  }

  /** The first clash after inserting the head is the next one of the whole list. */
  lemma FirstDuplicateShift(defs: map<int, ItemDef>, items: seq<ItemDef>, k: int)
    requires |items| > 0 && items[0].id !in defs
    requires FirstDuplicateAt(defs[items[0].id := items[0]], items[1..], k)
    ensures FirstDuplicateAt(defs, items, k + 1)
  {
    assert forall j :: 1 <= j < |items| ==> items[j] == items[1..][j - 1];
    var d := items[k + 1].id;
    if d !in defs && d == items[0].id {
      assert items[0].id == d;
    } else if d !in defs {
      var j :| 0 <= j < k && items[1..][j].id == d;
      assert items[j + 1].id == d;
    }
  }

  /**
    The insertion loop of `loadItemDefsFromFile`: each definition goes in
    under its id, and the first id already present is an error.
   */
  function InsertDefs(defs: map<int, ItemDef>, items: seq<ItemDef>): (r: Result<map<int, ItemDef>, int>)
    ensures r.Ok? <==>
      (forall k :: 0 <= k < |items| ==> items[k].id !in defs) &&
      (forall j, k :: 0 <= j < k < |items| ==> items[j].id != items[k].id)
    ensures r.Ok? ==> r.value.Keys == defs.Keys + set k | 0 <= k < |items| :: items[k].id
    ensures r.Ok? ==> forall k :: 0 <= k < |items| ==> r.value[items[k].id] == items[k]
    ensures r.Ok? ==> forall id :: id in defs ==> r.value[id] == defs[id]
    ensures r.Err? ==> exists k :: FirstDuplicateAt(defs, items, k) && items[k].id == r.error
    decreases |items|
  {
    if |items| == 0 then Ok(defs)
    else if items[0].id in defs then
      assert FirstDuplicateAt(defs, items, 0);
      Err(items[0].id)
    else
      var r := InsertDefs(defs[items[0].id := items[0]], items[1..]);
      assert forall k :: 1 <= k < |items| ==> items[k] == items[1..][k - 1];
      if r.Err? then
        ghost var k :| FirstDuplicateAt(defs[items[0].id := items[0]], items[1..], k) && items[1..][k].id == r.error;
        FirstDuplicateShift(defs, items, k);
        r
      else
        assert (set k | 0 <= k < |items| :: items[k].id) == {items[0].id} + set k | 0 <= k < |items[1..]| :: items[1..][k].id;
        r
  }
}
