# Toy Steam inventory: drop-table expansion and catalog text decoders

This project models, in Dafny, the core of a small Go program that simulates
Steam inventory drops. The program has two pieces with real logic, and the
model covers both.

**The expansion engine (`generateItems` in generator.go).**
- It rewrites a working list of `(item id, quantity, tags)` entries in rounds.
- `item` and `tag_tool` entries are copied through.
- A `bundle` entry is replaced by every content entry, multiplied by the entry's quantity.
- A `generator` or `playtimegenerator` entry is replaced one unit at a time. Each unit first gets one weighted-random tag per tag generator, then one weighted-random content pick.
- Any other type aborts the run.
- The engine stops after a round in which nothing was expanded.
- Every insertion goes through `addMergeItem`. It merges the new units into the first entry with the same item and the same tag-set, as decided by `sameTags`, which compares sorted copies. Otherwise it appends a new entry.

**The compact text decoders of the catalog (def.go).** These are the `UnmarshalText` methods:
- `KeyValuePair` (`key:value`) and `KeyValuePairs`;
- `ValueWeightPair` (`value:weight`) and `ValueWeightPairs`;
- `BundleDef` (`idxqty`) and `BundleDefs`;
- `IDList` and `StringList`;
- the duplicate-id check that inserts decoded definitions into the catalog.

Modules, one per file:

- `Results`: `Option` and `Result`.
- `Decimal`: `strconv.ParseInt(s, 10, 32)` and the decimal rendering it inverts.
- `Text`: `bytes.IndexByte`, `bytes.Split` / `strings.Split`, and their inverse `Join`.
- `Defs`: the catalog datatypes, every decoder, encoders that serve as round-trip partners, and `InsertDefs`.
- `Tags`: the comparator of `sameTags`, sorting, and `SameTags`.
- `Merge`: `TaggedBundleDef`, `addMergeItem`, and the unit bookkeeping (`Total`, `QuantityOf`) used to state what it preserves.
- `Pick`: the subtract-until-negative weighted walk and the prefix-sum interval it selects.
- `Generator`: the engine as pure functions (`Step`, `Round`, `GenerateItems`).
- `GeneratorLemmas`: what the engine guarantees.
- `DecodedCatalog`: a catalog decoded from text meets the engine's precondition on weights.

Modelling choices:

- **Randomness.** The global `rng` becomes an explicit sequence of draws. Each `rng.Int63n(n)` takes the next draw, which must lie in `[0, n)`.
  - `n <= 0` is the panic `Int63n` raises (`InvalidBound`).
  - Running out of draws (`DrawsExhausted`) and a draw outside `[0, n)` (`DrawOutOfRange`) are errors of the model, not of the program.
- **Missing definitions.** Looking up an id with no definition makes Go dereference nil. Here it is the error `MissingDef`.
- **The round loop.** The unbounded `for any` loop gets a budget of rounds. When the budget runs out, the run ends with `RoundLimit`.
- **Text.** Strings and byte slices are both `string`, a sequence of characters. Positions in it are not byte offsets for non-ASCII text: in `é:v` the ':' is byte 2 but character 1. The cut is still the same. All separators (`:`, `;`, `x`) are ASCII, and no byte of a multi-byte UTF-8 character equals an ASCII byte. So the text before and after a separator is the same whether it is cut by bytes or by characters.

## Model

| member | source | states |
|---|---|---|
| `Decimal.ParseInt32` | def.go:293-296 | A parse succeeds exactly when the text is an optional '+'/'-' followed by one or more digits, and the signed value lies in the int32 range. The value is then the digits' value, negated after '-'. Leading zeros are allowed. |
| `Decimal.FormatNat` | def.go:293 | The canonical decimal encoder that serves as the round-trip partner of the `strconv.ParseInt` call. It is not a function of the program. Its output is a non-empty run of digits with no leading zero, whose digits' value is the number itself. |
| `Decimal.ParseInt32Examples` | def.go:293 | `+007` parses as 7 and `-0` as 0, while a lone `+` is rejected. |
| `Decimal.ParseInt32Signed` | def.go:293 | Every magnitude up to `2^31-1` parses after an explicit '+', and every magnitude up to `2^31` parses after '-'. So `-2147483648` is accepted. `2^31` and larger, written without a sign, are rejected. |
| `Decimal.ParseFormatRoundTrip` | def.go:293-302 | Every int32 value, rendered in decimal and parsed again, comes back unchanged. |
| `Decimal.FormatIntAvoids` | def.go:275 | A rendered integer never contains a separator character such as 'x', ':' or ';'. So the decoders' separator search never lands inside a number. |
| `Text.IndexOf` | def.go:188 | `bytes.IndexByte`: -1 exactly when the byte is absent. Otherwise it is the position of the first occurrence. |
| `Text.IndexOfConcat` | def.go:188 | In `a + [c] + b` with `c` not in `a`, the first `c` is at `|a|`. |
| `Text.Split` | def.go:205 | `bytes.Split` on a one-byte separator gives one piece more than there are separators. No piece contains the separator, and joining the pieces gives back the input. |
| `Text.SplitJoin` | def.go:205 | Splitting the join of separator-free pieces gives back exactly those pieces. |
| `Text.SplitTrailingSeparator` | def.go:205 | Text ending in the separator splits into pieces whose last one is empty. |
| `Defs.IndexOfIsLast` | def.go:188-189 | The rejection test `IndexByte(b, ':') == len(b)-1` holds exactly when the input is empty or its only ':' is its last byte. |
| `Defs.DecodeKeyValuePair` | def.go:187-200 | It is an error exactly when the first ':' is the last byte, or the input is empty. Without ':' the result is `(whole, "")`. With ':', the key is the text before the first ':' (and has no ':'), and the non-empty value is everything after it. |
| `Defs.KeyValuePairRoundTrip` | def.go:187-200 | A key without ':' and any value (not both empty) survive encoding as `key:value` (or bare `key`) and decoding. |
| `Defs.DecodeValueWeightPair` | def.go:224-250 | Every successful parse has a weight in `[1, 2^31-1]`. An empty input or a trailing first ':' is rejected. Without ':' the weight is 1 and the value is the whole input. With ':' (not last), decoding succeeds exactly when the text after the first ':' parses as a positive int32. The weight is then that number and the value is the text before the ':'. |
| `Defs.ValueWeightPairRoundTrip` | def.go:224-250 | A value without ':' and a positive int32 weight survive `value:weight` and decoding. |
| `Defs.DecodeItemId` | def.go:293-302 | An id decodes exactly when the text parses as an int32 `x` with `0 < x < 1000000000`, and the result is that value. |
| `Defs.DecodeBundleDef` | def.go:274-305 | Every success has a valid id and a quantity in `[1, 2^31-1]`. Without 'x' the quantity is 1 and the whole text is the id. With 'x', decoding succeeds exactly when the text after the first 'x' parses as a positive int32 and the text before it is a valid id. The quantity and the id are those two numbers. A quantity that does not parse is the error reported, because the quantity is checked first. |
| `Defs.BundleDefRoundTrip` | def.go:274-305 | For a valid id and `0 < q <= 2^31-1`, decoding `dec(id) + "x" + dec(q)` gives `(id, q)`. |
| `Defs.BundleDefBareId` | def.go:276-277 | A bare decimal id decodes with quantity 1. |
| `Defs.DecodeAll` | def.go:209-214 | A list succeeds exactly when every piece decodes. The elements are then the pieces' decodings in order, and a failure reports the first failing piece's error. |
| `Defs.DecodeKeyValuePairs` | def.go:204-217 | The list decodes exactly when every ';'-separated segment decodes. A success has exactly (number of ';') + 1 elements, and element `k` is the decoding of the `k`-th segment. |
| `Defs.DecodeValueWeightPairs` | def.go:254-267 | As for key/value lists: the list decodes exactly when every segment does, including a bare value without ':'. Every weight is at least 1. |
| `Defs.DecodeBundleDefs` | def.go:309-322 | The list decodes exactly when every segment decodes, including a bare id without 'x'. A success has (number of ';') + 1 elements, each with a valid id and a positive quantity, each the decoding of its segment. |
| `Defs.DecodeIdList` | def.go:326-345 | The list decodes exactly when every segment parses as an int32 in `(0, 1000000000)`, with or without a sign. A success has (number of ';') + 1 elements, each the parse of its segment. |
| `Defs.DecodeStringList` | def.go:349-359 | The empty input, and only it, gives the empty list. Otherwise the result is a plain split, with no per-element check: (number of ';') + 1 separator-free pieces whose join is the input. |
| `Defs.KeyValuePairsTrailingSeparator` | def.go:204-217 | A key/value list ending in ';' is rejected, because its last segment is empty. |
| `Defs.ValueWeightPairsTrailingSeparator` | def.go:254-267 | A value/weight list ending in ';' is rejected. |
| `Defs.EmptyListsRejected` | def.go:188-191 | The empty text is rejected by the key/value, value/weight and bundle lists, unlike `StringList`. |
| `Defs.KeyValuePairsRoundTrip` | def.go:204-217 | A non-empty list of pairs free of separators survives joining with ';' and decoding. |
| `Defs.ValueWeightPairsRoundTrip` | def.go:254-267 | A non-empty list of separator-free values with weights in `[1, 2^31-1]` survives `value:weight;...` and decoding. |
| `Defs.IdListRoundTrip` | def.go:326-345 | A non-empty list of valid ids survives decimal rendering, joining with ';' and decoding. |
| `Defs.BundleDefsRoundTrip` | def.go:309-322 | A non-empty list of valid bundle entries survives `idxqty;...` and decoding. |
| `Defs.ValueWeightPairsUnweighted` | def.go:230-231 | Values without ':' decode in a list, each with weight 1. No encoder writes this form. |
| `Defs.IdListSigned` | def.go:326-336 | Ids written with an explicit '+' decode in an id list, to the ids themselves. |
| `Defs.BundleDefsBareIds` | def.go:276-277 | Bare ids without 'x' decode in a bundle list, each with quantity 1. |
| `Defs.InsertDefs` | def.go:55-61 | Insertion succeeds exactly when no id is already present and the list's ids are distinct. On success every item is mapped by its id and every old entry is kept. On failure the reported id is that of the first definition, in list order, whose id was already present or appeared earlier in the list. Every definition before it has a fresh id. |
| `Tags.StrLessIrreflexive` | generator.go:116-119 | Go's string `<` is irreflexive. |
| `Tags.StrLessTransitive` | generator.go:116-119 | Go's string `<` is transitive. |
| `Tags.StrLessTotal` | generator.go:116-119 | Of two different strings, one is `<` the other. |
| `Tags.StrLess` | generator.go:116-119 | Go's bytewise string `<`. It is a strict total order: see `Tags.StrLessIrreflexive`, `Tags.StrLessTransitive` and `Tags.StrLessTotal`. |
| `Tags.TagLessTransitive` | generator.go:114-120 | The `sameTags` comparator (key, then value) is transitive. |
| `Tags.TagLessTotal` | generator.go:114-120 | The comparator orders any two different tags. |
| `Tags.TagLess` | generator.go:114-127 | The `sort.Slice` comparator of `sameTags`: key first, then value. It is a strict total order: see `Tags.TagLessTransitive` and `Tags.TagLessTotal`. |
| `Tags.InsertSorted` | generator.go:114-120 | Inserting into a sorted list keeps it sorted. |
| `Tags.SortTags` | generator.go:112-127 | The sorted copy holds exactly the tags of the original. |
| `Tags.SortTagsSorted` | generator.go:112-127 | The sorted copy is ordered by the comparator. |
| `Tags.SortedUnique` | generator.go:114-127 | Two sorted lists holding the same tags are equal. So the verdict does not depend on which sorting algorithm is used. |
| `Tags.SortedCopiesAgree` | generator.go:112-133 | Sorted copies are equal exactly when the lists hold the same tags with the same multiplicities. |
| `Tags.SameTags` | generator.go:106-135 | `sameTags` is true exactly when both lists hold the same (key, value) pairs with the same multiplicities, in any order. In particular it is false when the lengths differ. |
| `Tags.SameTagsEquivalence` | generator.go:106-135 | `sameTags` is reflexive, symmetric and transitive. |
| `Merge.FirstMatch` | generator.go:91-97 | The scan returns -1 exactly when no entry matches. Otherwise it returns the first matching entry. |
| `Merge.AddMergeItem` | generator.go:90-104 | `addMergeItem`. With a match, only the first match grows, by `quantity` (`Merge.AddMergeIntoFirstMatch`). Without one, a new entry is appended (`Merge.AddMergeAppends`). It keeps keys distinct, raises the total by `quantity`, and changes only the key `(id, tags)` (`Merge.AddMergeTotal`, `Merge.AddMergeQuantity`). |
| `Merge.AddMergeIntoFirstMatch` | generator.go:91-96 | With a match, only the first matching entry changes: its quantity grows by `quantity`. The length and every other entry stay the same. |
| `Merge.AddMergeAppends` | generator.go:99-103 | Without a match, the result is the old list with `(id, quantity, tags)` appended. |
| `Merge.AddMergeNoDuplicates` | generator.go:90-104 | Merging keeps the list free of two entries with the same item and tag-set. |
| `Merge.AddMergeTotal` | generator.go:90-104 | Merging raises the list's total quantity by exactly `quantity`. |
| `Merge.AddMergeQuantity` | generator.go:90-104 | Counted per (item, tag-set) key, merging adds `quantity` units to the key `(id, tags)` and changes no other key. |
| `Merge.AddMergeItems` | generator.go:90-104 | Every item of the merged list was already in the list or is `id`. |
| `Pick.Walk` | generator.go:52-61 | The walk returns the first index whose prefix sum exceeds the draw. It returns nothing when no prefix sum does. |
| `Pick.PrefixMonotone` | generator.go:44-48 | With non-negative weights, prefix sums do not decrease. |
| `Pick.WalkChoosesOwner` | generator.go:44-61 | With non-negative weights and `0 <= r < sum`, the walk picks index `i` exactly when `prefix(i) <= r < prefix(i+1)`. |
| `Pick.WalkChooses` | generator.go:64-71 | With non-negative weights and `0 <= r < sum`, the walk always picks something. |
| `Pick.ZeroWeightNeverChosen` | generator.go:64-71 | A zero-weight option is never picked. |
| `Generator.Draw` | generator.go:50 | `rng.Int63n(n)` succeeds exactly when `n > 0` and the next draw lies in `[0, n)`. It then takes that one draw. `n <= 0` is the `Int63n` panic. |
| `Generator.PickTag` | generator.go:43-61 | One tag generator's weighted pick. It takes one draw and appends the tag keyed by the generator's name whose value that draw selects (`GeneratorLemmas.PickTagAppends`). |
| `Generator.PickTags` | generator.go:42-62 | The tag generators of a unit, in list order. Each takes one draw and appends one tag (`GeneratorLemmas.PickTagsLength`). The `k`-th tag is drawn by the `k`-th generator with the `k`-th draw (`GeneratorLemmas.PickTagsDrawn`). |
| `Generator.GenerateUnit` | generator.go:40-71 | One generator unit: its tags, then one content pick (`GeneratorLemmas.GenerateUnitShape`). It takes `len(TagGenerators) + 1` draws and adds one unit of a content (`GeneratorLemmas.GenerateUnitAddsOne`, `GeneratorLemmas.GenerateUnitWithin`). |
| `Generator.GenerateUnits` | generator.go:39-72 | `q` units, one after the other. Together they take `q * (len(TagGenerators) + 1)` draws and add `q` units of the generator's contents (`GeneratorLemmas.GenerateUnitsDraws`, `GeneratorLemmas.GenerateUnitsTotal`, `GeneratorLemmas.GenerateUnitsWithin`). |
| `Generator.AddBundle` | generator.go:76-78 | Every content entry of a bundle, multiplied by the source quantity and carrying the source tags. Each key `(id, tags)` gains `q` times the content quantity of `id` (`GeneratorLemmas.AddBundleQuantity`). Only contents are added (`GeneratorLemmas.AddBundleShape`). |
| `Generator.Step` | generator.go:27-81 | An entry without a definition and an entry of any type other than `item`, `tag_tool`, `generator`, `playtimegenerator` or `bundle` abort the run. A step that succeeds counts as an expansion exactly when the type is not terminal. |
| `Generator.Round` | generator.go:26-82 | One pass over the working list. It expands exactly when some entry is not terminal (`GeneratorLemmas.RoundExpanded`). It keeps keys distinct (`GeneratorLemmas.RoundNoDuplicates`), and copies terminal entries with their unit counts (`GeneratorLemmas.RoundTerminals`). |
| `Generator.GenerateItems` | generator.go:18-88 | `generateItems`: rounds until one expands nothing. The result holds only terminal entries with distinct keys (`GeneratorLemmas.GenerateItemsTerminal`, `GeneratorLemmas.GenerateItemsNoDuplicates`). A terminal list is a fixed point (`GeneratorLemmas.GenerateItemsFixedPoint`). A larger round budget does not change a finished result (`GeneratorLemmas.GenerateItemsMoreRounds`). |
| `GeneratorLemmas.PickTagAppends` | generator.go:43-61 | One tag generator takes exactly one draw and appends the tag keyed by its name whose value that draw selects. The earlier tags are untouched. |
| `GeneratorLemmas.PickTagsLength` | generator.go:40-62 | A unit's tag generators take one draw each. They append one tag each after the source tags, which stay first. |
| `GeneratorLemmas.PickTagsDrawn` | generator.go:42-61 | The `k`-th appended tag is keyed by the `k`-th tag generator's name, and holds the value the `k`-th draw selects. |
| `GeneratorLemmas.GenerateUnitShape` | generator.go:39-72 | One unit draws its tags, then one content pick with the next draw. It adds one unit of the chosen content, carrying the tags just drawn. |
| `GeneratorLemmas.GenerateUnitAddsOne` | generator.go:39-72 | One unit takes `len(TagGenerators) + 1` draws and adds exactly one unit. |
| `GeneratorLemmas.GenerateUnitWithin` | generator.go:65-68 | The unit added is one of the generator's contents. |
| `GeneratorLemmas.GenerateUnitNoDuplicates` | generator.go:68 | A unit keeps the list free of duplicate keys. |
| `GeneratorLemmas.GenerateUnitsDraws` | generator.go:39-72 | A generator entry of quantity `q` takes exactly `q * (len(TagGenerators) + 1)` draws. |
| `GeneratorLemmas.GenerateUnitsTotal` | generator.go:39-72 | A generator entry of quantity `q` adds exactly `q` units. |
| `GeneratorLemmas.GenerateUnitsWithin` | generator.go:39-72 | Generator units add only the generator's contents. |
| `GeneratorLemmas.GenerateUnitsNoDuplicates` | generator.go:39-72 | Generator units keep the list free of duplicate keys. |
| `GeneratorLemmas.AddBundleQuantity` | generator.go:76-78 | A bundle of quantity `q` adds, to every key `(id, source tags)`, `q` times the content list's quantity of `id`, and changes no other key. |
| `GeneratorLemmas.AddBundleShape` | generator.go:76-78 | A bundle adds only its contents and keeps the list free of duplicate keys. |
| `GeneratorLemmas.StepTerminal` | generator.go:29-30 | An `item` or `tag_tool` entry is re-inserted with its id, quantity and tags. It takes no draw and expands nothing. |
| `GeneratorLemmas.StepBundle` | generator.go:73-78 | A `bundle` entry succeeds, takes no draw and counts as an expansion. It adds `q * b.Quantity` units of each content `b`, carrying the source tags. |
| `GeneratorLemmas.StepGenerator` | generator.go:31-72 | A generator entry of quantity `q` counts as an expansion. It adds `max(q, 0)` units and takes `max(q, 0) * (len(TagGenerators) + 1)` draws. |
| `GeneratorLemmas.StepNoDuplicates` | generator.go:26-81 | Every kind of step keeps the list free of duplicate keys. |
| `GeneratorLemmas.StepWithin` | generator.go:26-81 | In a catalog whose contents are all defined, a step adds only defined ids. |
| `GeneratorLemmas.RoundExpanded` | generator.go:22-32 | A round that succeeds read only defined entries. It reports an expansion exactly when some entry is not `item`/`tag_tool`. |
| `GeneratorLemmas.RoundNoDuplicates` | generator.go:26-82 | A round builds a list free of duplicate keys. |
| `GeneratorLemmas.RoundWithin` | generator.go:26-82 | In a catalog whose contents are all defined, a round builds a list of defined ids. |
| `GeneratorLemmas.RoundTerminals` | generator.go:26-30 | A round over terminal entries succeeds, takes no draw and expands nothing. It keeps every key's number of units. |
| `GeneratorLemmas.RoundTerminalsStayTerminal` | generator.go:26-30 | A round over terminal entries builds a list of terminal entries. |
| `GeneratorLemmas.RoundCopiesTerminals` | generator.go:26-30 | Terminal entries with fresh, distinct keys are appended unchanged and in order. |
| `GeneratorLemmas.GenerateItemsTerminal` | generator.go:18-88 | The list a run returns holds only `item`/`tag_tool` entries. |
| `GeneratorLemmas.GenerateItemsNoDuplicates` | generator.go:18-88 | The list a run returns has no two entries with the same item and tag-set. |
| `GeneratorLemmas.GenerateItemsMergesTerminals` | generator.go:18-88 | A list of terminal entries finishes in one round, takes no draw, and keeps every key's number of units. |
| `GeneratorLemmas.GenerateItemsFixedPoint` | generator.go:18-88 | A list of terminal entries with distinct keys is returned as it is. |
| `GeneratorLemmas.GenerateItemsOneMoreRound` | generator.go:22-23 | A run that finishes with some budget returns the same result with one round more. |
| `GeneratorLemmas.GenerateItemsMoreRounds` | generator.go:22-23 | The round budget only cuts a run off: a run that finishes gives the same result with any larger budget. |
| `DecodedCatalog.DecodedCatalogWellWeighted` | def.go:224-322 | Definitions whose content lists and tag-generator values come from the decoders (or are empty) have only non-negative weights. That is the precondition of the engine's weighted picks. |

## Left out

- main.go: the driver is left out. That covers the scenario quantities, sorting for display by `fmt.Sprint` of tags, and printing with localisation fallbacks.
- `loadItemDefs` / `loadItemDefsFromFile`: the file globbing, opening and JSON decoding are left out, because they are I/O and `encoding/json`. Only the duplicate-id insertion loop is modelled (`InsertDefs`).
- `HexColor.UnmarshalText` is left out: it is a thin wrapper over `fmt.Sscanf`.
- `ItemDef`: the localisation and display fields are left out. The model keeps the id, type, bundle, tag generators, tag generator name and tag generator values.
- `math/rand` is replaced by an explicit draw sequence, so nothing is said about the distribution of results.
- Int32 wrap-around is not modelled. Quantities and weights are unbounded integers, so `b.Quantity*item.Quantity` (generator.go:77) and `Quantity += quantity` (generator.go:93) never wrap. The int64 weight sums cannot overflow for int32 weights.
- Non-termination on cyclic catalogs becomes the `RoundLimit` error of a finite round budget. No acyclicity or rank argument bounds the number of rounds needed.
- `Decimal.ParseInt32` collapses strconv's syntax and range errors into one `None`. The decoders' error values likewise keep only the kind of failure, not Go's message text.
- `strconv` itself is not part of this model. `ParseInt32` follows its documented base-10 grammar.
- The sorting algorithm is left out: `sort.Slice` is modelled as insertion sort. `Tags.SortedUnique` shows that any correct sort gives the same verdict.
- `Generator.GenerateItems`: the errors `DrawsExhausted` and `DrawOutOfRange` exist only in the model. They stand for a draw sequence that cannot come from `Int63n`.
- `Merge.AddMergeItem`: the Go function updates the slice in place and may share its backing array. The model returns a new sequence, which the engine's own use of the result cannot tell apart.
