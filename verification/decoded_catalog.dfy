/**
  Where the engine's weights come from: the decoders of def.go admit only
  positive weights and quantities, so a catalog built from decoded text
  meets the engine's precondition on weights.
 */
module DecodedCatalog {
  import opened Results
  import opened Defs
  import opened Pick
  import opened Generator
  import opened GeneratorLemmas

  /**
    A catalog whose content lists and tag-generator values were each decoded
    from text, or left empty, is well weighted: the decoders admit only
    positive quantities and weights.
   */
  lemma DecodedCatalogWellWeighted(catalog: Catalog, bundleTexts: map<int, string>, valueTexts: map<int, string>)
    requires forall id :: id in catalog ==>
      (catalog[id].bundle == [] ||
       (id in bundleTexts && DecodeBundleDefs(bundleTexts[id]) == Ok(catalog[id].bundle)))
    requires forall id :: id in catalog ==>
      (catalog[id].tagGeneratorValues == [] ||
       (id in valueTexts && DecodeValueWeightPairs(valueTexts[id]) == Ok(catalog[id].tagGeneratorValues)))
    ensures WellWeighted(catalog)
  {
    forall id | id in catalog
      ensures NonNegative(ValueWeights(catalog[id].tagGeneratorValues))
      ensures NonNegative(ContentWeights(catalog[id].bundle))
    {
      if catalog[id].bundle != [] {
        assert DecodeBundleDefs(bundleTexts[id]).Ok?;
      }
      if catalog[id].tagGeneratorValues != [] {
        assert DecodeValueWeightPairs(valueTexts[id]).Ok?;
      }
    }
  }
}
