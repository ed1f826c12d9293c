/**
 * The brand registry (`BRANDS` in app.py): a constant table from brand key to
 * its metadata tag, optional colour-lookup asset and candidate watermarks.
 */
module BrandRegistry {
  import opened Wrappers

  datatype BrandConfig = BrandConfig(metadata: string, lut: Option<string>, watermarks: seq<string>)

  const BRANDS: map<string, BrandConfig> := map[
    "fitness_plus" := BrandConfig(
      "brand=fitness_plus", Some("Cobi_3.CUBE"),
      ["Thick_asian_watermark.png", "Thick_asian_watermark_2.png", "Thick_asian_watermark_3.png"]),
    "athletic_elite" := BrandConfig(
      "brand=athletic_elite", Some("Cobi_3.CUBE"),
      ["gym_baddie_watermark.png", "gym_baddie_watermark_2.png", "gym_baddie_watermark_3.png"]),
    "premium_fitness" := BrandConfig(
      "brand=premium_fitness", None,
      ["polished_watermark.png", "polished_watermark_2.png", "polished_watermark_3.png"]),
    "travel_premium" := BrandConfig(
      "brand=travel_premium", None,
      ["asian_travel_watermark.png", "asian_travel_watermark_2.png", "asian_travel_watermark_3.png"])
  ]

  /** Every registered brand has at least one watermark, so a random choice always succeeds. */
  lemma WatermarksNonEmpty(brand: string)
    requires brand in BRANDS
    ensures |BRANDS[brand].watermarks| > 0
  {
  }

  /**
   * `random.choice(brand_config["watermarks"])`: any one of the brand's
   * watermarks, chosen nondeterministically.
   */
  method ChooseWatermark(brand: string) returns (watermark: string)
    requires brand in BRANDS
    ensures watermark in BRANDS[brand].watermarks
  {
    WatermarksNonEmpty(brand);
    var candidates := BRANDS[brand].watermarks;
    assert candidates[0] in candidates;
    watermark :| watermark in candidates;
  }
}
