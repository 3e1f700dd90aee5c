/** `calculateCistern`: the pipeline from the validated form to the result the page shows,
    with the rain table and the product catalog passed in. */
module Cistern {
  import opened Options
  import JsParse
  import opened Form
  import opened Rainfall
  import opened Demand
  import opened Sizing
  import opened Catalog
  import opened Products

  /** The calculated figures, as numbers rather than the fixed-point strings of the page. */
  datatype CalculationResult = CalculationResult(
    houseArea: real,          // m²
    annualRainfall: real,     // mm
    rainTotal: real,          // m³ per year
    waterDemand: real,        // litres per year
    recommendedSize: real,    // m³
    product: Option<Product>)

  /** Computes roof area, rainfall, rain yield and demand, then the recommended size step by
      step (smaller candidate, raised to the floor, rounded up to 0.1), then the product. */
  method CalculateCistern(f: FormData, rain: RainData, catalog: seq<Product>) returns (r: CalculationResult)
    requires Computable(f)
    ensures r.houseArea == f.houseLength.value * f.houseWidth.value
    ensures r.annualRainfall == RainfallFor(rain, f.zipCode)
    ensures r.rainTotal == RainTotal(r.houseArea, f.roofType.value, r.annualRainfall)
    ensures r.waterDemand == AnnualDemand(f)
    ensures r.recommendedSize == RecommendedSize(r.waterDemand, r.rainTotal, MinimumSize(f))
    ensures r.recommendedSize >= MinimumSize(f) && IsTenths(r.recommendedSize)
    ensures r.product == SuitableProduct(catalog, r.recommendedSize, f)
    ensures r.product.Some? ==> r.product.value in catalog &&
                                r.product.value.capacity as real >= r.recommendedSize * 1000.0
  {
    var houseArea := f.houseLength.value * f.houseWidth.value;
    var annualRainfall := GetRainfallByZip(rain, f.zipCode);
    var rainTotal := RainTotal(houseArea, f.roofType.value, annualRainfall);
    var waterDemand := CalculateWaterDemand(f);

    var minSize := MinimumSize(f);
    var recommendedSize := SizeCistern(waterDemand, rainTotal, minSize);

    var product := FindSuitableProduct(catalog, recommendedSize, f);
    r := CalculationResult(houseArea, annualRainfall, rainTotal, waterDemand, recommendedSize, product);
  }

  /** A garden-only site: a 10 m × 10 m roof with runoff coefficient 0.8, 700 mm of rain
      and 50 m² of garden at medium irrigation.  The demand is 1750 litres a year, the rain
      yield 56 m³; six per cent of the yield, 3.36, is below the demand-based figure and
      rounds up to 3.4. */
  lemma ExampleGardenSite(f: FormData)
    requires f.gardenArea == Some(50.0) && f.irrigationDemand == Some(Medium) && f.numPeople.Some?
    requires !f.connectToilet && !f.connectWashingMachine
    ensures AnnualDemand(f) == 1750.0
    ensures RainTotal(100.0, 0.8, 700.0) == 56.0
    ensures RecommendedSize(AnnualDemand(f), RainTotal(100.0, 0.8, 700.0), MinimumSize(f)) == 3.4
  {
  }

  /** With catalog capacities 1000, 3000 and 5000 litres, all of the requested type,
      accessibility and comfort, a size of 2.5 m³ selects the 3000-litre product. */
  lemma ExampleSmallestSufficient(f: FormData, name1: string, name3: string, name5: string)
    requires !NeedsHouseSystem(f)
    ensures var mk := (n: string, c: int) => Product(n, c, "garden", f.accessibility, f.comfortLevel, None, None, None);
            SuitableProduct([mk(name1, 1000), mk(name3, 3000), mk(name5, 5000)], 2.5, f) == Some(mk(name3, 3000))
  {
    var mk := (n: string, c: int) => Product(n, c, "garden", f.accessibility, f.comfortLevel, None, None, None);
    var catalog := [mk(name1, 1000), mk(name3, 3000), mk(name5, 5000)];
    assert !Qualifies(catalog[0], AllCriteria, f, 2500.0);
    assert Qualifies(catalog[1], AllCriteria, f, 2500.0);
    assert Qualifies(catalog[2], AllCriteria, f, 2500.0);
    assert catalog[1..] == [catalog[1], catalog[2]];
    assert catalog[1..][1..] == [catalog[2]];
    assert Filter([catalog[2]], AllCriteria, f, 2500.0) == [catalog[2]];
    assert Filter(catalog[1..], AllCriteria, f, 2500.0) == [catalog[1], catalog[2]];
    assert Filter(catalog, AllCriteria, f, 2500.0) == [catalog[1], catalog[2]];
  }

  /** The validator counts characters, not digits: a five-letter postal code is accepted,
      does not parse, and so gets the default rainfall. */
  lemma LetterZipGetsDefault(f: FormData, rain: RainData)
    requires AllRequiredPresent(f) && f.zipCode == "abcde"
    ensures ValidateForm(f) == Accepted
    ensures RainfallFor(rain, f.zipCode) == rain.defaultRainfall
  {
    JsParse.NoLeadingDigitIsNaN(f.zipCode);
  }
}
