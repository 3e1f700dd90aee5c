/** The sizing arithmetic of the calculation: rain yield, the two candidate sizes, the
    floor and the rounding.  Sizes are exact reals in cubic metres, as the result shows
    them; the demand-based size is computed from litres and compared unconverted. */
module Sizing {

  const StorageDays: real := 21.0
  const DaysInYear: real := 365.0
  const RainShare: real := 0.06

  /** Rain collected per year: roof area (m²) × runoff coefficient × rainfall (mm) / 1000. */
  function RainTotal(roofArea: real, coefficient: real, rainfall: real): (total: real)
    ensures roofArea >= 0.0 && coefficient >= 0.0 && rainfall >= 0.0 ==> total >= 0.0
  {
    roofArea * coefficient * rainfall / 1000.0
  }

  /** Twenty-one days of the annual demand.  The demand is in litres, so this is in litres. */
  function DemandBasedSize(waterDemand: real): (s: real)
    ensures waterDemand >= 0.0 ==> 0.0 <= s <= waterDemand
  {
    waterDemand / DaysInYear * StorageDays
  }

  /** Six per cent of the annual rain collection. */
  function RainBasedSize(rainTotal: real): (s: real)
    ensures rainTotal >= 0.0 ==> 0.0 <= s <= rainTotal
  {
    rainTotal * RainShare
  }

  function Min(a: real, b: real): (m: real)
    ensures m <= a && m <= b && (m == a || m == b)
  {
    if a <= b then a else b
  }

  function Max(a: real, b: real): (m: real)
    ensures a <= m && b <= m && (m == a || m == b)
  {
    if a >= b then a else b
  }

  /** The least integer not below `x`. */
  function Ceil(x: real): (n: int)
    ensures x <= n as real < x + 1.0
  {
    -((-x).Floor)
  }

  /** `x` is a whole number of tenths (of a cubic metre: 100 litres). */
  predicate IsTenths(x: real)
  {
    (x * 10.0).Floor as real == x * 10.0
  }

  /** `Math.ceil(x / 0.1) * 0.1` on exact reals: the unique multiple of 0.1 in [x, x + 0.1). */
  function RoundUpToTenth(x: real): (r: real)
    ensures x <= r < x + 0.1
    ensures IsTenths(r)
  {
    Ceil(x * 10.0) as real / 10.0
  }

  /** The size before rounding: the smaller candidate, raised to the floor. */
  function ClampedSize(waterDemand: real, rainTotal: real, floor: real): (s: real)
    ensures s >= floor
    ensures s >= Min(DemandBasedSize(waterDemand), RainBasedSize(rainTotal))
    ensures s == floor || s == Min(DemandBasedSize(waterDemand), RainBasedSize(rainTotal))
  {
    Max(Min(DemandBasedSize(waterDemand), RainBasedSize(rainTotal)), floor)
  }

  /** The recommended size of the calculation: the clamped size rounded up to 0.1. */
  function RecommendedSize(waterDemand: real, rainTotal: real, floor: real): (size: real)
    ensures size >= floor
    ensures IsTenths(size)
    ensures ClampedSize(waterDemand, rainTotal, floor) <= size < ClampedSize(waterDemand, rainTotal, floor) + 0.1
  {
    RoundUpToTenth(ClampedSize(waterDemand, rainTotal, floor))
  }

  /** The sizing steps of the calculation: the smaller of the two candidates, then raised
      to the floor, then `Math.ceil(size / 0.1) * 0.1`. */
  method SizeCistern(waterDemand: real, rainTotal: real, minSize: real) returns (recommendedSize: real)
    ensures recommendedSize == RecommendedSize(waterDemand, rainTotal, minSize)
  {
    var demandBasedSize := DemandBasedSize(waterDemand);
    var rainBasedSize := RainBasedSize(rainTotal);
    recommendedSize := Min(demandBasedSize, rainBasedSize);
    recommendedSize := Max(recommendedSize, minSize);
    assert recommendedSize / 0.1 == recommendedSize * 10.0;
    recommendedSize := Ceil(recommendedSize / 0.1) as real * 0.1;
  }

  /** Rounding up is monotone. */
  lemma RoundUpMonotone(x: real, y: real)
    requires x <= y
    ensures RoundUpToTenth(x) <= RoundUpToTenth(y)
  {
    var cx, cy := Ceil(x * 10.0), Ceil(y * 10.0);
    if cx > cy {
      assert false;
    }
  }

  /** A value that already is a whole number of tenths is not changed by rounding. */
  lemma RoundUpKeepsTenths(x: real)
    requires IsTenths(x)
    ensures RoundUpToTenth(x) == x
  {
    var n := (x * 10.0).Floor;
    assert Ceil(x * 10.0) == n;
  }

  /** When the smaller candidate is at most the floor, the recommendation is the floor itself,
      for either floor the calculator uses. */
  lemma SmallSiteGetsFloor(waterDemand: real, rainTotal: real, floor: real)
    requires floor == 3.0 || floor == 0.8
    requires Min(DemandBasedSize(waterDemand), RainBasedSize(rainTotal)) <= floor
    ensures RecommendedSize(waterDemand, rainTotal, floor) == floor
  {
  }

  /** More demand never lowers the recommendation. */
  lemma MonotoneInDemand(d1: real, d2: real, rainTotal: real, floor: real)
    requires d1 <= d2
    ensures RecommendedSize(d1, rainTotal, floor) <= RecommendedSize(d2, rainTotal, floor)
  {
    RoundUpMonotone(ClampedSize(d1, rainTotal, floor), ClampedSize(d2, rainTotal, floor));
  }

  /** More rain never lowers the recommendation, for a roof whose area times runoff
      coefficient is not negative. */
  lemma MonotoneInRainfall(roofArea: real, coefficient: real, r1: real, r2: real, waterDemand: real, floor: real)
    requires r1 <= r2 && roofArea * coefficient >= 0.0
    ensures RecommendedSize(waterDemand, RainTotal(roofArea, coefficient, r1), floor)
         <= RecommendedSize(waterDemand, RainTotal(roofArea, coefficient, r2), floor)
  {
    var k := roofArea * coefficient;
    assert k * r1 <= k * r2;
    var t1, t2 := RainTotal(roofArea, coefficient, r1), RainTotal(roofArea, coefficient, r2);
    assert t1 <= t2;
    RoundUpMonotone(ClampedSize(waterDemand, t1, floor), ClampedSize(waterDemand, t2, floor));
  }
}
