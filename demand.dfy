/** Annual water demand and the usage-dependent minimum cistern size. */
module Demand {
  import opened Form

  /** Litres of irrigation water per square metre of garden and year, by level. */
  function IrrigationRate(level: Irrigation): (rate: nat)
    ensures 20 <= rate <= 50
    ensures level == Low ==> rate == 20
    ensures level == Medium ==> rate == 35
    ensures level == High ==> rate == 50
  {
    match level
    case Low => 20
    case Medium => 35
    case High => 50
  }

  const ToiletLitresPerPersonDay: nat := 40
  const DaysPerYear: nat := 365
  const WashingLitresPerPersonWeek: nat := 50
  const WeeksPerYear: nat := 52

  /** The site uses rainwater in the house (toilet or washing machine), not only in the garden. */
  predicate NeedsHouseSystem(f: FormData)
  {
    f.connectToilet || f.connectWashingMachine
  }

  /** The fields the demand estimate reads are numbers. */
  predicate DemandInputs(f: FormData)
  {
    f.gardenArea.Some? && f.irrigationDemand.Some? && f.numPeople.Some?
  }

  /** Irrigation, toilet and washing-machine demand in litres per year. */
  function GardenTerm(f: FormData): real
    requires DemandInputs(f)
  {
    f.gardenArea.value * IrrigationRate(f.irrigationDemand.value) as real
  }

  function ToiletTerm(f: FormData): real
    requires DemandInputs(f)
  {
    if f.connectToilet then (f.numPeople.value * ToiletLitresPerPersonDay * DaysPerYear) as real else 0.0
  }

  function WashingTerm(f: FormData): real
    requires DemandInputs(f)
  {
    if f.connectWashingMachine then (f.numPeople.value * WashingLitresPerPersonWeek * WeeksPerYear) as real
    else 0.0
  }

  /** The annual demand (litres) the calculator estimates: the sum of the three terms. */
  function AnnualDemand(f: FormData): (demand: real)
    requires DemandInputs(f)
    ensures f.numPeople.value >= 0 ==> demand >= GardenTerm(f)
    ensures !NeedsHouseSystem(f) ==> demand == GardenTerm(f)
  {
    GardenTerm(f) + ToiletTerm(f) + WashingTerm(f)
  }

  /** `calculateWaterDemand`: starts from zero and adds the irrigation term, then the toilet
      term if the toilet is connected, then the washing term if the machine is connected. */
  method CalculateWaterDemand(f: FormData) returns (demand: real)
    requires DemandInputs(f)
    ensures demand == AnnualDemand(f)
    ensures !NeedsHouseSystem(f) ==> demand == GardenTerm(f)
  {
    demand := 0.0;
    demand := demand + f.gardenArea.value * IrrigationRate(f.irrigationDemand.value) as real;
    if f.connectToilet {
      demand := demand + (f.numPeople.value * ToiletLitresPerPersonDay * DaysPerYear) as real;
    }
    if f.connectWashingMachine {
      demand := demand + (f.numPeople.value * WashingLitresPerPersonWeek * WeeksPerYear) as real;
    }
    assert demand == GardenTerm(f) + ToiletTerm(f) + WashingTerm(f);
  }

  /** No garden and nothing connected in the house: no demand. */
  lemma NoUseNoDemand(f: FormData)
    requires DemandInputs(f) && f.gardenArea.value == 0.0 && !NeedsHouseSystem(f)
    ensures AnnualDemand(f) == 0.0
  {
  }

  /** The demand is never negative for a non-negative garden area and occupant count. */
  lemma DemandNonNegative(f: FormData)
    requires DemandInputs(f) && f.gardenArea.value >= 0.0 && f.numPeople.value >= 0
    ensures AnnualDemand(f) >= 0.0
  {
  }

  /** More garden, more occupants or a higher irrigation level never lowers the demand, the
      connections being the same. */
  lemma DemandMonotone(f: FormData, g: FormData)
    requires DemandInputs(f) && DemandInputs(g)
    requires f.connectToilet == g.connectToilet && f.connectWashingMachine == g.connectWashingMachine
    requires 0.0 <= f.gardenArea.value <= g.gardenArea.value
    requires 0 <= f.numPeople.value <= g.numPeople.value
    requires IrrigationRate(f.irrigationDemand.value) <= IrrigationRate(g.irrigationDemand.value)
    ensures AnnualDemand(f) <= AnnualDemand(g)
  {
  }

  /** The house floor and the garden floor, in cubic metres. */
  const HouseFloor: real := 3.0
  const GardenFloor: real := 0.8

  /** `getMinimumSize`: the house floor exactly when the toilet or the washing machine is
      connected, the garden floor otherwise. */
  function MinimumSize(f: FormData): (floor: real)
    ensures floor == HouseFloor <==> NeedsHouseSystem(f)
    ensures floor == GardenFloor <==> !NeedsHouseSystem(f)
  {
    if f.connectToilet || f.connectWashingMachine then HouseFloor else GardenFloor
  }
}
