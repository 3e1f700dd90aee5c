# Rainwater cistern sizing calculator — verified model

This project models the calculation core of a browser-based sizing calculator for
rainwater cisterns (`script.js`). A form gives the roof dimensions and runoff
coefficient, the garden area and irrigation level, a postal code, the house connections
(toilet, washing machine), the number of occupants and the accessibility and comfort
wishes. The calculator:

1. validates the form: every required field must be truthy, and only then is the postal
   code checked to be exactly five characters long (`Form.ValidateForm`);
2. looks the postal code up in a rain table of postal-code ranges, taking the first range
   that contains it, or the table's default (`Rainfall.GetRainfallByZip`); JavaScript's
   `parseInt` is modelled for the code and the range bounds (`JsParse.ParseInt`);
3. estimates the annual water demand in litres from irrigation, toilet and washing
   machine (`Demand.CalculateWaterDemand`);
4. sizes the cistern: the smaller of 21 days of demand and 6 % of the annual rain yield,
   raised to a floor of 3.0 m³ for house use or 0.8 m³ for garden use, rounded up to
   0.1 m³ (`Sizing.SizeCistern`);
5. searches the catalog in three passes, each looser than the one before, sorts the
   candidates of the first pass that finds any by capacity and returns the smallest, or
   nothing (`Products.FindSuitableProduct`, with the stable sort in `CapacitySort`).

`Cistern.CalculateCistern` runs steps 2–5. The rain table and the catalog are parameters
(the page loads them once into globals). Numbers are exact reals, so "round up to 0.1" is
⌈10·x⌉/10 with no binary floating-point error. `NaN` from the form's parsing is `None`.

Two behaviours of the code are kept as written:

- The demand-based size is in litres (annual litres / 365 × 21). The rain-based size is
  in m³. `Math.min` compares the two without converting. The result is then read as m³
  and multiplied by 1000 for the product search. `Cistern.ExampleGardenSite` shows the
  effect: a 1750 L/year demand gives a demand-based figure of about 100.7. That figure
  loses to the rain-based 3.36.
- The type rule's carve-out (script.js:186) applies to house requests. Such a request
  accepts a product of any type with at least 3000 L. A garden request accepts only garden
  products. `Products.HouseRequestAcceptsAnyType` shows something more: a house request is at
  least 3.0 m³, so any product big enough for it is at least 3000 L. The type rule
  therefore never excludes anything from a house request.

## Model

| member | source | states |
|---|---|---|
| `JsParse.ParseInt` | script.js:126-130 | `parseInt` without a radix: an empty or all-white-space string is NaN, and a negative result needs a leading minus sign after the white space |
| `JsParse.ParseDecimalDigits` | script.js:126-130 | a non-empty string of decimal digits (leading zeros allowed) parses to its decimal value, which is below 10^length |
| `JsParse.FiveDigitCode` | script.js:126 | a five-digit postal code parses to a number in [0, 99999] |
| `JsParse.NoLeadingDigitIsNaN` | script.js:126 | a string that starts with no white space, sign or digit parses to NaN |
| `JsParse.DigitsValueBound` | script.js:126-130 | n digits of the radix denote a value below radix^n |
| `Form.ValidateForm` | script.js:65-79 | accepted iff every required field is truthy and the postal code has exactly 5 characters; a falsy field is reported whatever the code; a wrong length only when all fields are present |
| `Form.AcceptedIsComputable` | script.js:65-79 | an accepted form has every numeric field a number (not NaN) and non-zero, and a 5-character postal code |
| `Form.ZeroIsMissing` | script.js:66-71 | a garden area, occupant count or runoff coefficient of 0 is a missing field, checked before the postal code |
| `Form.WrongLengthZip` | script.js:73-76 | a complete form whose code is not 5 characters long is rejected for its length |
| `Rainfall.Covers` | script.js:129-132 | `zip >= start && zip <= end` on parsed values: a code that is NaN is never covered |
| `Rainfall.FirstSet` | script.js:128-135 | the first set flag at or after the start, and none before it; none when no flag is set |
| `Rainfall.FirstCovering` | script.js:128-135 | the first record, in table order, whose parsed range contains the parsed code; none when no record does |
| `Rainfall.RainfallFor` | script.js:125-139 | the figure for a raw postal code: the default when the code is NaN or the table is empty |
| `Rainfall.GetRainfallByZip` | script.js:125-139 | the loop with early return yields the figure of the first covering record, else the default |
| `Rainfall.FirstMatchWins` | script.js:128-135 | a code covered by record k and by no earlier record gets record k's figure |
| `Rainfall.UncoveredGetsDefault` | script.js:126-138 | a code that does not parse, or that no range contains, gets the default |
| `Rainfall.DefaultOnlyWhenUncovered` | script.js:128-138 | a figure other than the default is that of the first record, in table order, that covers the code |
| `Rainfall.FiveDigitCodeInRange` | script.js:125-135 | a 5-digit code between the decimal bounds of the first record covering it gets that record's figure |
| `Demand.IrrigationRate` | script.js:146-152 | the rate per m² of garden and year: 20 L for low, 35 L for medium and 50 L for high irrigation, so always between 20 and 50 |
| `Demand.AnnualDemand` | script.js:142-165 | the annual demand is at least the garden term for a non-negative occupant count, and is exactly the garden term without house use |
| `Demand.CalculateWaterDemand` | script.js:142-165 | the accumulated demand is garden area × rate + occupants × 40 × 365 if the toilet is connected + occupants × 50 × 52 if the washing machine is connected; garden term only without house use |
| `Demand.NoUseNoDemand` | script.js:142-165 | no garden and nothing connected gives zero demand |
| `Demand.DemandNonNegative` | script.js:142-165 | demand is non-negative for non-negative garden area and occupants |
| `Demand.DemandMonotone` | script.js:142-165 | more garden, more occupants or a higher irrigation level never lowers demand |
| `Demand.MinimumSize` | script.js:168-173 | the floor is 3.0 exactly when the toilet or the washing machine is connected, 0.8 exactly otherwise |
| `Sizing.RainTotal` | script.js:91 | the annual rain yield is non-negative for non-negative roof area, coefficient and rainfall |
| `Sizing.DemandBasedSize` | script.js:98-99 | 21 days' share of a non-negative annual demand: between 0 and the annual demand |
| `Sizing.RainBasedSize` | script.js:100 | 6 % of a non-negative rain yield: between 0 and the yield |
| `Sizing.Ceil` | script.js:109 | `Math.ceil`: the least integer not below x |
| `Sizing.RoundUpToTenth` | script.js:109 | the result is a multiple of 0.1 in [x, x + 0.1), i.e. x rounded up to the next 100 litres |
| `Sizing.ClampedSize` | script.js:99-106 | the size before rounding is at least the floor and at least the smaller candidate, and is one of the two (`Math.max` of `Math.min` and the floor) |
| `Sizing.RecommendedSize` | script.js:97-109 | the recommended size is at least the floor, a multiple of 0.1, and within 0.1 above the clamped size |
| `Sizing.SizeCistern` | script.js:99-109 | the step-by-step reassignments (min, max with the floor, `Math.ceil(x / 0.1) * 0.1`) give the recommended size |
| `Sizing.RoundUpMonotone` | script.js:109 | rounding up is monotone |
| `Sizing.RoundUpKeepsTenths` | script.js:109 | a whole number of tenths is not changed by rounding |
| `Sizing.SmallSiteGetsFloor` | script.js:104-109 | when the smaller candidate is at most the floor (3.0 or 0.8), the recommendation is exactly the floor |
| `Sizing.MonotoneInDemand` | script.js:97-109 | more demand never lowers the recommended size |
| `Sizing.MonotoneInRainfall` | script.js:91-109 | more rainfall never lowers the recommended size, for roof area × coefficient ≥ 0 |
| `CapacitySort.SortByCapacity` | script.js:210 | the ascending sort by capacity keeps the number of products (order and permutation in `SortIsSortedPermutation`) |
| `CapacitySort.SmallestIndex` | script.js:209-212 | the index of an element of least capacity, with every earlier element strictly larger |
| `CapacitySort.InsertSorted` | script.js:210 | inserting into a capacity-sorted sequence keeps it sorted |
| `CapacitySort.InsertPermutation` | script.js:210 | inserting adds exactly the one element |
| `CapacitySort.InsertHead` | script.js:210 | after inserting into a sorted sequence the head is the new element iff it is smaller than the old head |
| `CapacitySort.SortIsSortedPermutation` | script.js:210 | the sort by capacity is ascending and a permutation of its input |
| `CapacitySort.SortHead` | script.js:210-212 | the first element after the stable sort is the first element of least capacity |
| `CapacitySort.InsertAt` | script.js:210 | insertion places the element after the last element that is not larger |
| `CapacitySort.InsertInPlace` | script.js:210 | moving `a[i]` left past larger elements leaves the prefix equal to the insertion of `a[i]` into it, the rest unchanged |
| `CapacitySort.SortInPlace` | script.js:210 | the in-place sort leaves the array equal to the stable ascending sort of its old contents |
| `Products.ProductType` | script.js:181-182 | the request is for "house" exactly when a house connection is needed |
| `Products.TypeRule` | script.js:186 | a product of the requested type passes; for a garden request, exactly the garden products pass |
| `Products.Qualifies` | script.js:185-206 | a product that qualifies for any pass satisfies the type rule and holds the size in litres |
| `Products.Filter` | script.js:185-206 | a pass keeps exactly the catalog products that qualify for it |
| `Products.FilterAppend` | script.js:185-206 | `filter` keeps catalog order: the filter of a concatenation is the concatenation of the filters |
| `Products.FilterOne` | script.js:185-206 | a single product is kept exactly when it qualifies |
| `Products.FilterFirstSmallest` | script.js:185-212 | the candidate picked from a pass's filter is, in catalog order, the first qualifying product of least capacity |
| `Products.FindSuitableProduct` | script.js:176-212 | the result is the specified product; a product found is from the catalog, passes the type rule and holds size × 1000 litres; nothing is found iff no catalog product passes the loosest pass |
| `Products.SelectedPass` | script.js:193-207 | the pass whose candidates the search keeps: a pass is selected only when it has a candidate |
| `Products.SuitableProduct` | script.js:176-212 | the product the search returns comes from the catalog, and there is one exactly when some pass is selected |
| `Products.SortedHeadIsSuitable` | script.js:209-212 | the head of the sorted candidates of the selected pass is the product returned |
| `Products.PassesNested` | script.js:185-206 | pass 1 ⊆ pass 2 ⊆ pass 3 |
| `Products.SuitableQualifies` | script.js:185-212 | a product found qualifies for the pass that selected it and for the loosest pass |
| `Products.NothingQualifiesIffNone` | script.js:202-212 | nothing is found exactly when no catalog product satisfies type rule and capacity |
| `Products.SelectedPassIsFirst` | script.js:185-207 | the pass used is the first with a candidate: stricter passes admit no catalog product |
| `Products.SuitableIsFirstSmallest` | script.js:176-212 | the product found is a catalog product that qualifies for the selected pass, and every earlier product qualifying for that pass is strictly larger: capacity ties go to catalog order |
| `Products.SuitableIsSmallest` | script.js:209-212 | the product found has the least capacity among the candidates of its pass |
| `Products.HouseRequestAcceptsAnyType` | script.js:168-186 | for a house request of at least 3.0 m³ every product large enough passes the type rule |
| `Products.GardenRequestNeedsGardenType` | script.js:181-186 | for a garden request only garden products pass the type rule |
| `Cistern.CalculateCistern` | script.js:82-122 | the result holds roof area, the looked-up rainfall, the rain yield, the demand, the recommended size (≥ floor, a multiple of 0.1) and the product, which, when present, holds the size |
| `Cistern.ExampleGardenSite` | script.js:84-173 | 100 m² roof, coefficient 0.8, 700 mm, a form with 50 m² of medium-irrigated garden and nothing connected: demand 1750 L, yield 56 m³, size 3.4 m³ through the demand and floor functions |
| `Cistern.ExampleSmallestSufficient` | script.js:176-212 | capacities 1000, 3000, 5000 L and size 2.5 m³ select the 3000 L product |
| `Cistern.LetterZipGetsDefault` | script.js:73-138 | a five-letter postal code is accepted and gets the default rainfall |

## Left out

- Page start-up (loading the two JSON files with `fetch`, wiring events) and `handleFormSubmit` (script.js:6-45) are I/O and event wiring. The data are parameters here, and the lemma `Form.AcceptedIsComputable` states what validation guarantees to the calculation.
- `getFormData` (script.js:48-62) reads the DOM. Its output is taken as already typed: a `parseFloat`/`parseInt` result is `Some(number)` or `None` for `NaN`. Infinity is not modelled, and neither are parse results that are not finite.
- `displayResults`, `emailResults`, `showError`, `clearErrors` (script.js:216-321) are DOM updates and mailto-link building. The validator's message is represented only by which `Verdict` it returns.
- The `toFixed` formatting of the result (script.js:114-121) is presentation. The result holds the exact numbers.
- Binary floating point is not modelled. Sizes are exact reals. Integers (occupants, parsed codes) are unbounded. `parseInt`'s loss of precision beyond 2^53 is not modelled.
- The irrigation level is one of the three levels the form offers, or no selection. Any other string would make the source's demand `NaN`. Such a string cannot be represented here.
- `Demand.CalculateWaterDemand`: requires garden area, level and occupants to be numbers even when the occupants are not used. `NaN` propagation through the arithmetic is not modelled. Validation rules `NaN` out before the calculation runs.
- `Cistern.CalculateCistern`: requires the numeric fields to be numbers, for the same reason.
- `Form.ValidateForm`: counts the postal code's length in characters (Unicode scalar values). JavaScript counts UTF-16 code units. The two differ only for characters outside the Basic Multilingual Plane.
- Catalog capacities are integers (litres). A product's image URL and links are carried but not used by the calculation.
- The engine's own sort algorithm is not modelled. The model uses the stable insertion sort. Any stable sort with the same comparator gives the same order.
