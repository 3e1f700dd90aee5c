/** The annual rainfall for a postal code: the first record of the rain table whose range
    contains the code, or the table's default. */
module Rainfall {
  import opened Options
  import opened JsParse

  /** A postal-code range as stored in the rain table; both ends are strings that the
      lookup passes through `parseInt`. */
  datatype PlzRange = PlzRange(start: string, end: string)

  datatype RainRecord = RainRecord(plzRange: PlzRange, annualRainfall: real)

  /** The loaded rain data: the records in table order and the fallback figure (mm). */
  datatype RainData = RainData(rainData: seq<RainRecord>, defaultRainfall: real)

  /** The comparison `zip >= start && zip <= end` on parsed values: false as soon as any
      of the three is `NaN`. */
  predicate Covers(r: RainRecord, zip: Option<int>)
    ensures Covers(r, zip) ==> zip.Some?
  {
    var start := ParseInt(r.plzRange.start);
    var end := ParseInt(r.plzRange.end);
    zip.Some? && start.Some? && end.Some? && start.value <= zip.value <= end.value
  }

  /** For each record in table order, whether it covers `zip`. */
  function CoverFlags(records: seq<RainRecord>, zip: Option<int>): (flags: seq<bool>)
    ensures |flags| == |records|
    ensures forall j :: 0 <= j < |records| ==> flags[j] == Covers(records[j], zip)
  {
    seq(|records|, j requires 0 <= j < |records| => Covers(records[j], zip))
  }

  /** The first index, at or after `from`, whose flag is set. */
  function FirstSet(flags: seq<bool>, from: nat): (k: Option<nat>)
    requires from <= |flags|
    ensures k.Some? ==> from <= k.value < |flags| && flags[k.value]
    ensures k.Some? ==> forall j :: from <= j < k.value ==> !flags[j]
    ensures k.None? ==> forall j :: from <= j < |flags| ==> !flags[j]
    decreases |flags| - from
  {
    if from == |flags| then None
    else if flags[from] then Some(from)
    else FirstSet(flags, from + 1)
  }

  /** The index of the first record that covers `zip`. */
  function FirstCovering(records: seq<RainRecord>, zip: Option<int>): (k: Option<nat>)
    ensures k.Some? ==> k.value < |records| && Covers(records[k.value], zip)
    ensures k.Some? ==> forall j :: 0 <= j < k.value ==> !Covers(records[j], zip)
    ensures k.None? ==> forall j :: 0 <= j < |records| ==> !Covers(records[j], zip)
  {
    FirstSet(CoverFlags(records, zip), 0)
  }

  /** The figure `getRainfallByZIP` returns for the raw postal code `zipCode`. */
  function RainfallFor(data: RainData, zipCode: string): (rainfall: real)
    ensures ParseInt(zipCode).None? ==> rainfall == data.defaultRainfall
    ensures data.rainData == [] ==> rainfall == data.defaultRainfall
  {
    match FirstCovering(data.rainData, ParseInt(zipCode))
    case Some(k) => data.rainData[k].annualRainfall
    case None => data.defaultRainfall
  }

  /** `getRainfallByZIP`: scans the table in order and returns at the first record whose
      range contains the parsed code; the default when none does. */
  method GetRainfallByZip(data: RainData, zipCode: string) returns (rainfall: real)
    ensures rainfall == RainfallFor(data, zipCode)
  {
    var zip := ParseInt(zipCode);
    ghost var flags := CoverFlags(data.rainData, zip);
    var i := 0;
    while i < |data.rainData|
      invariant 0 <= i <= |data.rainData|
      invariant FirstSet(flags, 0) == FirstSet(flags, i)
    {
      var record := data.rainData[i];
      var start := ParseInt(record.plzRange.start);
      var end := ParseInt(record.plzRange.end);
      assert flags[i] == Covers(record, zip);
      if zip.Some? && start.Some? && end.Some? && start.value <= zip.value && zip.value <= end.value {
        return record.annualRainfall;
      }
      i := i + 1;
    }
    return data.defaultRainfall;
  }

  /** First match in table order: a code covered by record `k` and by no earlier record
      gets record `k`'s figure, whatever later records say. */
  lemma FirstMatchWins(data: RainData, zipCode: string, k: nat)
    requires k < |data.rainData| && Covers(data.rainData[k], ParseInt(zipCode))
    requires forall j :: 0 <= j < k ==> !Covers(data.rainData[j], ParseInt(zipCode))
    ensures RainfallFor(data, zipCode) == data.rainData[k].annualRainfall
  {
    var m := FirstCovering(data.rainData, ParseInt(zipCode));
    assert m.Some?;
    assert m.value == k;
  }

  /** A code covered by no record, and a code that does not parse, get the default. */
  lemma UncoveredGetsDefault(data: RainData, zipCode: string)
    requires ParseInt(zipCode).None? ||
             forall j :: 0 <= j < |data.rainData| ==> !Covers(data.rainData[j], ParseInt(zipCode))
    ensures RainfallFor(data, zipCode) == data.defaultRainfall
  {
  }

  /** Conversely, a figure other than the default is that of the first record covering
      the code. */
  lemma DefaultOnlyWhenUncovered(data: RainData, zipCode: string)
    requires RainfallFor(data, zipCode) != data.defaultRainfall
    ensures exists k :: 0 <= k < |data.rainData| && Covers(data.rainData[k], ParseInt(zipCode)) &&
              (forall j :: 0 <= j < k ==> !Covers(data.rainData[j], ParseInt(zipCode))) &&
              RainfallFor(data, zipCode) == data.rainData[k].annualRainfall
  {
    var k := FirstCovering(data.rainData, ParseInt(zipCode));
    assert k.Some?;
  }

  /** A five-digit code inside the decimal range of a record that is the first to cover it
      gets that record's figure; leading zeros of the code and of the bounds do not matter. */
  lemma FiveDigitCodeInRange(data: RainData, zipCode: string, k: nat)
    requires |zipCode| == 5 && AllDecimalDigits(zipCode)
    requires k < |data.rainData|
    requires var r := data.rainData[k].plzRange;
             r.start != [] && AllDecimalDigits(r.start) && r.end != [] && AllDecimalDigits(r.end) &&
             DigitsValue(r.start, 10) <= DigitsValue(zipCode, 10) <= DigitsValue(r.end, 10)
    requires forall j :: 0 <= j < k ==> !Covers(data.rainData[j], ParseInt(zipCode))
    ensures RainfallFor(data, zipCode) == data.rainData[k].annualRainfall
  {
    var r := data.rainData[k].plzRange;
    ParseDecimalDigits(zipCode);
    ParseDecimalDigits(r.start);
    ParseDecimalDigits(r.end);
    FirstMatchWins(data, zipCode, k);
  }
}
