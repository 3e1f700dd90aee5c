/** The values the calculator reads from its form, and the fail-fast check run on them
    before any calculation. */
module Form {
  import opened Options

  /** The three irrigation levels the form offers. */
  datatype Irrigation = Low | Medium | High

  /** The form after reading: numeric fields hold the result of `parseFloat`/`parseInt`,
      where `None` is `NaN`; `irrigationDemand` is `None` when no level is selected;
      the other text fields are the raw strings. */
  datatype FormData = FormData(
    roofType: Option<real>,          // runoff coefficient of the roof
    houseLength: Option<real>,       // metres
    houseWidth: Option<real>,        // metres
    gardenArea: Option<real>,        // square metres
    zipCode: string,
    irrigationDemand: Option<Irrigation>,
    accessibility: string,
    connectToilet: bool,
    connectWashingMachine: bool,
    numPeople: Option<int>,
    comfortLevel: string)

  /** JavaScript truthiness of a number: neither `NaN` nor zero. */
  predicate TruthyReal(x: Option<real>)
  {
    x.Some? && x.value != 0.0
  }

  predicate TruthyInt(x: Option<int>)
  {
    x.Some? && x.value != 0
  }

  /** JavaScript truthiness of a string: not empty. */
  predicate TruthyString(s: string)
  {
    s != []
  }

  /** Every field the validator requires is truthy.  The two connection flags are not
      checked. */
  predicate AllRequiredPresent(f: FormData)
  {
    TruthyReal(f.roofType) && TruthyReal(f.houseLength) && TruthyReal(f.houseWidth) &&
    TruthyReal(f.gardenArea) && TruthyString(f.zipCode) && f.irrigationDemand.Some? &&
    TruthyString(f.accessibility) && TruthyInt(f.numPeople) && TruthyString(f.comfortLevel)
  }

  /** The validator's outcome: `Accepted` is its `true`; the two rejections are its
      `false` together with the message it shows. */
  datatype Verdict = Accepted | MissingField | BadZipLength

  /** `validateForm`: presence of every required field first, then a postal code of exactly
      five characters.  The characters themselves are not checked. */
  function ValidateForm(f: FormData): (v: Verdict)
    ensures v == Accepted <==> AllRequiredPresent(f) && |f.zipCode| == 5
    ensures v == MissingField <==> !AllRequiredPresent(f)
    ensures v == BadZipLength <==> AllRequiredPresent(f) && |f.zipCode| != 5
  {
    if !AllRequiredPresent(f) then MissingField
    else if |f.zipCode| != 5 then BadZipLength
    else Accepted
  }

  /** The numeric fields the calculation reads are numbers, not `NaN`. */
  predicate Computable(f: FormData)
  {
    f.roofType.Some? && f.houseLength.Some? && f.houseWidth.Some? &&
    f.gardenArea.Some? && f.irrigationDemand.Some? && f.numPeople.Some?
  }

  /** An accepted form can be calculated on, and none of its numeric fields is zero. */
  lemma AcceptedIsComputable(f: FormData)
    requires ValidateForm(f) == Accepted
    ensures Computable(f)
    ensures f.gardenArea.value != 0.0 && f.numPeople.value != 0
    ensures f.houseLength.value != 0.0 && f.houseWidth.value != 0.0 && f.roofType.value != 0.0
    ensures |f.zipCode| == 5
  {
  }

  /** A garden area, an occupant count or a runoff coefficient of zero is a missing field, whatever the postal
      code: the presence check comes first. */
  lemma ZeroIsMissing(f: FormData)
    requires f.gardenArea == Some(0.0) || f.numPeople == Some(0) || f.roofType == Some(0.0)
    ensures ValidateForm(f) == MissingField
  {
  }

  /** A present form with a postal code of the wrong length is rejected for its length. */
  lemma WrongLengthZip(f: FormData)
    requires AllRequiredPresent(f) && |f.zipCode| != 5
    ensures ValidateForm(f) == BadZipLength
  {
  }
}
