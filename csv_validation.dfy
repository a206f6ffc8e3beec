/**
 * Row validation and conversion (`CsvValidationService`): the ordered list of error
 * messages a raw row produces, and the conversion of a row into the typed entity.
 */
module CsvValidation {
  import opened Wrappers
  import opened Text
  import opened Records
  import opened InvariantFormats

  // ------------------------------------------------------------------ the rules

  /** One check of the validator: a required field must not be blank, a numeric
      field must parse as an invariant decimal, the date must be "dd/MM/yyyy". */
  datatype Rule = Required(field: Field) | Numeric(field: Field) | DateFormat

  /** Every check, in the order the validator runs them: the eleven required
      fields, then the three numbers, then the date. */
  const Rules: seq<Rule> := [
    Required(PropertyType), Required(District), Required(Mukim), Required(SchemeNameArea),
    Required(Tenure), Required(MainFloorArea), Required(PropertyTypeStrata), Required(Sector),
    Required(State), Required(TransactionPrice), Required(TransactionDate),
    Numeric(LandParcelArea), Numeric(MainFloorArea), Numeric(TransactionPrice),
    DateFormat]

  /** The required checks. */
  const RequiredRules: seq<Rule> := Rules[..11]

  /** The number checks. */
  const NumberRules: seq<Rule> := Rules[11..14]

  /** Whether `rule` reports an error for row `t`. A number check is skipped for a blank
      value (the required check covers it) and, for the land area only, for the
      sentinel "-"; the date check is skipped for a blank date. */
  predicate Fails(rule: Rule, t: CsvRecord)
  {
    match rule
    case Required(f) => IsBlank(t.Get(f))
    case Numeric(f) =>
      var v := t.Get(f);
      !IsBlank(v) && !(f == LandParcelArea && v == Some("-")) && !IsDecimal(v.value)
    case DateFormat =>
      !IsBlank(t.transactionDate) && ParseDate(t.transactionDate.value).None?
  }

  /** The message a failing check reports. */
  function Message(rule: Rule): string
  {
    match rule
    case Required(f) => Label(f) + " is required"
    case Numeric(f) => Label(f) + " must be a valid number"
    case DateFormat => "Transaction Date must be in dd/MM/yyyy format"
  }

  /** What one check contributes to the error list. */
  function Check(rule: Rule, t: CsvRecord): (r: seq<string>)
    ensures |r| <= 1
  {
    if Fails(rule, t) then [Message(rule)] else []
  }

  /** The messages of the failing checks among `rules`, in the order of `rules`:
      every check runs, none short-circuits the others. */
  function Violations(rules: seq<Rule>, t: CsvRecord): (r: seq<string>)
    ensures |r| <= |rules|
  {
    if rules == [] then []
    else Violations(rules[..|rules| - 1], t) + Check(rules[|rules| - 1], t)
  }

  /** One required-field block: "<Label> is required" when the value is null, empty
      or white space. */
  method CheckRequired(errors: seq<string>, t: CsvRecord, f: Field) returns (r: seq<string>)
    ensures r == errors + Check(Required(f), t)
  {
    r := errors;
    if IsBlank(t.Get(f)) {
      r := r + [Label(f) + " is required"];
    }
  }

  /** One number block: a present value (for the land area, also one other than "-")
      that `decimal.TryParse` rejects adds "<Label> must be a valid number". */
  method CheckNumber(errors: seq<string>, t: CsvRecord, f: Field) returns (r: seq<string>)
    ensures r == errors + Check(Numeric(f), t)
  {
    r := errors;
    var v := t.Get(f);
    if !IsBlank(v) && !(f == LandParcelArea && v == Some("-")) {
      if !IsDecimal(v.value) {
        r := r + [Label(f) + " must be a valid number"];
      }
    }
  }

  /** The date block: a present date that is not an exact "dd/MM/yyyy" calendar date. */
  method CheckDate(errors: seq<string>, t: CsvRecord) returns (r: seq<string>)
    ensures r == errors + Check(DateFormat, t)
  {
    r := errors;
    if !IsBlank(t.transactionDate) {
      if ParseDate(t.transactionDate.value).None? {
        r := r + ["Transaction Date must be in dd/MM/yyyy format"];
      }
    }
  }

  /** Running one more check of the list adds what that check contributes. */
  lemma ViolationsPrefix(rules: seq<Rule>, k: nat, t: CsvRecord)
    requires k < |rules|
    ensures Violations(rules[..k + 1], t) == Violations(rules[..k], t) + Check(rules[k], t)
  {
    assert rules[..k + 1][..k] == rules[..k];
  }

  /** The eleven required-field blocks of `ValidateCsvTransaction`, in source order. */
  method CheckRequiredFields(t: CsvRecord) returns (errors: seq<string>)
    ensures errors == Violations(RequiredRules, t)
  {
    errors := [];
    assert Violations(Rules[..0], t) == [];
    errors := CheckRequired(errors, t, PropertyType);
    ViolationsPrefix(Rules, 0, t);
    errors := CheckRequired(errors, t, District);
    ViolationsPrefix(Rules, 1, t);
    errors := CheckRequired(errors, t, Mukim);
    ViolationsPrefix(Rules, 2, t);
    errors := CheckRequired(errors, t, SchemeNameArea);
    ViolationsPrefix(Rules, 3, t);
    errors := CheckRequired(errors, t, Tenure);
    ViolationsPrefix(Rules, 4, t);
    errors := CheckRequired(errors, t, MainFloorArea);
    ViolationsPrefix(Rules, 5, t);
    errors := CheckRequired(errors, t, PropertyTypeStrata);
    ViolationsPrefix(Rules, 6, t);
    errors := CheckRequired(errors, t, Sector);
    ViolationsPrefix(Rules, 7, t);
    errors := CheckRequired(errors, t, State);
    ViolationsPrefix(Rules, 8, t);
    errors := CheckRequired(errors, t, TransactionPrice);
    ViolationsPrefix(Rules, 9, t);
    errors := CheckRequired(errors, t, TransactionDate);
    ViolationsPrefix(Rules, 10, t);
  }

  /** `ValidateCsvTransaction`: runs every check on the row, none short-circuiting
      another, and returns the messages of those that fail in the order the checks
      are written: required fields, then numbers, then the date. */
  method ValidateCsvTransaction(t: CsvRecord) returns (errors: seq<string>)
    ensures errors == Violations(Rules, t)
  {
    errors := CheckRequiredFields(t);
    assert Rules[..11] == RequiredRules;
    errors := CheckNumber(errors, t, LandParcelArea);
    ViolationsPrefix(Rules, 11, t);
    errors := CheckNumber(errors, t, MainFloorArea);
    ViolationsPrefix(Rules, 12, t);
    errors := CheckNumber(errors, t, TransactionPrice);
    ViolationsPrefix(Rules, 13, t);
    errors := CheckDate(errors, t);
    ViolationsPrefix(Rules, 14, t);
    assert Rules[..15] == Rules;
  }

  // ------------------------------------------------- properties of the error list

  /** The list is empty exactly when every check passes. */
  lemma {:induction false} ViolationsEmptyIff(rules: seq<Rule>, t: CsvRecord)
    ensures Violations(rules, t) == [] <==> forall i :: 0 <= i < |rules| ==> !Fails(rules[i], t)
  {
    if rules != [] {
      var n := |rules| - 1;
      ViolationsEmptyIff(rules[..n], t);
      assert forall i :: 0 <= i < n ==> rules[..n][i] == rules[i];
    }
  }

  /** The three number checks, in order. */
  lemma NumberViolations(t: CsvRecord)
    ensures Violations(NumberRules, t)
         == Check(Numeric(LandParcelArea), t) + Check(Numeric(MainFloorArea), t) + Check(Numeric(TransactionPrice), t)
  {
    assert NumberRules[..0] == [];
    ViolationsPrefix(NumberRules, 0, t);
    ViolationsPrefix(NumberRules, 1, t);
    ViolationsPrefix(NumberRules, 2, t);
    assert NumberRules[..3] == NumberRules;
  }

  /** The first fourteen checks: the required ones, then the number ones. */
  lemma RequiredThenNumbers(t: CsvRecord)
    ensures Violations(Rules[..14], t) == Violations(RequiredRules, t) + Violations(NumberRules, t)
  {
    NumberViolations(t);
    ViolationsPrefix(Rules, 11, t);
    ViolationsPrefix(Rules, 12, t);
    ViolationsPrefix(Rules, 13, t);
    Regroup(Violations(RequiredRules, t), Check(Rules[11], t), Check(Rules[12], t), Check(Rules[13], t));
  }

  /** Concatenation regrouped, stated apart so that it is proved once for any lists
      rather than for the error lists themselves. */
  lemma Regroup<T>(a: seq<T>, b: seq<T>, c: seq<T>, d: seq<T>)
    ensures a + b + c + d == a + (b + c + d)
  {
  }

  /** The error list is the required-field errors, then the number errors, then the
      date error. */
  lemma ErrorsAreGrouped(t: CsvRecord)
    ensures Violations(Rules, t)
         == Violations(RequiredRules, t) + Violations(NumberRules, t) + Check(DateFormat, t)
  {
    RequiredThenNumbers(t);
    ViolationsPrefix(Rules, 14, t);
    assert Rules[..15] == Rules;
  }

  /** Every message of a required check ends in 'd', of a number check in 'r', and
      the date message in 't'; within a kind the label tells them apart. */
  lemma MessageInjective(a: Rule, b: Rule)
    requires Message(a) == Message(b)
    ensures a == b
  {
    var m := Message(a);
    match a
    case Required(f) =>
      assert m[|m| - 1] == 'd';
      if b.Required? {
        assert Label(f) == m[..|m| - 12] == Label(b.field);
        LabelInjective(f, b.field);
      }
    case Numeric(f) =>
      assert m[|m| - 1] == 'r';
      if b.Numeric? {
        assert Label(f) == m[..|m| - 23] == Label(b.field);
        LabelInjective(f, b.field);
      }
    case DateFormat =>
      assert m[|m| - 1] == 't';
  }

  /** No check appears twice in the validator's list. */
  predicate Distinct(rules: seq<Rule>)
  {
    forall i, j :: 0 <= i < j < |rules| ==> rules[i] != rules[j]
  }

  lemma RulesDistinct()
    ensures Distinct(Rules)
  {
  }

  /** A check that occurs once in `rules` contributes its message exactly once when it
      fails and not at all when it passes; no other check produces the same text. */
  lemma {:induction false} MessageCount(rules: seq<Rule>, rule: Rule, t: CsvRecord)
    requires Distinct(rules)
    ensures multiset(Violations(rules, t))[Message(rule)]
         == if rule in rules && Fails(rule, t) then 1 else 0
  {
    if rules != [] {
      var n := |rules| - 1;
      assert rules == rules[..n] + [rules[n]];
      MessageCount(rules[..n], rule, t);
      assert multiset(Violations(rules, t))
          == multiset(Violations(rules[..n], t)) + multiset(Check(rules[n], t));
      if rules[n] == rule {
        assert rule !in rules[..n];
      } else if Fails(rules[n], t) && Message(rules[n]) == Message(rule) {
        MessageInjective(rules[n], rule);
      }
    }
  }

  /** A blank or white-space required field adds exactly one "<Label> is required";
      a present one adds none. */
  lemma RequiredErrorOnce(t: CsvRecord, f: Field)
    requires Required(f) in Rules
    ensures multiset(Violations(Rules, t))[Label(f) + " is required"] == if IsBlank(t.Get(f)) then 1 else 0
  {
    RulesDistinct();
    MessageCount(Rules, Required(f), t);
  }

  /** Each number check adds its "<Label> must be a valid number" exactly once when it
      fails; a blank value adds no number error (only the required error, for a
      required column), and the land area's sentinel "-" adds nothing. */
  lemma NumberErrorOnce(t: CsvRecord, f: Field)
    requires Numeric(f) in Rules
    ensures multiset(Violations(Rules, t))[Label(f) + " must be a valid number"]
         == if Fails(Numeric(f), t) then 1 else 0
    ensures IsBlank(t.Get(f)) ==> multiset(Violations(Rules, t))[Label(f) + " must be a valid number"] == 0
    ensures f == LandParcelArea && t.landParcelArea == Some("-")
            ==> multiset(Violations(Rules, t))[Label(f) + " must be a valid number"] == 0
  {
    RulesDistinct();
    MessageCount(Rules, Numeric(f), t);
  }

  /** The date error appears once exactly when a present date is not an exact
      "dd/MM/yyyy" calendar date. */
  lemma DateErrorOnce(t: CsvRecord)
    ensures multiset(Violations(Rules, t))["Transaction Date must be in dd/MM/yyyy format"]
         == if !IsBlank(t.transactionDate) && ParseDate(t.transactionDate.value).None? then 1 else 0
  {
    RulesDistinct();
    MessageCount(Rules, DateFormat, t);
  }

  /** The column a check reads. */
  function Column(rule: Rule): Field
  {
    if rule.DateFormat? then TransactionDate else rule.field
  }

  /** Whether a check's outcome depends on the row only through its column. */
  lemma FailsReadsColumn(rule: Rule, t: CsvRecord, u: CsvRecord)
    requires t.Get(Column(rule)) == u.Get(Column(rule))
    ensures Fails(rule, t) == Fails(rule, u)
  {
    assert rule.DateFormat? ==> t.transactionDate == u.transactionDate;
  }

  /** Road Name, Unit and Unit Level are never checked: two rows that agree on every
      other column get the same error list. */
  lemma {:induction false} UncheckedColumnsNeverMatter(rules: seq<Rule>, t: CsvRecord, u: CsvRecord)
    requires forall i :: 0 <= i < |rules| ==> Column(rules[i]) !in {RoadName, Unit, UnitLevel}
    requires forall f :: f !in {RoadName, Unit, UnitLevel} ==> t.Get(f) == u.Get(f)
    ensures Violations(rules, t) == Violations(rules, u)
  {
    if rules != [] {
      var n := |rules| - 1;
      UncheckedColumnsNeverMatter(rules[..n], t, u);
      FailsReadsColumn(rules[n], t, u);
    }
  }

  /** The validator's own list never reads the unchecked columns. */
  lemma RulesSkipUncheckedColumns()
    ensures forall i :: 0 <= i < |Rules| ==> Column(Rules[i]) !in {RoadName, Unit, UnitLevel}
  {
  }

  /** The rows the validator accepts, column by column: every required column
      present, every present number parsing (the land area may also be "-"), and a
      present date being an exact "dd/MM/yyyy" calendar date. */
  predicate AcceptedRow(t: CsvRecord)
  {
    RequiredPresent(t) && NumbersParse(t) && DateParses(t)
  }

  predicate NumbersParse(t: CsvRecord)
  {
    && (IsBlank(t.landParcelArea) || t.landParcelArea == Some("-") || IsDecimal(t.landParcelArea.value))
    && (IsBlank(t.mainFloorArea) || IsDecimal(t.mainFloorArea.value))
    && (IsBlank(t.transactionPrice) || IsDecimal(t.transactionPrice.value))
  }

  predicate DateParses(t: CsvRecord)
  {
    IsBlank(t.transactionDate) || ParseDate(t.transactionDate.value).Some?
  }

  /** The columns the validator requires, in the order it checks them. */
  const RequiredFields: seq<Field> := [
    PropertyType, District, Mukim, SchemeNameArea, Tenure, MainFloorArea,
    PropertyTypeStrata, Sector, State, TransactionPrice, TransactionDate]

  /** Every required column holds something other than white space. */
  predicate RequiredPresent(t: CsvRecord)
  {
    forall i :: 0 <= i < |RequiredFields| ==> !IsBlank(t.Get(RequiredFields[i]))
  }

  lemma RequiredRulesCheckRequiredFields()
    ensures |RequiredRules| == |RequiredFields|
    ensures forall i :: 0 <= i < |RequiredRules| ==> RequiredRules[i] == Required(RequiredFields[i])
  {
  }

  /** The required checks all pass exactly when every required column is present. */
  lemma RequiredPass(t: CsvRecord)
    ensures Violations(RequiredRules, t) == [] <==> RequiredPresent(t)
  {
    ViolationsEmptyIff(RequiredRules, t);
    RequiredRulesCheckRequiredFields();
  }

  /** The number checks all pass exactly when the land area is blank, "-" or a
      number, and both required numbers parse or are blank. */
  lemma NumbersPass(t: CsvRecord)
    ensures Violations(NumberRules, t) == [] <==> NumbersParse(t)
  {
    NumberViolations(t);
  }

  /** The error list is empty exactly for the accepted rows. */
  lemma ValidIff(t: CsvRecord)
    ensures Violations(Rules, t) == [] <==> AcceptedRow(t)
  {
    ErrorsAreGrouped(t);
    RequiredPass(t);
    NumbersPass(t);
  }

  /** On an accepted row both required numbers and the date are present and parse. */
  lemma AcceptedRowParses(t: CsvRecord)
    requires AcceptedRow(t)
    ensures t.mainFloorArea.Some? && IsDecimal(t.mainFloorArea.value)
    ensures t.transactionPrice.Some? && IsDecimal(t.transactionPrice.value)
    ensures t.transactionDate.Some? && ParseDate(t.transactionDate.value).Some?
  {
    assert !IsBlank(t.Get(RequiredFields[5])) && !IsBlank(t.Get(RequiredFields[9]));
    assert !IsBlank(t.Get(RequiredFields[10]));
  }

  /** The numbers and the date of the example rows. */
  lemma ExampleValuesParse()
    ensures ParseDecimal("200.00") == Some(DecimalValue(20000, 2))
    ensures ParseDecimal("500000.00").Some?
    ensures ParseDate("01/01/2023") == Some(Date(2023, 1, 1))
  {
    FloorAreaExample();
    PriceExample();
    DateExamples();
  }

  lemma FloorAreaExample()
    ensures ParseDecimal("200.00") == Some(DecimalValue(20000, 2))
  {
    ParseCanonical(false, "200", "00");
    assert DecimalText(false, "200", "00") == "200.00";
    assert DigitsValue("200") == 200 && DigitsValue("00") == 0;
    assert CanonicalValue(false, "200", "00") == DecimalValue(20000, 2);
  }

  lemma PriceExample()
    ensures ParseDecimal("500000.00").Some?
  {
    ParseCanonical(false, "500000", "00");
    assert DecimalText(false, "500000", "00") == "500000.00";
  }

  /** An ISO date is rejected by the date check. */
  lemma IsoDateRejected(t: CsvRecord)
    requires t.transactionDate == Some("2023-01-01")
    ensures "Transaction Date must be in dd/MM/yyyy format" in Violations(Rules, t)
  {
    assert !HasDateShape("2023-01-01");
    DateErrorOnce(t);
  }

  // ------------------------------------------------------------------ conversion

  /** The treatment of Road Name and Unit Level: null when blank or white space,
      otherwise the text unchanged (so "-" is kept). */
  function OptionalText(s: Option<string>): (r: Option<string>)
    ensures r.None? <==> IsBlank(s)
    ensures r.Some? ==> r == s
  {
    if IsBlank(s) then None else s
  }

  /** The treatment of Unit: null only when it is exactly "-" (or absent); a blank
      string is kept. */
  function UnitValue(s: Option<string>): (r: Option<string>)
    ensures r.None? <==> s.None? || s == Some("-")
    ensures r.Some? ==> r == s
  {
    if s == Some("-") then None else s
  }

  /** `ParseNullableDecimal`: null for a blank value or the sentinel "-", the parsed
      value when it parses, and null otherwise. */
  function ParseNullableDecimal(s: Option<string>): (r: Option<DecimalValue>)
  {
    if IsBlank(s) || s == Some("-") then None
    else ParseDecimal(s.value)
  }

  /** The sentinel guards of `ParseNullableDecimal` change nothing: neither a blank
      string nor "-" is a number, so it is `decimal.TryParse` on the value, with null
      for a failed parse. */
  lemma ParseNullableDecimalIsTryParse(s: Option<string>)
    ensures ParseNullableDecimal(s) == if s.None? then None else ParseDecimal(s.value)
    ensures ParseNullableDecimal(s).Some? <==> s.Some? && IsDecimal(s.value)
  {
    if s == Some("-") {
      SentinelsAreNotDecimals("-");
    }
  }

  /** Why the conversion of a row throws: a null reached `decimal.Parse` or
      `DateTime.ParseExact` (`ArgumentNullException`), or the text did not parse
      (`FormatException`). */
  datatype ConversionError = NullArgument(field: Field) | BadFormat(field: Field)

  /** The text of the exception, as the .NET runtime words it. */
  function ExceptionMessage(e: ConversionError): string
  {
    match e
    case NullArgument(_) => "Value cannot be null. (Parameter 's')"
    case BadFormat(TransactionDate) => "String was not recognized as a valid DateTime."
    case BadFormat(_) => "The input string was not in a correct format."
  }

  /** The text columns the entity copies with the null-forgiving operator. */
  predicate HasRequiredText(t: CsvRecord)
  {
    t.propertyType.Some? && t.district.Some? && t.mukim.Some? && t.schemeNameArea.Some?
    && t.tenure.Some? && t.propertyTypeStrata.Some? && t.sector.Some? && t.state.Some?
  }

  /** `decimal.Parse(s!, NumberStyles.Number, InvariantCulture)`. */
  function ParseRequiredDecimal(f: Field, s: Option<string>): (r: Result<DecimalValue, ConversionError>)
    ensures r.Success? <==> s.Some? && IsDecimal(s.value)
    ensures r.Success? ==> Some(r.value) == ParseDecimal(s.value)
    ensures r.Failure? ==> r.error.field == f
  {
    if s.None? then Failure(NullArgument(f))
    else match ParseDecimal(s.value)
      case None => Failure(BadFormat(f))
      case Some(d) => Success(d)
  }

  /** `DateTime.ParseExact(s!, "dd/MM/yyyy", InvariantCulture)`. */
  function ParseRequiredDate(s: Option<string>): (r: Result<Date, ConversionError>)
    ensures r.Success? <==> s.Some? && ParseDate(s.value).Some?
    ensures r.Success? ==> Some(r.value) == ParseDate(s.value) && IsValidDate(r.value)
    ensures r.Failure? ==> r.error.field == TransactionDate
  {
    if s.None? then Failure(NullArgument(TransactionDate))
    else match ParseDate(s.value)
      case None => Failure(BadFormat(TransactionDate))
      case Some(d) => Success(d)
  }

  /** `ConvertToEntity`: builds the entity, evaluating the initialiser in source
      order, so the first throwing parse (floor area, then price, then date) is the
      one reported. */
  function ConvertToEntity(t: CsvRecord): (r: Result<PropertyTransaction, ConversionError>)
    requires HasRequiredText(t)
  {
    match ParseRequiredDecimal(MainFloorArea, t.mainFloorArea)
    case Failure(e) => Failure(e)
    case Success(floorArea) =>
      match ParseRequiredDecimal(TransactionPrice, t.transactionPrice)
      case Failure(e) => Failure(e)
      case Success(price) =>
        match ParseRequiredDate(t.transactionDate)
        case Failure(e) => Failure(e)
        case Success(date) =>
          Success(PropertyTransaction(
            t.propertyType.value, t.district.value, t.mukim.value, t.schemeNameArea.value,
            OptionalText(t.roadName), t.tenure.value, ParseNullableDecimal(t.landParcelArea),
            UnitValue(t.unit), floorArea, OptionalText(t.unitLevel),
            t.propertyTypeStrata.value, t.sector.value, t.state.value, price, date))
  }

  /** The conversion succeeds exactly when both required numbers and the date parse,
      and the entity then carries the row's values: text copied, optional columns
      with their sentinels removed, numbers and date as parsed. */
  lemma ConvertToEntityFields(t: CsvRecord)
    requires HasRequiredText(t)
    ensures ConvertToEntity(t).Success?
        <==> t.mainFloorArea.Some? && IsDecimal(t.mainFloorArea.value)
             && t.transactionPrice.Some? && IsDecimal(t.transactionPrice.value)
             && t.transactionDate.Some? && ParseDate(t.transactionDate.value).Some?
    ensures ConvertToEntity(t).Success? ==>
              var e := ConvertToEntity(t).value;
              && Some(e.propertyType) == t.propertyType && Some(e.district) == t.district
              && Some(e.mukim) == t.mukim && Some(e.schemeNameArea) == t.schemeNameArea
              && Some(e.tenure) == t.tenure && Some(e.propertyTypeStrata) == t.propertyTypeStrata
              && Some(e.sector) == t.sector && Some(e.state) == t.state
              && e.roadName == OptionalText(t.roadName) && e.unitLevel == OptionalText(t.unitLevel)
              && e.unit == UnitValue(t.unit)
              && e.landParcelArea == ParseNullableDecimal(t.landParcelArea)
              && Some(e.mainFloorArea) == ParseDecimal(t.mainFloorArea.value)
              && Some(e.transactionPrice) == ParseDecimal(t.transactionPrice.value)
              && Some(e.transactionDate) == ParseDate(t.transactionDate.value)
    ensures ConvertToEntity(t).Failure? ==>
              ConvertToEntity(t).error.field in {MainFloorArea, TransactionPrice, TransactionDate}
  {
  }

  /** A row the validator accepts carries every required text column and converts
      without throwing, so "Error converting row" never follows a clean validation
      (within the decimal range, which the model does not bound). */
  lemma ValidRowConverts(t: CsvRecord)
    requires Violations(Rules, t) == []
    ensures HasRequiredText(t)
    ensures ConvertToEntity(t).Success?
  {
    ViolationsEmptyIff(Rules, t);
    ValidRowHasRequiredText(t);
    ConvertToEntityFields(t);
    assert !Fails(Rules[12], t) && !Fails(Rules[13], t) && !Fails(Rules[14], t);
  }

  lemma ValidRowHasRequiredText(t: CsvRecord)
    requires forall i :: 0 <= i < |Rules| ==> !Fails(Rules[i], t)
    ensures HasRequiredText(t)
    ensures !IsBlank(t.mainFloorArea) && !IsBlank(t.transactionPrice) && !IsBlank(t.transactionDate)
  {
    assert !Fails(Rules[0], t) && !Fails(Rules[1], t) && !Fails(Rules[2], t) && !Fails(Rules[3], t);
    assert !Fails(Rules[4], t) && !Fails(Rules[5], t) && !Fails(Rules[6], t) && !Fails(Rules[7], t);
    assert !Fails(Rules[8], t) && !Fails(Rules[9], t) && !Fails(Rules[10], t);
  }

  /** The conversion of a complete row: "01/01/2023" becomes 1 January 2023,
      "200.00" becomes 200.00, and the dash and empty optional columns become null. */
  lemma ConvertExample()
    ensures var t := CsvRecord(
              Some("Apartment"), Some("Kuala Lumpur"), Some("Bukit Bintang"), Some("KLCC"),
              Some(""), Some("Freehold"), Some("-"), Some("-"), Some("200.00"), Some(""),
              Some("Strata"), Some("Commercial"), Some("Selangor"), Some("500000.00"), Some("01/01/2023"));
            var r := ConvertToEntity(t);
            && r.Success?
            && r.value.transactionDate == Date(2023, 1, 1)
            && r.value.mainFloorArea == DecimalValue(20000, 2)
            && r.value.roadName.None? && r.value.landParcelArea.None?
            && r.value.unit.None? && r.value.unitLevel.None?
  {
    ExampleValuesParse();
  }
}
