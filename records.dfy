/**
 * The data shapes of the ingestion pipeline: the raw CSV row (`CsvPropertyTransaction`),
 * the typed entity (`PropertyTransaction`) and the persister's summary (`InsertResult`).
 */
module Records {
  import opened Wrappers

  /** The fifteen canonical columns, in the order `CsvPropertyTransaction` declares them. */
  datatype Field =
    | PropertyType | District | Mukim | SchemeNameArea | RoadName | Tenure
    | LandParcelArea | Unit | MainFloorArea | UnitLevel | PropertyTypeStrata
    | Sector | State | TransactionPrice | TransactionDate

  /** The header name of each canonical column; the validator uses the same text as
      the field's label in its messages. */
  function Label(f: Field): string
  {
    match f
    case PropertyType => "Property Type"
    case District => "District"
    case Mukim => "Mukim"
    case SchemeNameArea => "Scheme Name/Area"
    case RoadName => "Road Name"
    case Tenure => "Tenure"
    case LandParcelArea => "Land/Parcel Area"
    case Unit => "Unit"
    case MainFloorArea => "Main Floor Area"
    case UnitLevel => "Unit Level"
    case PropertyTypeStrata => "Property Type (strata)"
    case Sector => "Sector"
    case State => "State"
    case TransactionPrice => "Transaction Price"
    case TransactionDate => "Transaction Date"
  }

  /** Distinct columns have distinct labels, so a header cell names at most one column. */
  lemma LabelInjective(f: Field, g: Field)
    requires Label(f) == Label(g)
    ensures f == g
  {
  }

  /** One data row as read from the file: every column is an optional string
      (`CsvPropertyTransaction`). Presence says nothing about validity. */
  datatype CsvRecord = CsvRecord(
    propertyType: Option<string>,
    district: Option<string>,
    mukim: Option<string>,
    schemeNameArea: Option<string>,
    roadName: Option<string>,
    tenure: Option<string>,
    landParcelArea: Option<string>,
    unit: Option<string>,
    mainFloorArea: Option<string>,
    unitLevel: Option<string>,
    propertyTypeStrata: Option<string>,
    sector: Option<string>,
    state: Option<string>,
    transactionPrice: Option<string>,
    transactionDate: Option<string>)
  {
    /** The value held for column `f`. */
    function Get(f: Field): Option<string>
    {
      match f
      case PropertyType => propertyType
      case District => district
      case Mukim => mukim
      case SchemeNameArea => schemeNameArea
      case RoadName => roadName
      case Tenure => tenure
      case LandParcelArea => landParcelArea
      case Unit => unit
      case MainFloorArea => mainFloorArea
      case UnitLevel => unitLevel
      case PropertyTypeStrata => propertyTypeStrata
      case Sector => sector
      case State => state
      case TransactionPrice => transactionPrice
      case TransactionDate => transactionDate
    }
  }

  /** A freshly constructed `CsvPropertyTransaction`: every property still null. */
  const EmptyRecord: CsvRecord :=
    CsvRecord(None, None, None, None, None, None, None, None, None, None, None, None, None, None, None)

  /** A `System.Decimal` as coefficient and scale: the value is `coefficient / 10^scale`,
      so "100.50" is (10050, 2). */
  datatype DecimalValue = DecimalValue(coefficient: int, scale: nat)

  /** A `DateTime` at midnight, on the proleptic Gregorian calendar. */
  datatype Date = Date(year: int, month: int, day: int)

  /** The typed entity handed to the persister (`PropertyTransaction`); the database
      key `Id` is assigned by the store and is not part of the model. */
  datatype PropertyTransaction = PropertyTransaction(
    propertyType: string,
    district: string,
    mukim: string,
    schemeNameArea: string,
    roadName: Option<string>,
    tenure: string,
    landParcelArea: Option<DecimalValue>,
    unit: Option<string>,
    mainFloorArea: DecimalValue,
    unitLevel: Option<string>,
    propertyTypeStrata: string,
    sector: string,
    state: string,
    transactionPrice: DecimalValue,
    transactionDate: Date)

  /** What the batch persister reports (`InsertResult`). */
  datatype InsertResult = InsertResult(recordsInserted: nat, errors: seq<string>)
}
