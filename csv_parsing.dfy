/**
 * `CsvParsingService`: turns the header and data rows of an uploaded file into one
 * `CsvRecord` per data row. Four columns ("Unit", "Main Floor Area", "Transaction Price",
 * "Transaction Date") are read through a resolver map built once from the header, which
 * picks the leftmost column whose trimmed name equals the canonical name; the others are
 * read by name, which also picks the leftmost matching column.
 */
module CsvParsing {
  import opened Wrappers
  import opened Text
  import opened Records

  /** What the CSV reader delivers from the stream: the stream's length in bytes, the
      header cells (an absent header record is an empty one) and the data rows, already
      split into fields, with the spaces around each field removed by the reader. */
  datatype CsvDocument = CsvDocument(byteLength: nat, header: seq<string>, rows: seq<seq<string>>)

  /** The keys of the duplicate-resolution dictionary, in the order it is declared. */
  const DuplicateKeys: seq<string> :=
    ["Unit", "Transaction Price", "Land/Parcel Area", "Transaction Date", "Main Floor Area"]

  /** The columns whose value the parser reads at the index the resolver chose. */
  predicate IsResolvedField(f: Field)
  {
    f == Unit || f == MainFloorArea || f == TransactionPrice || f == TransactionDate
  }

  /** The position of the first occurrence of `name` in `names`, if any. */
  function IndexOf(names: seq<string>, name: string): (r: Option<nat>)
    ensures r.Some? ==> r.value < |names| && names[r.value] == name
  {
    if names == [] then None
    else if names[0] == name then Some(0)
    else
      match IndexOf(names[1..], name)
      case None => None
      case Some(i) => Some(i + 1)
  }

  /** `IndexOf` finds the leftmost occurrence, and finds nothing exactly when the name
      does not occur. */
  lemma {:induction false} IndexOfLeftmost(names: seq<string>, name: string)
    ensures IndexOf(names, name).Some? ==> forall j :: 0 <= j < IndexOf(names, name).value ==> names[j] != name
    ensures IndexOf(names, name).None? <==> name !in names
  {
    if names != [] && names[0] != name {
      IndexOfLeftmost(names[1..], name);
      assert name in names <==> name in names[1..];
    }
  }

  /** The header cells as the resolver compares them: each one trimmed. */
  function TrimAll(header: seq<string>): (r: seq<string>)
    ensures |r| == |header|
    ensures forall i :: 0 <= i < |header| ==> r[i] == Trim(header[i])
  {
    seq(|header|, i requires 0 <= i < |header| => Trim(header[i]))
  }

  /** Every position, in increasing order, at which `key` occurs in `names`: the
      `List<int>` the resolver collects for one dictionary key. */
  function Positions(names: seq<string>, key: string): (r: seq<nat>)
    ensures forall j :: 0 <= j < |r| ==> r[j] < |names| && names[r[j]] == key
    ensures forall i :: 0 <= i < |names| && names[i] == key ==> i in r
    ensures forall a, b :: 0 <= a < b < |r| ==> r[a] < r[b]
  {
    if names == [] then []
    else
      var prev := Positions(names[..|names| - 1], key);
      assert forall i :: 0 <= i < |names| - 1 ==> names[..|names| - 1][i] == names[i];
      if names[|names| - 1] == key then prev + [|names| - 1] else prev
  }

  /** The first collected position is the leftmost occurrence. */
  lemma PositionsStartAtFirst(names: seq<string>, key: string)
    ensures Positions(names, key) != [] <==> key in names
    ensures Positions(names, key) != [] ==> IndexOf(names, key) == Some(Positions(names, key)[0])
  {
    var ps := Positions(names, key);
    IndexOfLeftmost(names, key);
    if key in names {
      var i := IndexOf(names, key).value;
      assert i in ps;
    }
  }

  /** Reading one more name extends the positions of its key by that name's index. */
  lemma PositionsStep(names: seq<string>, i: nat, key: string)
    requires i < |names|
    ensures Positions(names[..i + 1], key) ==
      if names[i] == key then Positions(names[..i], key) + [i] else Positions(names[..i], key)
  {
    assert names[..i + 1][..i] == names[..i];
  }

  /** `TryGetField(index)`: the cell at `col`, or nothing when there is no such column or
      the row is too short (missing fields are ignored, never an error). */
  function Cell(row: seq<string>, col: Option<nat>): (r: Option<string>)
    ensures r.Some? <==> col.Some? && col.value < |row|
    ensures r.Some? ==> r.value == row[col.value]
  {
    if col.Some? && col.value < |row| then Some(row[col.value]) else None
  }

  /** `TryGetField(name)`: the cell under the leftmost header equal to `name`. */
  function CellByName(header: seq<string>, row: seq<string>, name: string): Option<string>
  {
    Cell(row, IndexOf(header, name))
  }

  /** `TryGetValue(key, out index) && TryGetField(index)`: the cell at the index the
      resolver map holds for `key`, if it holds one and the row reaches it. */
  function ByResolver(row: seq<string>, resolvers: map<string, nat>, key: string): Option<string>
  {
    if key in resolvers then Cell(row, Some(resolvers[key])) else None
  }

  /** Where each canonical field of a row is read from, fixed once per header. */
  datatype ColumnLayout = ColumnLayout(
    propertyType: Option<nat>,
    district: Option<nat>,
    mukim: Option<nat>,
    schemeNameArea: Option<nat>,
    roadName: Option<nat>,
    tenure: Option<nat>,
    landParcelArea: Option<nat>,
    unit: Option<nat>,
    mainFloorArea: Option<nat>,
    unitLevel: Option<nat>,
    propertyTypeStrata: Option<nat>,
    sector: Option<nat>,
    state: Option<nat>,
    transactionPrice: Option<nat>,
    transactionDate: Option<nat>)
  {
    /** The column field `f` is read from. */
    function Get(f: Field): Option<nat>
    {
      match f
      case PropertyType => propertyType
      case District => district
      case Mukim => mukim
      case SchemeNameArea => schemeNameArea
      case RoadName => roadName
      case Tenure => tenure
      case LandParcelArea => landParcelArea
      case Unit => unit
      case MainFloorArea => mainFloorArea
      case UnitLevel => unitLevel
      case PropertyTypeStrata => propertyTypeStrata
      case Sector => sector
      case State => state
      case TransactionPrice => transactionPrice
      case TransactionDate => transactionDate
    }
  }

  /** The columns a header fixes: the leftmost column whose trimmed name is the label
      for the four resolved fields, the leftmost column carrying exactly the label for
      the others. */
  function Layout(header: seq<string>): ColumnLayout
  {
    var trimmed := TrimAll(header);
    ColumnLayout(
      IndexOf(header, "Property Type"),
      IndexOf(header, "District"),
      IndexOf(header, "Mukim"),
      IndexOf(header, "Scheme Name/Area"),
      IndexOf(header, "Road Name"),
      IndexOf(header, "Tenure"),
      IndexOf(header, "Land/Parcel Area"),
      IndexOf(trimmed, "Unit"),
      IndexOf(trimmed, "Main Floor Area"),
      IndexOf(header, "Unit Level"),
      IndexOf(header, "Property Type (strata)"),
      IndexOf(header, "Sector"),
      IndexOf(header, "State"),
      IndexOf(trimmed, "Transaction Price"),
      IndexOf(trimmed, "Transaction Date"))
  }

  /** The rule `Layout` follows, field by field. */
  lemma LayoutRule(header: seq<string>, f: Field)
    ensures IsResolvedField(f) ==> Layout(header).Get(f) == IndexOf(TrimAll(header), Label(f))
    ensures !IsResolvedField(f) ==> Layout(header).Get(f) == IndexOf(header, Label(f))
  {
  }

  /** The record holding, for each field, the row's cell at that field's column. */
  function ReadRow(layout: ColumnLayout, row: seq<string>): CsvRecord
  {
    CsvRecord(
      Cell(row, layout.propertyType),
      Cell(row, layout.district),
      Cell(row, layout.mukim),
      Cell(row, layout.schemeNameArea),
      Cell(row, layout.roadName),
      Cell(row, layout.tenure),
      Cell(row, layout.landParcelArea),
      Cell(row, layout.unit),
      Cell(row, layout.mainFloorArea),
      Cell(row, layout.unitLevel),
      Cell(row, layout.propertyTypeStrata),
      Cell(row, layout.sector),
      Cell(row, layout.state),
      Cell(row, layout.transactionPrice),
      Cell(row, layout.transactionDate))
  }

  /** The record the parser builds for one data row. */
  function RowRecord(header: seq<string>, row: seq<string>): CsvRecord
  {
    ReadRow(Layout(header), row)
  }

  /** The records of the given data rows, in order, read with one layout. */
  function ReadRows(layout: ColumnLayout, rows: seq<seq<string>>): (r: seq<CsvRecord>)
    ensures |r| == |rows|
    ensures forall k :: 0 <= k < |rows| ==> r[k] == ReadRow(layout, rows[k])
  {
    if rows == [] then []
    else ReadRows(layout, rows[..|rows| - 1]) + [ReadRow(layout, rows[|rows| - 1])]
  }

  /** Reading one more row appends its record. */
  lemma ReadRowsStep(layout: ColumnLayout, rows: seq<seq<string>>, i: nat)
    requires i < |rows|
    ensures ReadRows(layout, rows[..i + 1]) == ReadRows(layout, rows[..i]) + [ReadRow(layout, rows[i])]
  {
    assert rows[..i + 1][..i] == rows[..i];
  }

  /** The parser's specification: the three input errors, checked in this order, and
      otherwise one record per data row, in row order. */
  function Parse(doc: CsvDocument): Result<seq<CsvRecord>, string>
  {
    if doc.byteLength == 0 then Failure("CSV file is empty")
    else if |doc.header| == 0 then Failure("CSV must have a header row")
    else if |doc.rows| == 0 then Failure("CSV must have at least one data row")
    else Success(ReadRows(Layout(doc.header), doc.rows))
  }

  /** The resolver's groups after it has read the first `i` trimmed headers: one entry
      per dictionary key, holding the positions of that key among them. */
  ghost predicate GroupsAfter(groups: map<string, seq<nat>>, trimmed: seq<string>, i: nat)
    requires i <= |trimmed|
  {
    && (forall k :: k in groups <==> k in DuplicateKeys)
    && (forall k :: k in groups ==> groups[k] == Positions(trimmed[..i], k))
  }

  /** One turn of the grouping loop keeps the groups up to date. */
  lemma GroupsStep(groups: map<string, seq<nat>>, trimmed: seq<string>, i: nat)
    requires i < |trimmed| && GroupsAfter(groups, trimmed, i)
    ensures var header := trimmed[i];
      GroupsAfter(if header in groups then groups[header := groups[header] + [i]] else groups, trimmed, i + 1)
  {
    var header := trimmed[i];
    var next := if header in groups then groups[header := groups[header] + [i]] else groups;
    forall k | k in next
      ensures next[k] == Positions(trimmed[..i + 1], k)
    {
      PositionsStep(trimmed, i, k);
    }
  }

  /** The first loop of `GetDuplicateResolvers`: for each of the five dictionary keys,
      the positions of the columns whose trimmed header equals it, in column order. */
  method GroupDuplicateColumns(headers: seq<string>) returns (duplicateGroups: map<string, seq<nat>>)
    ensures forall k :: k in duplicateGroups <==> k in DuplicateKeys
    ensures forall k :: k in duplicateGroups ==> duplicateGroups[k] == Positions(TrimAll(headers), k)
  {
    var trimmed := TrimAll(headers);
    duplicateGroups :=
      map["Unit" := [], "Transaction Price" := [], "Land/Parcel Area" := [],
          "Transaction Date" := [], "Main Floor Area" := []];
    assert trimmed[..0] == [];
    for i := 0 to |headers|
      invariant GroupsAfter(duplicateGroups, trimmed, i)
    {
      var header := Trim(headers[i]);
      GroupsStep(duplicateGroups, trimmed, i);
      if header in duplicateGroups {
        duplicateGroups := duplicateGroups[header := duplicateGroups[header] + [i]];
      }
    }
    assert trimmed[..|headers|] == trimmed;
  }

  /** The resolvers after the second loop has visited the first `g` keys: an entry for
      each visited key with a non-empty group, holding that group's first position. */
  ghost predicate ResolversAfter(resolvers: map<string, nat>, groups: map<string, seq<nat>>, g: nat)
    requires g <= |DuplicateKeys|
  {
    && (forall k :: k in resolvers <==> k in DuplicateKeys[..g] && k in groups && groups[k] != [])
    && (forall k :: k in resolvers ==> k in groups && groups[k] != [] && resolvers[k] == groups[k][0])
  }

  /** One turn of the second loop keeps the resolvers up to date. */
  lemma ResolversStep(resolvers: map<string, nat>, groups: map<string, seq<nat>>, g: nat)
    requires g < |DuplicateKeys| && DuplicateKeys[g] in groups && ResolversAfter(resolvers, groups, g)
    ensures var key := DuplicateKeys[g];
      ResolversAfter(if |groups[key]| > 0 then resolvers[key := groups[key][0]] else resolvers, groups, g + 1)
  {
    assert DuplicateKeys[..g + 1] == DuplicateKeys[..g] + [DuplicateKeys[g]];
  }

  /** Once every key is visited, each resolver is the leftmost column of its key. */
  lemma ResolversAreLeftmost(resolvers: map<string, nat>, groups: map<string, seq<nat>>, trimmed: seq<string>)
    requires forall k :: k in groups <==> k in DuplicateKeys
    requires forall k :: k in groups ==> groups[k] == Positions(trimmed, k)
    requires ResolversAfter(resolvers, groups, |DuplicateKeys|)
    ensures forall k :: k in resolvers ==> k in DuplicateKeys
    ensures forall k :: k in DuplicateKeys ==> (k in resolvers <==> k in trimmed)
    ensures forall k :: k in resolvers ==> IndexOf(trimmed, k) == Some(resolvers[k])
  {
    assert DuplicateKeys[..|DuplicateKeys|] == DuplicateKeys;
    forall k | k in DuplicateKeys
      ensures k in resolvers <==> k in trimmed
      ensures k in resolvers ==> IndexOf(trimmed, k) == Some(resolvers[k])
    {
      PositionsStartAtFirst(trimmed, k);
    }
  }

  /** `GetDuplicateResolvers`: for each of the five dictionary keys, the leftmost column
      whose trimmed header equals the key; a key no column carries has no entry, and no
      other header (a synonym such as "Land Area") ever enters the map. */
  method GetDuplicateResolvers(headers: seq<string>) returns (resolvers: map<string, nat>)
    ensures forall k :: k in resolvers ==> k in DuplicateKeys
    ensures forall k :: k in DuplicateKeys ==> (k in resolvers <==> k in TrimAll(headers))
    ensures forall k :: k in resolvers ==> IndexOf(TrimAll(headers), k) == Some(resolvers[k])
  {
    var duplicateGroups := GroupDuplicateColumns(headers);
    resolvers := map[];
    for g := 0 to |DuplicateKeys|
      invariant ResolversAfter(resolvers, duplicateGroups, g)
    {
      var key := DuplicateKeys[g];
      ResolversStep(resolvers, duplicateGroups, g);
      if |duplicateGroups[key]| > 0 {
        resolvers := resolvers[key := duplicateGroups[key][0]];
      }
    }
    ResolversAreLeftmost(resolvers, duplicateGroups, TrimAll(headers));
  }

  /** `MapToCsvTransaction`: fills a fresh record field by field, the four resolved
      fields at the resolver's index and the others by name. A lookup that fails leaves
      the fresh record's property at null, so each property receives the lookup's
      outcome, absent or present. */
  method MapToCsvTransaction(headers: seq<string>, row: seq<string>, resolvers: map<string, nat>)
    returns (transaction: CsvRecord)
    ensures transaction.propertyType == CellByName(headers, row, "Property Type")
    ensures transaction.district == CellByName(headers, row, "District")
    ensures transaction.mukim == CellByName(headers, row, "Mukim")
    ensures transaction.schemeNameArea == CellByName(headers, row, "Scheme Name/Area")
    ensures transaction.roadName == CellByName(headers, row, "Road Name")
    ensures transaction.tenure == CellByName(headers, row, "Tenure")
    ensures transaction.landParcelArea == CellByName(headers, row, "Land/Parcel Area")
    ensures transaction.unit == ByResolver(row, resolvers, "Unit")
    ensures transaction.mainFloorArea == ByResolver(row, resolvers, "Main Floor Area")
    ensures transaction.unitLevel == CellByName(headers, row, "Unit Level")
    ensures transaction.propertyTypeStrata == CellByName(headers, row, "Property Type (strata)")
    ensures transaction.sector == CellByName(headers, row, "Sector")
    ensures transaction.state == CellByName(headers, row, "State")
    ensures transaction.transactionPrice == ByResolver(row, resolvers, "Transaction Price")
    ensures transaction.transactionDate == ByResolver(row, resolvers, "Transaction Date")
  {
    transaction := EmptyRecord;
    var value: Option<string>;

    value := CellByName(headers, row, "Property Type");
    transaction := transaction.(propertyType := value);
    value := CellByName(headers, row, "District");
    transaction := transaction.(district := value);
    value := CellByName(headers, row, "Mukim");
    transaction := transaction.(mukim := value);
    value := CellByName(headers, row, "Scheme Name/Area");
    transaction := transaction.(schemeNameArea := value);
    value := CellByName(headers, row, "Road Name");
    transaction := transaction.(roadName := value);
    value := CellByName(headers, row, "Tenure");
    transaction := transaction.(tenure := value);
    value := CellByName(headers, row, "Land/Parcel Area");
    transaction := transaction.(landParcelArea := value);

    if "Unit" in resolvers {
      value := Cell(row, Some(resolvers["Unit"]));
      transaction := transaction.(unit := value);
    }
    if "Main Floor Area" in resolvers {
      value := Cell(row, Some(resolvers["Main Floor Area"]));
      transaction := transaction.(mainFloorArea := value);
    }

    value := CellByName(headers, row, "Unit Level");
    transaction := transaction.(unitLevel := value);
    value := CellByName(headers, row, "Property Type (strata)");
    transaction := transaction.(propertyTypeStrata := value);
    value := CellByName(headers, row, "Sector");
    transaction := transaction.(sector := value);
    value := CellByName(headers, row, "State");
    transaction := transaction.(state := value);

    if "Transaction Price" in resolvers {
      value := Cell(row, Some(resolvers["Transaction Price"]));
      transaction := transaction.(transactionPrice := value);
    }
    if "Transaction Date" in resolvers {
      value := Cell(row, Some(resolvers["Transaction Date"]));
      transaction := transaction.(transactionDate := value);
    }
  }

  /** `ParseCsv`, with the lazy sequence materialised (its only caller lists it at once):
      an empty stream, a header with no cells and a header with no data rows are
      rejected in that order; otherwise there is exactly one record per data row, in
      order, read with a resolver map computed once before the first row. */
  method ParseCsv(csv: CsvDocument) returns (r: Result<seq<CsvRecord>, string>)
    ensures r == Parse(csv)
    ensures csv.byteLength == 0 ==> r == Failure("CSV file is empty")
    ensures r.Success? ==> |r.value| == |csv.rows| > 0
  {
    if csv.byteLength == 0 {
      return Failure("CSV file is empty");
    }
    var headers := csv.header;
    if |headers| == 0 {
      return Failure("CSV must have a header row");
    }
    var duplicateResolvers := GetDuplicateResolvers(headers);
    var records: seq<CsvRecord> := [];
    var hasData := false;
    var next := 0;
    while next < |csv.rows|
      invariant 0 <= next <= |csv.rows|
      invariant hasData <==> next > 0
      invariant records == ReadRows(Layout(headers), csv.rows[..next])
    {
      hasData := true;
      var transaction := MapToCsvTransaction(headers, csv.rows[next], duplicateResolvers);
      MappedRecordIsRowRecord(headers, csv.rows[next], duplicateResolvers, transaction);
      ReadRowsStep(Layout(headers), csv.rows, next);
      records := records + [transaction];
      next := next + 1;
    }
    if !hasData {
      return Failure("CSV must have at least one data row");
    }
    assert csv.rows[..next] == csv.rows;
    return Success(records);
  }

  /** A record filled as `MapToCsvTransaction` fills it, through a map with the
      resolver's guarantees, is the row's record. */
  lemma MappedRecordIsRowRecord(headers: seq<string>, row: seq<string>, resolvers: map<string, nat>, t: CsvRecord)
    requires forall k :: k in DuplicateKeys ==> (k in resolvers <==> k in TrimAll(headers))
    requires forall k :: k in resolvers ==> IndexOf(TrimAll(headers), k) == Some(resolvers[k])
    requires t.propertyType == CellByName(headers, row, "Property Type")
    requires t.district == CellByName(headers, row, "District")
    requires t.mukim == CellByName(headers, row, "Mukim")
    requires t.schemeNameArea == CellByName(headers, row, "Scheme Name/Area")
    requires t.roadName == CellByName(headers, row, "Road Name")
    requires t.tenure == CellByName(headers, row, "Tenure")
    requires t.landParcelArea == CellByName(headers, row, "Land/Parcel Area")
    requires t.unit == ByResolver(row, resolvers, "Unit")
    requires t.mainFloorArea == ByResolver(row, resolvers, "Main Floor Area")
    requires t.unitLevel == CellByName(headers, row, "Unit Level")
    requires t.propertyTypeStrata == CellByName(headers, row, "Property Type (strata)")
    requires t.sector == CellByName(headers, row, "Sector")
    requires t.state == CellByName(headers, row, "State")
    requires t.transactionPrice == ByResolver(row, resolvers, "Transaction Price")
    requires t.transactionDate == ByResolver(row, resolvers, "Transaction Date")
    ensures t == RowRecord(headers, row)
  {
    ResolverReadsTrimmedColumn(headers, row, resolvers, "Unit");
    ResolverReadsTrimmedColumn(headers, row, resolvers, "Main Floor Area");
    ResolverReadsTrimmedColumn(headers, row, resolvers, "Transaction Price");
    ResolverReadsTrimmedColumn(headers, row, resolvers, "Transaction Date");
  }

  /** Reading a key through a map with the resolver's guarantees reads the leftmost
      column whose trimmed name is that key. */
  lemma ResolverReadsTrimmedColumn(headers: seq<string>, row: seq<string>, resolvers: map<string, nat>, key: string)
    requires key in DuplicateKeys
    requires forall k :: k in DuplicateKeys ==> (k in resolvers <==> k in TrimAll(headers))
    requires forall k :: k in resolvers ==> IndexOf(TrimAll(headers), k) == Some(resolvers[k])
    ensures ByResolver(row, resolvers, key) == Cell(row, IndexOf(TrimAll(headers), key))
  {
    IndexOfLeftmost(TrimAll(headers), key);
  }

  /** The text of header cell `i` that field `f` is matched against: trimmed for the
      resolved fields, as read for the others. */
  function MatchedName(header: seq<string>, f: Field, i: nat): string
    requires i < |header|
  {
    if IsResolvedField(f) then Trim(header[i]) else header[i]
  }

  /** Each field is read from the leftmost column whose matched name is the field's
      label, and from no column when there is none; in particular, of several columns
      carrying the same label only the first is ever read. */
  lemma LayoutPicksLeftmost(header: seq<string>, f: Field)
    ensures Layout(header).Get(f).Some? ==>
      var i := Layout(header).Get(f).value;
      i < |header| && MatchedName(header, f, i) == Label(f) &&
      forall j :: 0 <= j < i ==> MatchedName(header, f, j) != Label(f)
    ensures Layout(header).Get(f).None? <==>
      forall j :: 0 <= j < |header| ==> MatchedName(header, f, j) != Label(f)
  {
    LayoutRule(header, f);
    var names := if IsResolvedField(f) then TrimAll(header) else header;
    IndexOfLeftmost(names, Label(f));
    assert forall j :: 0 <= j < |header| ==> names[j] == MatchedName(header, f, j);
  }

  /** A column whose name, trimmed or not, is no field's label (a synonym such as
      "Land Area", or "Month") is never read. */
  lemma UnlabelledColumnIsIgnored(header: seq<string>, i: nat, f: Field)
    requires i < |header|
    requires forall g :: header[i] != Label(g) && Trim(header[i]) != Label(g)
    ensures Layout(header).Get(f) != Some(i)
  {
    LayoutPicksLeftmost(header, f);
  }

  /** When no header cell carries surrounding white space, the resolver's trimmed
      comparison and the by-name lookup pick the same column for every field. */
  lemma TrimmedHeaderReadsByName(header: seq<string>, f: Field)
    requires forall i :: 0 <= i < |header| ==> IsTrimmed(header[i])
    ensures Layout(header).Get(f) == IndexOf(header, Label(f))
  {
    LayoutRule(header, f);
    TrimAllFixed(header);
  }

  /** Trimming a header whose cells are all trimmed changes nothing. */
  lemma TrimAllFixed(header: seq<string>)
    requires forall i :: 0 <= i < |header| ==> IsTrimmed(header[i])
    ensures TrimAll(header) == header
  {
    forall i | 0 <= i < |header|
      ensures TrimAll(header)[i] == header[i]
    {
      TrimFixedIff(header[i]);
    }
  }

  /** The position of a name whose earlier positions all differ from it. */
  lemma IndexOfAt(names: seq<string>, name: string, i: nat)
    requires i < |names| && names[i] == name
    requires forall j :: 0 <= j < i ==> names[j] != name
    ensures IndexOf(names, name) == Some(i)
  {
    IndexOfLeftmost(names, name);
  }

  /** A field of a row's record is absent exactly when its column is missing from the
      header or lies beyond the end of the row; otherwise it is that cell. */
  lemma RowRecordField(header: seq<string>, row: seq<string>, f: Field)
    ensures RowRecord(header, row).Get(f) == Cell(row, Layout(header).Get(f))
    ensures RowRecord(header, row).Get(f).None? <==>
      Layout(header).Get(f).None? || Layout(header).Get(f).value >= |row|
  {
    ReadRowGet(Layout(header), row, f);
  }

  /** The record read with a layout holds, for each field, the cell at its column. */
  lemma ReadRowGet(layout: ColumnLayout, row: seq<string>, f: Field)
    ensures ReadRow(layout, row).Get(f) == Cell(row, layout.Get(f))
  {
  }

  /** The parse succeeds exactly when the stream, the header and the data are all
      non-empty, and then yields one record per data row, in order. */
  lemma ParseOutcome(doc: CsvDocument)
    ensures Parse(doc).Success? <==> doc.byteLength > 0 && |doc.header| > 0 && |doc.rows| > 0
    ensures Parse(doc).Success? ==>
      |Parse(doc).value| == |doc.rows| &&
      forall k :: 0 <= k < |doc.rows| ==> Parse(doc).value[k] == RowRecord(doc.header, doc.rows[k])
  {
  }

  /** A reduced form of the duplicate-column test (the full thirteen-column row is
      covered by `LayoutPicksLeftmost`): a repeated "Unit" column is read from its
      first occurrence, and the synonym "Land Area" does not supply "Land/Parcel Area". */
  lemma DuplicateColumnExample()
    ensures RowRecord(["Unit", "Land Area", "Unit"], ["Unit A", "250.00", "Unit B"]).unit == Some("Unit A")
    ensures RowRecord(["Unit", "Land Area", "Unit"], ["Unit A", "250.00", "Unit B"]).landParcelArea == None
  {
    var h := ["Unit", "Land Area", "Unit"];
    assert IsTrimmed(h[0]) && IsTrimmed(h[1]) && IsTrimmed(h[2]);
    TrimAllFixed(h);
    IndexOfAt(h, "Unit", 0);
    IndexOfLeftmost(h, "Land/Parcel Area");
  }
}
