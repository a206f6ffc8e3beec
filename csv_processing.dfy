/**
 * `CsvProcessingService.ProcessFromS3Async`: validates the bucket and key, checks that
 * the object exists, fetches and parses it, validates and converts each row, and hands
 * the converted rows to the batch persister unless every row was rejected.
 */
module CsvProcessing {
  import opened Wrappers
  import opened Text
  import opened Records
  import opened S3Path
  import opened CsvParsing
  import opened CsvValidation
  import opened BatchPersistence

  /** The exceptions the service lets escape. */
  datatype ProcessError =
    | InvalidArgument(argument: ArgumentError)
    | FileNotFound(message: string)
    | InvalidOperation(message: string)

  /** `CsvProcessingResult`. */
  datatype CsvProcessingResult = CsvProcessingResult(
    recordsProcessed: nat,
    recordsInserted: nat,
    validationErrors: seq<string>,
    insertErrors: seq<string>)
  {
    /** Either error list is non-empty. */
    predicate HasErrors()
    {
      validationErrors != [] || insertErrors != []
    }
  }

  // ------------------------------------------------------------------ storage

  /** The object store behind `IS3StorageService`: the documents it holds, keyed by
      bucket and key, and the number of requests it has served. */
  class S3Storage {
    const objects: map<(string, string), CsvDocument>
    var requests: nat

    constructor (objects: map<(string, string), CsvDocument>)
      ensures this.objects == objects && requests == 0
    {
      this.objects := objects;
      requests := 0;
    }

    /** `FileExistsAsync`. */
    method FileExists(bucketName: string, fileKey: string) returns (found: bool)
      modifies this
      ensures found <==> (bucketName, fileKey) in objects
      ensures requests == old(requests) + 1
    {
      found := (bucketName, fileKey) in objects;
      requests := requests + 1;
    }

    /** `GetFileStreamAsync`, for an object known to exist. */
    method GetFile(bucketName: string, fileKey: string) returns (doc: CsvDocument)
      requires (bucketName, fileKey) in objects
      modifies this
      ensures doc == objects[(bucketName, fileKey)]
      ensures requests == old(requests) + 1
    {
      doc := objects[(bucketName, fileKey)];
      requests := requests + 1;
    }
  }

  // ------------------------------------------------------------ the specification

  /** The valid entities and the error messages gathered by the row loop. */
  datatype Triage = Triage(entities: seq<PropertyTransaction>, errors: seq<string>)

  /** The message recorded when a conversion throws. */
  function ConversionErrorText(e: ConversionError): string
  {
    "Error converting row: " + ExceptionMessage(e)
  }

  /** The message of the abort when no row survived: at most the first ten errors. */
  function AbortMessage(errors: seq<string>): string
  {
    "All rows contain validation errors: " + Join(", ", Take(errors, 10))
  }

  /** A row with no validation error carries every column the conversion copies. */
  lemma CleanRowHasRequiredText(t: CsvRecord)
    requires RowErrors(t) == []
    ensures HasRequiredText(t)
  {
    ViolationsEmptyIff(Rules, t);
    ValidRowHasRequiredText(t);
  }

  /** The validation errors of one row, as `ValidateCsvTransaction` returns them. */
  function RowErrors(t: CsvRecord): seq<string>
  {
    Violations(Rules, t)
  }

  /** A row the validator accepts. */
  predicate IsClean(t: CsvRecord)
  {
    RowErrors(t) == []
  }

  /** The row loop over `rows`: a row with errors adds all of them; a clean row adds
      its entity, or one conversion error if the conversion throws. */
  function TriageRows(rows: seq<CsvRecord>): Triage
  {
    if rows == [] then Triage([], [])
    else
      var n := |rows| - 1;
      var t := rows[n];
      var before := TriageRows(rows[..n]);
      var errors := RowErrors(t);
      if errors != [] then Triage(before.entities, before.errors + errors)
      else
        CleanRowHasRequiredText(t);
        match ConvertToEntity(t)
        case Success(e) => Triage(before.entities + [e], before.errors)
        case Failure(x) => Triage(before.entities, before.errors + [ConversionErrorText(x)])
  }

  /** LINQ `Where(keep)`: the items satisfying `keep`, in order. */
  function Filter<T>(xs: seq<T>, keep: T -> bool): (r: seq<T>)
    ensures forall i :: 0 <= i < |r| ==> keep(r[i])
  {
    if xs == [] then []
    else
      var n := |xs| - 1;
      Filter(xs[..n], keep) + if keep(xs[n]) then [xs[n]] else []
  }

  /** LINQ `SelectMany(f)`: the lists `f` gives for the items, joined in order. */
  function Concat<T>(xs: seq<T>, f: T -> seq<string>): seq<string>
  {
    if xs == [] then []
    else
      var n := |xs| - 1;
      Concat(xs[..n], f) + f(xs[n])
  }

  /** Nothing is kept exactly when no item satisfies the test. */
  lemma {:induction false} FilterEmptyIff<T>(xs: seq<T>, keep: T -> bool)
    ensures Filter(xs, keep) == [] <==> forall i :: 0 <= i < |xs| ==> !keep(xs[i])
  {
    if xs != [] {
      var n := |xs| - 1;
      FilterEmptyIff(xs[..n], keep);
      assert forall i :: 0 <= i < n ==> xs[..n][i] == xs[i];
      if !keep(xs[n]) {
        assert Filter(xs, keep) == Filter(xs[..n], keep) + [];
      }
    }
  }

  /** Everything is kept when every item satisfies the test. */
  lemma {:induction false} FilterAll<T>(xs: seq<T>, keep: T -> bool)
    requires forall i :: 0 <= i < |xs| ==> keep(xs[i])
    ensures Filter(xs, keep) == xs
  {
    if xs != [] {
      var n := |xs| - 1;
      assert forall i :: 0 <= i < n ==> xs[..n][i] == xs[i];
      FilterAll(xs[..n], keep);
      assert xs == xs[..n] + [xs[n]];
    }
  }

  /** The joined list is empty exactly when every item's list is. */
  lemma {:induction false} ConcatEmptyIff<T>(xs: seq<T>, f: T -> seq<string>)
    ensures Concat(xs, f) == [] <==> forall i :: 0 <= i < |xs| ==> f(xs[i]) == []
  {
    if xs != [] {
      var n := |xs| - 1;
      ConcatEmptyIff(xs[..n], f);
      assert forall i :: 0 <= i < n ==> xs[..n][i] == xs[i];
    }
  }

  /** Everything up to the call of the insert service: the path guards, the existence
      check, the parser, the (unreachable) empty-list check, the row loop and the
      abort when rows failed and none survived. */
  function Prepare(bucketName: Option<string>, fileKey: Option<string>,
                   objects: map<(string, string), CsvDocument>): Result<Triage, ProcessError>
  {
    match ValidateS3Path(bucketName, fileKey)
    case Fail(e) => Failure(InvalidArgument(e))
    case Pass =>
      var bucket := bucketName.value;
      var key := fileKey.value;
      if (bucket, key) !in objects then
        Failure(FileNotFound("File '" + key + "' not found in bucket '" + bucket + "'"))
      else
        match Parse(objects[(bucket, key)])
        case Failure(m) => Failure(InvalidOperation(m))
        case Success(rows) =>
          if rows == [] then Failure(InvalidOperation("CSV file must contain at least one data row"))
          else
            var triage := TriageRows(rows);
            if triage.errors != [] && triage.entities == [] then Failure(InvalidOperation(AbortMessage(triage.errors)))
            else Success(triage)
  }

  /** The whole call, given the repository's save count `first` and its failures. */
  function Process(bucketName: Option<string>, fileKey: Option<string>,
                   objects: map<(string, string), CsvDocument>,
                   first: nat, failures: map<nat, string>): Result<CsvProcessingResult, ProcessError>
  {
    match Prepare(bucketName, fileKey, objects)
    case Failure(e) => Failure(e)
    case Success(triage) =>
      var inserted := Inserted(Chunk(triage.entities, BatchSize), first, failures);
      Success(CsvProcessingResult(|triage.entities|, inserted.recordsInserted, triage.errors, inserted.errors))
  }

  // ------------------------------------------------------------------ the service

  /** The validate-and-convert loop of `ProcessFromS3Async`. */
  method TriageLoop(csvTransactions: seq<CsvRecord>) returns (validEntities: seq<PropertyTransaction>, validationErrors: seq<string>)
    ensures Triage(validEntities, validationErrors) == TriageRows(csvTransactions)
  {
    validEntities := [];
    validationErrors := [];
    var i := 0;
    while i < |csvTransactions|
      invariant 0 <= i <= |csvTransactions|
      invariant TriageRows(csvTransactions[..i]) == Triage(validEntities, validationErrors)
    {
      var t := csvTransactions[i];
      var errors := ValidateCsvTransaction(t);
      assert errors == RowErrors(t);
      assert csvTransactions[..i + 1][..i] == csvTransactions[..i];
      if |errors| > 0 {
        validationErrors := validationErrors + errors;
      } else {
        CleanRowHasRequiredText(t);
        var converted := ConvertToEntity(t);
        match converted {
          case Success(entity) =>
            validEntities := validEntities + [entity];
          case Failure(x) =>
            validationErrors := validationErrors + [ConversionErrorText(x)];
        }
      }
      i := i + 1;
    }
    assert csvTransactions[..i] == csvTransactions;
  }

  /** `CsvProcessingService`, holding the object store and the insert service. */
  class CsvProcessingService {
    const storage: S3Storage
    const transactions: PropertyTransactionService

    constructor (storage: S3Storage, transactions: PropertyTransactionService)
      ensures this.storage == storage && this.transactions == transactions
    {
      this.storage := storage;
      this.transactions := transactions;
    }

    /** `ProcessFromS3Async`. The storage is not touched when the path is rejected, and
        the repository changes only through the one insert call, made exactly when
        the rows get past the abort rule. */
    method ProcessFromS3(bucketName: Option<string>, fileKey: Option<string>)
      returns (r: Result<CsvProcessingResult, ProcessError>)
      modifies storage, transactions.repository
      ensures r == Process(bucketName, fileKey, storage.objects,
                           old(transactions.repository.saves), transactions.repository.failures)
      ensures ValidateS3Path(bucketName, fileKey).Fail? ==> storage.requests == old(storage.requests)
      ensures var prepared := Prepare(bucketName, fileKey, storage.objects);
              var repository := transactions.repository;
              && (prepared.Failure? ==>
                    repository.stored == old(repository.stored) && repository.saves == old(repository.saves))
              && (prepared.Success? ==>
                    var batches := Chunk(prepared.value.entities, BatchSize);
                    && repository.stored == old(repository.stored) + Committed(batches, old(repository.saves), repository.failures)
                    && repository.saves == old(repository.saves) + |batches|)
    {
      var check := ValidateS3Path(bucketName, fileKey);
      if check.Fail? {
        return Failure(InvalidArgument(check.error));
      }
      var bucket := bucketName.value;
      var key := fileKey.value;
      var found := storage.FileExists(bucket, key);
      if !found {
        return Failure(FileNotFound("File '" + key + "' not found in bucket '" + bucket + "'"));
      }
      var doc := storage.GetFile(bucket, key);
      var parsed := ParseCsv(doc);
      if parsed.Failure? {
        return Failure(InvalidOperation(parsed.error));
      }
      var csvTransactions := parsed.value;
      if |csvTransactions| == 0 {
        r := Failure(InvalidOperation("CSV file must contain at least one data row"));
      } else {
        var validEntities, validationErrors := TriageLoop(csvTransactions);
        if |validationErrors| > 0 && |validEntities| == 0 {
          r := Failure(InvalidOperation(AbortMessage(validationErrors)));
        } else {
          var insertResult := transactions.InsertTransactions(validEntities);
          r := Success(CsvProcessingResult(|validEntities|, insertResult.recordsInserted,
                                           validationErrors, insertResult.errors));
        }
      }
    }
  }

  // ------------------------------------------------------------------ properties

  /** The row loop never records a conversion error: its errors are exactly the rows'
      validation errors in row order, and its entities are the conversions of the
      clean rows, one per clean row, in row order. */
  lemma {:induction false} TriageRowsSpec(rows: seq<CsvRecord>)
    ensures TriageRows(rows).errors == Concat(rows, RowErrors)
    ensures |TriageRows(rows).entities| == |Filter(rows, IsClean)|
    ensures forall i :: 0 <= i < |Filter(rows, IsClean)| ==>
              HasRequiredText(Filter(rows, IsClean)[i])
              && ConvertToEntity(Filter(rows, IsClean)[i]) == Success(TriageRows(rows).entities[i])
  {
    if rows != [] {
      var n := |rows| - 1;
      TriageRowsSpec(rows[..n]);
      var before := Filter(rows[..n], IsClean);
      if IsClean(rows[n]) {
        ValidRowConverts(rows[n]);
        assert Filter(rows, IsClean) == before + [rows[n]];
        assert forall i :: 0 <= i < |before| ==> Filter(rows, IsClean)[i] == before[i];
      } else {
        assert Filter(rows, IsClean) == before + [];
      }
    }
  }

  /** For a non-empty row list the abort rule fires exactly when no row passes
      validation. */
  lemma AbortIffNoCleanRow(rows: seq<CsvRecord>)
    requires rows != []
    ensures var triage := TriageRows(rows);
            (triage.errors != [] && triage.entities == []) <==>
              forall i :: 0 <= i < |rows| ==> !IsClean(rows[i])
  {
    TriageRowsSpec(rows);
    FilterEmptyIff(rows, IsClean);
    ConcatEmptyIff(rows, RowErrors);
    assert !IsClean(rows[0]) <==> RowErrors(rows[0]) != [];
  }

  /** The "at least one data row" check never fires: the parser has already rejected a
      header-only document with its own message. */
  lemma EmptyRowCheckUnreachable(bucketName: Option<string>, fileKey: Option<string>,
                                 objects: map<(string, string), CsvDocument>)
    ensures Prepare(bucketName, fileKey, objects) != Failure(InvalidOperation("CSV file must contain at least one data row"))
  {
    var p := Prepare(bucketName, fileKey, objects);
    if ValidateS3Path(bucketName, fileKey).Pass? {
      var key := (bucketName.value, fileKey.value);
      if key in objects {
        var doc := objects[key];
        ParseOutcome(doc);
        var parsed := Parse(doc);
        if parsed.Failure? {
          assert |parsed.error| != |"CSV file must contain at least one data row"|;
        } else {
          var triage := TriageRows(parsed.value);
          if triage.errors != [] && triage.entities == [] {
            assert AbortMessage(triage.errors)[0] == 'A';
          }
        }
      }
    }
  }

  /** A successful run reports every rejected row's errors, counts as processed the
      clean rows only, and accounts for each of them: inserted, or part of a batch whose
      save failed, with one insert error per failed batch. */
  lemma ProcessAccounting(bucketName: Option<string>, fileKey: Option<string>,
                          objects: map<(string, string), CsvDocument>,
                          first: nat, failures: map<nat, string>)
    requires Process(bucketName, fileKey, objects, first, failures).Success?
    ensures ValidateS3Path(bucketName, fileKey).Pass? && (bucketName.value, fileKey.value) in objects
    ensures var rows := Parse(objects[(bucketName.value, fileKey.value)]);
            var res := Process(bucketName, fileKey, objects, first, failures).value;
            var batches := Chunk(Prepare(bucketName, fileKey, objects).value.entities, BatchSize);
            && rows.Success?
            && res.validationErrors == Concat(rows.value, RowErrors)
            && res.recordsProcessed == |Filter(rows.value, IsClean)|
            && res.recordsInserted + |Flatten(FailedBatches(batches, first, failures))| == res.recordsProcessed
            && |res.insertErrors| == |FailedBatches(batches, first, failures)|
  {
    var rows := Parse(objects[(bucketName.value, fileKey.value)]).value;
    var triage := Prepare(bucketName, fileKey, objects).value;
    assert triage == TriageRows(rows);
    TriageRowsSpec(rows);
    var batches := Chunk(triage.entities, BatchSize);
    InsertedAccounting(batches, first, failures);
    ChunkFlatten(triage.entities, BatchSize);
  }

  /** A run that reports no error at all rejected no row and inserted every row of the
      file. */
  lemma CleanRunInsertsEverything(bucketName: Option<string>, fileKey: Option<string>,
                                  objects: map<(string, string), CsvDocument>,
                                  first: nat, failures: map<nat, string>)
    requires Process(bucketName, fileKey, objects, first, failures).Success?
    requires !Process(bucketName, fileKey, objects, first, failures).value.HasErrors()
    ensures var rows := Parse(objects[(bucketName.value, fileKey.value)]).value;
            var res := Process(bucketName, fileKey, objects, first, failures).value;
            && (forall i :: 0 <= i < |rows| ==> IsClean(rows[i]))
            && res.recordsInserted == res.recordsProcessed == |rows|
  {
    ProcessAccounting(bucketName, fileKey, objects, first, failures);
    var rows := Parse(objects[(bucketName.value, fileKey.value)]).value;
    var triage := Prepare(bucketName, fileKey, objects).value;
    ConcatEmptyIff(rows, RowErrors);
    assert forall i :: 0 <= i < |rows| ==> IsClean(rows[i]);
    FilterAll(rows, IsClean);
    var batches := Chunk(triage.entities, BatchSize);
    AllInsertedIff(batches, first, failures);
    ChunkFlatten(triage.entities, BatchSize);
  }
}
