/**
 * The batch persister (`PropertyTransactionService.InsertTransactionsAsync`): the
 * entities are cut into consecutive batches of 1000 and each batch is added and saved
 * as a unit; a batch that fails records one error and the next batch still runs.
 */
module BatchPersistence {
  import opened Wrappers
  import opened Records

  /** `PropertyTransactionService.BatchSize`. */
  const BatchSize: nat := 1000

  // ------------------------------------------------------------------ chunking

  /** LINQ `Chunk(size)`: consecutive slices of `size` items, the last one shorter
      when the length is not a multiple of `size`; no slice is empty. */
  function Chunk<T>(xs: seq<T>, size: nat): (r: seq<seq<T>>)
    requires size > 0
    ensures forall i :: 0 <= i < |r| ==> 0 < |r[i]| <= size
    decreases |xs|
  {
    if xs == [] then []
    else if |xs| <= size then [xs]
    else [xs[..size]] + Chunk(xs[size..], size)
  }

  /** The items of the batches, in batch order. */
  function Flatten<T>(xss: seq<seq<T>>): seq<T>
  {
    if xss == [] then [] else xss[0] + Flatten(xss[1..])
  }

  lemma {:induction false} FlattenSnoc<T>(xss: seq<seq<T>>, xs: seq<T>)
    ensures Flatten(xss + [xs]) == Flatten(xss) + xs
  {
    if xss == [] {
      assert [] + [xs] == [xs];
    } else {
      assert (xss + [xs])[1..] == xss[1..] + [xs];
      FlattenSnoc(xss[1..], xs);
    }
  }

  /** The batches are the input cut in order: joined again they give the input back. */
  lemma {:induction false} ChunkFlatten<T>(xs: seq<T>, size: nat)
    requires size > 0
    ensures Flatten(Chunk(xs, size)) == xs
    decreases |xs|
  {
    if xs == [] {
    } else if |xs| <= size {
      assert Flatten([xs]) == xs + Flatten([]);
    } else {
      var rest := Chunk(xs[size..], size);
      ChunkFlatten(xs[size..], size);
      assert ([xs[..size]] + rest)[1..] == rest;
      assert xs[..size] + xs[size..] == xs;
    }
  }

  /** Every batch but the last holds exactly `size` items, and the last between 1 and
      `size`. */
  lemma {:induction false} ChunkSizes<T>(xs: seq<T>, size: nat)
    requires size > 0
    ensures var r := Chunk(xs, size);
            && (forall i :: 0 <= i < |r| - 1 ==> |r[i]| == size)
            && (r != [] ==> 0 < |r[|r| - 1]| <= size)
    decreases |xs|
  {
    if |xs| > size {
      var rest := Chunk(xs[size..], size);
      ChunkSizes(xs[size..], size);
      var r := [xs[..size]] + rest;
      assert forall i :: 1 <= i < |r| ==> r[i] == rest[i - 1];
    }
  }

  // ------------------------------------------------------------------ the store

  /** Whether the `k`-th add-and-save the repository receives fails, and with which
      exception message. */
  function SaveOutcome(failures: map<nat, string>, k: nat): Option<string>
  {
    if k in failures then Some(failures[k]) else None
  }

  /** The repository behind `AddRangeAsync` and `SaveChangesAsync`, reduced to what the
      persister observes: the rows committed so far, the number of batches it has been
      asked to save, and which of those saves throw (a fixed oracle). */
  class Repository {
    var stored: seq<PropertyTransaction>
    var saves: nat
    const failures: map<nat, string>

    constructor (failures: map<nat, string>)
      ensures stored == [] && saves == 0 && this.failures == failures
    {
      stored := [];
      saves := 0;
      this.failures := failures;
    }

    /** `AddRangeAsync(batch)` followed by `SaveChangesAsync()`: either the whole batch
        is committed, or the save throws and nothing of it is. */
    method AddRangeAndSave(batch: seq<PropertyTransaction>) returns (error: Option<string>)
      modifies this
      ensures error == SaveOutcome(failures, old(saves))
      ensures saves == old(saves) + 1
      ensures stored == if error.None? then old(stored) + batch else old(stored)
    {
      error := SaveOutcome(failures, saves);
      if error.None? {
        stored := stored + batch;
      }
      saves := saves + 1;
    }
  }

  // ------------------------------------------------------------ the specification

  /** The text recorded for a failed batch. */
  function BatchError(message: string): string
  {
    "Batch insertion failed: " + message
  }

  /** The result of saving `batches` in order, the first of them being the
      repository's save number `first`: a saved batch adds its size to the count, a
      failed one appends its error. */
  function Inserted(batches: seq<seq<PropertyTransaction>>, first: nat, failures: map<nat, string>): InsertResult
  {
    if batches == [] then InsertResult(0, [])
    else
      var n := |batches| - 1;
      var before := Inserted(batches[..n], first, failures);
      match SaveOutcome(failures, first + n)
      case None => InsertResult(before.recordsInserted + |batches[n]|, before.errors)
      case Some(message) => InsertResult(before.recordsInserted, before.errors + [BatchError(message)])
  }

  /** The rows those saves commit: the saved batches, in order. */
  function Committed(batches: seq<seq<PropertyTransaction>>, first: nat, failures: map<nat, string>): seq<PropertyTransaction>
  {
    if batches == [] then []
    else
      var n := |batches| - 1;
      Committed(batches[..n], first, failures)
        + if SaveOutcome(failures, first + n).None? then batches[n] else []
  }

  /** The batches whose save throws, in order. */
  function FailedBatches(batches: seq<seq<PropertyTransaction>>, first: nat, failures: map<nat, string>): seq<seq<PropertyTransaction>>
  {
    if batches == [] then []
    else
      var n := |batches| - 1;
      FailedBatches(batches[..n], first, failures)
        + if SaveOutcome(failures, first + n).Some? then [batches[n]] else []
  }

  /** What the persister reports agrees with what the repository holds: one error per
      failed batch, and every row of the input is either counted as inserted (and
      committed) or belongs to a failed batch. */
  lemma {:induction false} InsertedAccounting(batches: seq<seq<PropertyTransaction>>, first: nat, failures: map<nat, string>)
    ensures var r := Inserted(batches, first, failures);
            && |r.errors| == |FailedBatches(batches, first, failures)|
            && r.recordsInserted == |Committed(batches, first, failures)|
            && r.recordsInserted + |Flatten(FailedBatches(batches, first, failures))| == |Flatten(batches)|
  {
    if batches != [] {
      var n := |batches| - 1;
      InsertedAccounting(batches[..n], first, failures);
      assert batches == batches[..n] + [batches[n]];
      FlattenSnoc(batches[..n], batches[n]);
      var failed := FailedBatches(batches[..n], first, failures);
      if SaveOutcome(failures, first + n).Some? {
        FlattenSnoc(failed, batches[n]);
      } else {
        assert failed + [] == failed;
      }
    }
  }

  /** Every error names a batch failure. */
  lemma {:induction false} ErrorsAreBatchFailures(batches: seq<seq<PropertyTransaction>>, first: nat, failures: map<nat, string>)
    ensures forall e :: e in Inserted(batches, first, failures).errors ==>
              exists k :: first <= k < first + |batches| && k in failures && e == BatchError(failures[k])
  {
    if batches != [] {
      var n := |batches| - 1;
      ErrorsAreBatchFailures(batches[..n], first, failures);
    }
  }

  /** With non-empty batches (as `Chunk` makes them), everything is inserted exactly
      when nothing failed. */
  lemma AllInsertedIff(batches: seq<seq<PropertyTransaction>>, first: nat, failures: map<nat, string>)
    requires forall i :: 0 <= i < |batches| ==> |batches[i]| > 0
    ensures var r := Inserted(batches, first, failures);
            r.recordsInserted == |Flatten(batches)| <==> r.errors == []
  {
    InsertedAccounting(batches, first, failures);
    FailedNonEmpty(batches, first, failures);
  }

  lemma {:induction false} FailedNonEmpty(batches: seq<seq<PropertyTransaction>>, first: nat, failures: map<nat, string>)
    requires forall i :: 0 <= i < |batches| ==> |batches[i]| > 0
    ensures FailedBatches(batches, first, failures) != [] ==> |Flatten(FailedBatches(batches, first, failures))| > 0
  {
    if batches != [] {
      var n := |batches| - 1;
      FailedNonEmpty(batches[..n], first, failures);
      var failed := FailedBatches(batches[..n], first, failures);
      if SaveOutcome(failures, first + n).Some? {
        FlattenSnoc(failed, batches[n]);
      } else {
        assert failed + [] == failed;
      }
    }
  }

  // ------------------------------------------------------------------ the service

  /** `PropertyTransactionService`, holding its repository. */
  class PropertyTransactionService {
    const repository: Repository

    constructor (repository: Repository)
      ensures this.repository == repository
    {
      this.repository := repository;
    }

    /** `InsertTransactionsAsync`: saves the batches of 1000 one after the other,
        catching each batch's failure and carrying on with the next. */
    method InsertTransactions(transactions: seq<PropertyTransaction>) returns (result: InsertResult)
      modifies repository
      ensures var batches := Chunk(transactions, BatchSize);
              && result == Inserted(batches, old(repository.saves), repository.failures)
              && repository.stored == old(repository.stored) + Committed(batches, old(repository.saves), repository.failures)
              && repository.saves == old(repository.saves) + |batches|
    {
      var batches := Chunk(transactions, BatchSize);
      result := InsertResult(0, []);
      ghost var first := repository.saves;
      var i := 0;
      while i < |batches|
        invariant 0 <= i <= |batches|
        invariant repository.saves == first + i
        invariant result == Inserted(batches[..i], first, repository.failures)
        invariant repository.stored == old(repository.stored) + Committed(batches[..i], first, repository.failures)
      {
        var batch := batches[i];
        var error := repository.AddRangeAndSave(batch);
        assert batches[..i + 1][..i] == batches[..i];
        match error {
          case None =>
            result := result.(recordsInserted := result.recordsInserted + |batch|);
          case Some(message) =>
            result := result.(errors := result.errors + [BatchError(message)]);
        }
        i := i + 1;
      }
      assert batches[..i] == batches;
    }
  }

  // ------------------------------------------------------------------ examples

  /** 1500 rows and a repository that never fails: two batches, of 1000 and 500, all
      1500 rows inserted and no error. */
  lemma FifteenHundredRows(transactions: seq<PropertyTransaction>, first: nat)
    requires |transactions| == 1500
    ensures var batches := Chunk(transactions, BatchSize);
            && |batches| == 2 && |batches[0]| == 1000 && |batches[1]| == 500
            && Inserted(batches, first, map[]) == InsertResult(1500, [])
  {
    var batches := Chunk(transactions, BatchSize);
    assert Chunk(transactions[1000..], BatchSize) == [transactions[1000..]];
    assert batches == [transactions[..1000], transactions[1000..]];
    assert batches[..1][..0] == [];
    assert Inserted(batches[..1], first, map[]) == InsertResult(1000, []);
  }

  /** No rows: no batch, so the repository is never called and nothing is reported. */
  lemma NoRows(first: nat, failures: map<nat, string>)
    ensures Chunk<PropertyTransaction>([], BatchSize) == []
    ensures Inserted([], first, failures) == InsertResult(0, [])
  {
  }
}
