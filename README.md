# Malaysian property transaction CSV ingestion, modelled in Dafny

This project models the ingestion core of the Malaysian property transaction
service. A CSV file of property transactions is stored in an S3 bucket. The
service checks the bucket and key, fetches the file, and reads it into one raw
record per data row. It validates each record, converts the clean ones into
`PropertyTransaction` entities, and inserts those into the database in batches of
1000. It returns a `CsvProcessingResult` that counts and explains every row.

The modules follow the services of the program:

| module | file | models |
|---|---|---|
| `Wrappers` | `wrappers.dfy` | `Option`, `Result` and `Outcome`, used for the exceptions the services throw |
| `Text` | `text.dfy` | `string.IsNullOrWhiteSpace`, `Trim`, `string.Join` and `Take` |
| `InvariantFormats` | `invariant_formats.dfy` | `decimal.TryParse` with `NumberStyles.Number`, and `DateTime.TryParseExact` with `"dd/MM/yyyy"`, both under the invariant culture; also the text these parsers read back |
| `Records` | `records.dfy` | the raw row `CsvPropertyTransaction`, the entity `PropertyTransaction` and `InsertResult` |
| `CsvParsing` | `csv_parsing.dfy` | `CsvParsingService`: header handling, the duplicate-column resolvers and the mapping of each row |
| `CsvValidation` | `csv_validation.dfy` | `CsvValidationService`: the fifteen row checks, `ConvertToEntity` and `ParseNullableDecimal` |
| `BatchPersistence` | `batch_persistence.dfy` | `PropertyTransactionService`: chunking into batches and saving batch by batch |
| `S3Path` | `s3_path.dfy` | `S3PathValidator` |
| `S3Configuration` | `s3_configuration.dfy` | `S3ConfigurationValidator` |
| `CsvProcessing` | `csv_processing.dfy` | `CsvProcessingService.ProcessFromS3Async` and `CsvProcessingResult` |

Code that changes state step by step is modelled imperatively:
- **Loops**: the header loop and the resolver loop of `GetDuplicateResolvers`, the
  row loop of `ParseCsv`, the row loop of `ProcessFromS3Async` and the batch loop of
  `InsertTransactionsAsync` are `method`s with `while`/`for` loops.
- **Repository**: a class whose `stored` rows and save count change with each save.
- **S3 storage**: a class holding a map from (bucket, key) to document, with a
  request counter.

Each method is proved against a specification function: `Parse`, `Violations`,
`TriageRows`, `Inserted`/`Committed` and `Process`. The lemmas prove what those
functions promise.

Exceptions become `Failure` values that carry the exception's kind and message. The
first failing guard in source order is the one reported.

`ConvertToEntity` (src/MsiaPropertyTransaction.Application/Services/CsvValidationService.cs:74)
clears only blank road names and keeps `"-"`, and so does `CsvValidation.OptionalText`.
Of the optional text columns, only Unit maps `"-"` to null (line 77), and it keeps
blank text. A Land/Parcel Area of `"-"` also becomes null, through
`ParseNullableDecimal` (lines 76, 90-91).

## Model

| member | source | states |
|---|---|---|
| CsvParsing.ParseCsv | MsiaPropertyTransaction.Application/Services/CsvParsingService.cs:11-51 | The loop computes exactly `Parse(csv)`. A zero-length stream fails with "CSV file is empty". A success has one record per data row. |
| CsvParsing.ParseOutcome | MsiaPropertyTransaction.Application/Services/CsvParsingService.cs:14-50 | Parsing succeeds iff the stream is non-empty, the header has cells and there is at least one data row. Record k is then row k read through the one layout computed from the header. |
| CsvParsing.GroupDuplicateColumns | MsiaPropertyTransaction.Application/Services/CsvParsingService.cs:55-71 | The dictionary has exactly the five duplicate-prone keys. Each key lists every index whose trimmed header equals it, in increasing order. |
| CsvParsing.GetDuplicateResolvers | MsiaPropertyTransaction.Application/Services/CsvParsingService.cs:53-83 | A key is resolved iff some trimmed header equals it. Its index is then the leftmost such column. No other key appears. |
| CsvParsing.ResolversAreLeftmost | MsiaPropertyTransaction.Application/Services/CsvParsingService.cs:73-80 | Taking the first entry of every non-empty group gives, for each key, the leftmost matching column, and a key with no column has no resolver. |
| CsvParsing.MapToCsvTransaction | MsiaPropertyTransaction.Application/Services/CsvParsingService.cs:85-160 | Unit, Main Floor Area, Transaction Price and Transaction Date are read through the resolver index. The other eleven fields are read from the leftmost column with that exact header. A missing column or a short row leaves the field null. |
| CsvParsing.MappedRecordIsRowRecord | MsiaPropertyTransaction.Application/Services/CsvParsingService.cs:38-44 | Suppose a row is mapped with any resolvers that meet `GetDuplicateResolvers`' guarantee. The record is then the one the header's layout defines for that row. |
| CsvParsing.ResolverReadsTrimmedColumn | MsiaPropertyTransaction.Application/Services/CsvParsingService.cs:111-157 | For a resolved key, the resolver reads the cell of the leftmost column whose trimmed header is the key. |
| CsvParsing.LayoutPicksLeftmost | MsiaPropertyTransaction.Application/Services/CsvParsingService.cs:90-157 | Each field reads the leftmost column whose header matches its label, trimmed for the four resolved fields and exact otherwise. It reads nothing iff no column matches. |
| CsvParsing.UnlabelledColumnIsIgnored | MsiaPropertyTransaction.Application/Services/CsvParsingService.cs:55-67 | A column whose header is no field's label, trimmed or not, is never read. |
| CsvParsing.TrimmedHeaderReadsByName | MsiaPropertyTransaction.Application/Services/CsvParsingService.cs:66 | When no header has outer white space, the resolver route and the by-name route choose the same column. |
| CsvParsing.RowRecordField | MsiaPropertyTransaction.Application/Services/CsvParsingService.cs:90-157 | A field is null iff its column is missing or the row is too short to reach it. Otherwise it holds that cell unchanged. |
| CsvParsing.IndexOfLeftmost | MsiaPropertyTransaction.Application/Services/CsvParsingService.cs:90-91 | The by-name lookup finds the first column with that header, and finds none iff the header is absent. |
| CsvParsing.DuplicateColumnExample | MsiaPropertyTransaction.Tests/CsvParsingServiceTests.cs:47-62 | With two Unit columns, the first one wins. A "Land Area" column does not fill Land/Parcel Area. |
| CsvValidation.ValidateCsvTransaction | src/MsiaPropertyTransaction.Application/Services/CsvValidationService.cs:9-64 | The error list is exactly the messages of the failing checks, in the order the source runs them. |
| CsvValidation.CheckRequiredFields | src/MsiaPropertyTransaction.Application/Services/CsvValidationService.cs:13-35 | Gives the "is required" messages of the blank required columns, in column order. |
| CsvValidation.CheckRequired | src/MsiaPropertyTransaction.Application/Services/CsvValidationService.cs:14-15 | Appends "<label> is required" exactly when the column is null or white space. |
| CsvValidation.CheckNumber | src/MsiaPropertyTransaction.Application/Services/CsvValidationService.cs:38-54 | Appends "<label> must be a valid number" exactly when the column holds text that `decimal.TryParse` refuses. For Land/Parcel Area the text "-" is also exempt. |
| CsvValidation.CheckDate | src/MsiaPropertyTransaction.Application/Services/CsvValidationService.cs:57-61 | Appends the dd/MM/yyyy message exactly when the date holds text that is not an exact dd/MM/yyyy calendar date. |
| CsvValidation.ViolationsEmptyIff | src/MsiaPropertyTransaction.Application/Services/CsvValidationService.cs:11-63 | A list of checks reports nothing iff none of its checks fails. |
| CsvValidation.ErrorsAreGrouped | src/MsiaPropertyTransaction.Application/Services/CsvValidationService.cs:13-61 | The errors are the required-field errors, then the number errors, then the date error. |
| CsvValidation.ValidIff | src/MsiaPropertyTransaction.Application/Services/CsvValidationService.cs:11-63 | A row gets no error iff the required columns are present, the present numbers parse, and a present date is a real dd/MM/yyyy date. |
| CsvValidation.RequiredPass | src/MsiaPropertyTransaction.Application/Services/CsvValidationService.cs:14-35 | The required checks pass iff all eleven required columns hold non-blank text. |
| CsvValidation.NumbersPass | src/MsiaPropertyTransaction.Application/Services/CsvValidationService.cs:38-54 | The number checks pass iff each of the three number columns is blank or parses. Land/Parcel Area may also be "-". |
| CsvValidation.RequiredErrorOnce | src/MsiaPropertyTransaction.Application/Services/CsvValidationService.cs:14-35 | A required column's message appears once if the column is blank, and otherwise not at all. |
| CsvValidation.NumberErrorOnce | src/MsiaPropertyTransaction.Application/Services/CsvValidationService.cs:38-54 | A number message appears at most once. It never appears for a blank column, nor for a Land/Parcel Area of "-". |
| CsvValidation.DateErrorOnce | src/MsiaPropertyTransaction.Application/Services/CsvValidationService.cs:57-61 | The date message appears once if the date is present but malformed, and otherwise not at all. |
| CsvValidation.MessageInjective | src/MsiaPropertyTransaction.Application/Services/CsvValidationService.cs:14-60 | No two checks share a message, so each message names its check. |
| CsvValidation.UncheckedColumnsNeverMatter | src/MsiaPropertyTransaction.Application/Services/CsvValidationService.cs:11-63 | Two rows that differ only in Road Name, Unit and Unit Level get the same errors from checks that skip those columns. |
| CsvValidation.RulesSkipUncheckedColumns | src/MsiaPropertyTransaction.Application/Services/CsvValidationService.cs:13-61 | None of the fifteen checks reads Road Name, Unit or Unit Level. |
| CsvValidation.AcceptedRowParses | src/MsiaPropertyTransaction.Application/Services/CsvValidationService.cs:24-61 | An accepted row has a Main Floor Area and a Transaction Price that `decimal.TryParse` accepts. Its date parses. |
| CsvValidation.IsoDateRejected | MsiaPropertyTransaction.Tests/CsvValidationServiceTests.cs:96-119 | A date written "2023-01-01" always draws the dd/MM/yyyy error. |
| CsvValidation.FloorAreaExample | MsiaPropertyTransaction.Tests/CsvValidationServiceTests.cs:186 | "200.00" parses to 200.00 at scale 2. |
| CsvValidation.OptionalText | src/MsiaPropertyTransaction.Application/Services/CsvValidationService.cs:74 | Road Name and Unit Level become null iff blank. Otherwise they are kept unchanged, "-" included. |
| CsvValidation.UnitValue | src/MsiaPropertyTransaction.Application/Services/CsvValidationService.cs:77 | Unit becomes null iff it is null or exactly "-". Otherwise it is kept unchanged, blank text included. |
| CsvValidation.ParseNullableDecimalIsTryParse | src/MsiaPropertyTransaction.Application/Services/CsvValidationService.cs:88-97 | The blank and "-" shortcuts never change the outcome. The result is `decimal.TryParse` of the text, and it is non-null iff the text parses. |
| CsvValidation.ParseRequiredDecimal | src/MsiaPropertyTransaction.Application/Services/CsvValidationService.cs:78 | `decimal.Parse` succeeds iff the text is present and `TryParse` accepts it, with the same value. A failure names its column. |
| CsvValidation.ParseRequiredDate | src/MsiaPropertyTransaction.Application/Services/CsvValidationService.cs:84 | `DateTime.ParseExact` succeeds iff the text is present and is an exact dd/MM/yyyy calendar date. It then gives that date. |
| CsvValidation.ConvertToEntityFields | src/MsiaPropertyTransaction.Application/Services/CsvValidationService.cs:66-86 | The conversion succeeds iff floor area, price and date parse. The entity then copies the text columns, strips the optional sentinels and holds the parsed numbers and date. A failure is always one of those three columns. |
| CsvValidation.ValidRowConverts | src/MsiaPropertyTransaction.Application/Services/CsvValidationService.cs:66-86 | A row with no validation error carries every `!` text column and converts without throwing. |
| CsvValidation.ConvertExample | MsiaPropertyTransaction.Tests/CsvValidationServiceTests.cs:196-226 | A complete row with "-" and "" in its optional columns converts, with those columns null and the date 1 January 2023. |
| InvariantFormats.ParseFormatDecimal | src/MsiaPropertyTransaction.Application/Services/CsvValidationService.cs:40 | Every decimal value is read back by `TryParse` from its own invariant text. |
| InvariantFormats.NulTailExamples | src/MsiaPropertyTransaction.Application/Services/CsvValidationService.cs:40 | "5\0", "5.\0\0" and "5 -\0" are numbers, because U+0000 ends the text. "5\0 " and "\0" are not. |
| InvariantFormats.SentinelsAreNotDecimals | src/MsiaPropertyTransaction.Application/Services/CsvValidationService.cs:90-94 | "-" and all-white-space text are never numbers. |
| InvariantFormats.ParseFormatDate | src/MsiaPropertyTransaction.Application/Services/CsvValidationService.cs:59 | Every representable date is read back from its own dd/MM/yyyy text. |
| InvariantFormats.FormatParseDate | src/MsiaPropertyTransaction.Application/Services/CsvValidationService.cs:59 | Every accepted date text is the formatting of the date it denotes. Accepted texts and dates therefore correspond one to one. |
| InvariantFormats.DateExamples | MsiaPropertyTransaction.Tests/CsvValidationServiceTests.cs:96-119 | "2023-01-01" is refused. "01/01/2023" is 1 January 2023. |
| Text.TrimRemovesOuterWhiteSpace | MsiaPropertyTransaction.Application/Services/CsvParsingService.cs:66 | The result is a contiguous slice of the input. Only white space is cut from each end, and the result neither starts nor ends with white space. |
| Text.TrimFixedIff | MsiaPropertyTransaction.Application/Services/CsvParsingService.cs:66 | Trimming leaves a string unchanged iff it has no outer white space. |
| BatchPersistence.Chunk | src/MsiaPropertyTransaction.Application/Services/PropertyTransactionService.cs:19 | Every chunk is non-empty and holds at most the batch size. |
| BatchPersistence.ChunkFlatten | src/MsiaPropertyTransaction.Application/Services/PropertyTransactionService.cs:19 | The batches, joined back together, are the input in its order. Nothing is lost or duplicated. |
| BatchPersistence.ChunkSizes | src/MsiaPropertyTransaction.Application/Services/PropertyTransactionService.cs:19 | Every batch except the last is full. The last holds the remainder. |
| BatchPersistence.Repository.AddRangeAndSave | src/MsiaPropertyTransaction.Application/Services/PropertyTransactionService.cs:25-26 | A successful save appends the batch to the stored rows. A failing one leaves them as they were. |
| BatchPersistence.PropertyTransactionService.InsertTransactions | src/MsiaPropertyTransaction.Application/Services/PropertyTransactionService.cs:16-36 | Saves the 1000-row batches in order. It returns the count of saved rows and one "Batch insertion failed" message per failed batch. The repository ends with exactly the committed batches appended. |
| BatchPersistence.InsertedAccounting | src/MsiaPropertyTransaction.Application/Services/PropertyTransactionService.cs:21-33 | Inserted rows plus the rows of failed batches equal all rows. There is one error per failed batch, and the inserted count is the number of committed rows. |
| BatchPersistence.ErrorsAreBatchFailures | src/MsiaPropertyTransaction.Application/Services/PropertyTransactionService.cs:29-32 | Every reported error is a "Batch insertion failed: " message that wraps a save failure. |
| BatchPersistence.AllInsertedIff | src/MsiaPropertyTransaction.Application/Services/PropertyTransactionService.cs:16-36 | There are no errors iff every row was inserted. |
| BatchPersistence.FailedNonEmpty | src/MsiaPropertyTransaction.Application/Services/PropertyTransactionService.cs:29-32 | A failed batch always loses at least one row. |
| BatchPersistence.FifteenHundredRows | tests/MsiaPropertyTransaction.Infrastructure.Tests/Services/PropertyTransactionServiceTests.cs:111-140 | 1500 rows make a batch of 1000 and one of 500. With no failing save all 1500 are inserted without error. |
| BatchPersistence.NoRows | src/MsiaPropertyTransaction.Application/Services/PropertyTransactionService.cs:18-21 | No rows means no batch, no save and an empty result. |
| CsvProcessing.CsvProcessingService.ProcessFromS3 | src/MsiaPropertyTransaction.Application/Services/CsvProcessingService.cs:25-90 | Returns exactly `Process`: path check, existence check, fetch, parse, triage, abort rule, insert and result. A rejected path makes no storage request. A run that fails before inserting stores nothing, and otherwise the committed batches are appended. |
| CsvProcessing.S3Storage.FileExists | src/MsiaPropertyTransaction.Application/Services/CsvProcessingService.cs:34 | Answers whether the object exists, at the cost of one request. |
| CsvProcessing.S3Storage.GetFile | src/MsiaPropertyTransaction.Application/Services/CsvProcessingService.cs:41 | Returns the stored document, at the cost of one request. |
| CsvProcessing.TriageLoop | src/MsiaPropertyTransaction.Application/Services/CsvProcessingService.cs:51-73 | The row loop computes exactly `TriageRows` of the parsed rows. |
| CsvProcessing.TriageRowsSpec | src/MsiaPropertyTransaction.Application/Services/CsvProcessingService.cs:55-73 | The validation errors are every row's own errors, concatenated in row order. The entities are the clean rows, in order, each converted. |
| CsvProcessing.CleanRowHasRequiredText | src/MsiaPropertyTransaction.Application/Services/CsvProcessingService.cs:64-67 | A row that passes validation reaches `ConvertToEntity` with every `!` text column present. |
| CsvProcessing.AbortIffNoCleanRow | src/MsiaPropertyTransaction.Application/Services/CsvProcessingService.cs:75-78 | For a non-empty file, the "All rows contain validation errors" abort fires iff no row is clean. |
| CsvProcessing.EmptyRowCheckUnreachable | src/MsiaPropertyTransaction.Application/Services/CsvProcessingService.cs:46-49 | The "at least one data row" exception never occurs. The parser already rejects a header-only file with its own message. |
| CsvProcessing.ProcessAccounting | src/MsiaPropertyTransaction.Application/Services/CsvProcessingService.cs:81-89 | A successful run reports every rejected row's errors. `RecordsProcessed` counts the clean rows. Inserted rows plus the rows of failed batches equal the processed rows, with one insert error per failed batch. |
| CsvProcessing.CleanRunInsertsEverything | src/MsiaPropertyTransaction.Application/Services/CsvProcessingService.cs:99 | A run with `HasErrors` false rejected no row and inserted every row of the file. |
| S3Path.ValidateS3PathAcceptsIff | MsiaPropertyTransaction.Application/Services/S3PathValidator.cs:5-27 | A path is accepted iff bucket and key are non-blank and the bucket is 3 to 63 UTF-16 code units long and matches the bucket pattern. |
| S3Path.ValidateS3PathBlames | MsiaPropertyTransaction.Application/Services/S3PathValidator.cs:7-26 | A rejection names `fileKey` iff the bucket is non-blank and the key is blank. In every other case it names `bucketName`. |
| S3Path.BucketPatternIff | MsiaPropertyTransaction.Application/Services/S3PathValidator.cs:23 | The pattern matches exactly a non-empty run of `[a-z0-9.-]`, alone or followed by one line feed. |
| S3Path.TrailingLineFeedAccepted | MsiaPropertyTransaction.Application/Services/S3PathValidator.cs:18-26 | A valid bucket name of at most 62 characters followed by "\n" still passes. |
| S3Path.SurrogatePairCountsTwice | MsiaPropertyTransaction.Application/Services/S3PathValidator.cs:18-26 | A two-character name whose second character lies outside the Basic Multilingual Plane has length 3, so it passes the length guard. The pattern guard then rejects it with its own message. |
| S3Path.BucketCharsLength | MsiaPropertyTransaction.Application/Services/S3PathValidator.cs:18 | On names made only of bucket characters, `Length` is the number of characters. |
| Text.Utf16LengthBmp | MsiaPropertyTransaction.Application/Services/S3PathValidator.cs:18 | On text inside the Basic Multilingual Plane, `Length` counts characters. |
| S3Path.AcceptedPathExample | tests/MsiaPropertyTransaction.Tests/S3PathValidationTests.cs:8-57 | "my.bucket" with "path/to/file.csv" is accepted, and so is the test's 60-character bucket name. |
| S3Path.RejectedBucketExamples | tests/MsiaPropertyTransaction.Tests/S3PathValidationTests.cs:8-57 | "ab", the test's 77-character name and a name with capitals are rejected, and each rejection names `bucketName`. |
| S3Configuration.ReportsFirstBlank | MsiaPropertyTransaction.Infrastructure/Validation/S3ConfigurationValidator.cs:9-32 | The first blank setting, in the order ServiceUrl, Region, AccessKey, SecretKey, BucketName, is the one reported. |
| S3Configuration.ValidateAcceptsIff | MsiaPropertyTransaction.Infrastructure/Validation/S3ConfigurationValidator.cs:7-44 | Settings pass iff all five are non-blank and the bucket follows the bucket rule. |
| S3Configuration.SameBucketRuleAsPathValidator | MsiaPropertyTransaction.Infrastructure/Validation/S3ConfigurationValidator.cs:35-43 | With every setting present, configuration validation passes iff the path validator accepts the bucket. |
| S3Configuration.RegionReportedBeforeAccessKey | tests/MsiaPropertyTransaction.Infrastructure.Tests/Validation/S3ConfigurationValidatorTests.cs:9-166 | If Region and AccessKey are both blank, Region is reported. |
| S3Configuration.CompleteSettingsPass | tests/MsiaPropertyTransaction.Infrastructure.Tests/Validation/S3ConfigurationValidatorTests.cs:9-166 | A complete LocalStack configuration passes. |

## Left out

- CSV tokenising by CsvHelper (quoting, escaped separators, line endings, the byte-order mark) is not modelled. A document is given as its byte length, its header cells and its data rows of cells.
- `async`, `CancellationToken`, `IEnumerable` laziness and stream disposal are not modelled. Every call completes in order.
- S3 and the network are not modelled: `S3Storage` is a map from (bucket, key) to document. Transport errors of the S3 client are not modelled.
- Entity Framework change tracking is not modelled. `AddRangeAsync` and `SaveChangesAsync` become one call that commits the batch or reports a failure. Which saves fail is a parameter (a map from save number to message). Entities a failed save leaves tracked, which a later save could commit, are not modelled.
- .NET `decimal` limits are not modelled: the 96-bit range and the 28-digit scale. A parsed value is an unbounded coefficient with a scale. `NumberStyles.Number` is modelled with white space, a leading or trailing sign, ',' group separators, a '.' fraction and .NET's acceptance of a tail made only of U+0000 characters. Culture-specific separators, exponents and currency symbols are refused, as under that style and the invariant culture.
- `int` overflow of `RecordsInserted` and `RecordsProcessed` is not modelled. Counts are unbounded.
- The exact wording of .NET exception messages is given as constants. Only the messages the program composes itself are exact.
- CsvValidation.ConvertToEntity: requires the eight text columns copied with `!` to be present, where C# would store null. The program calls it only on rows that passed validation, and `CsvValidation.ValidRowConverts` shows those always qualify.
- CsvProcessing.S3Storage.GetFile: requires the object to exist. The program fetches only after `FileExistsAsync` said yes.
- The null guards of the `CsvProcessingService` constructor (src/MsiaPropertyTransaction.Application/Services/CsvProcessingService.cs:19-22) are not modelled. Dafny references are never null.
- The copy of `PropertyTransactionService` under `MsiaPropertyTransaction/Services`, `Program.cs` and the upload endpoint are not part of this model. The `src/` service is the one modelled.
- `S3StorageService` and `LocalStackInitializer` are not part of this model. They are I/O only.
- BatchPersistence.ChunkSizes: states the sizes of the batches but not their number as a rounded-up division.
