/**
 * `S3PathValidator.ValidateS3Path`: the guards a bucket name and an object key pass
 * before any storage call, and the bucket-name pattern `^[a-z0-9.-]+$` as .NET's
 * `Regex.IsMatch` reads it.
 */
module S3Path {
  import opened Wrappers
  import opened Text

  /** A character of the class `[a-z0-9.-]`. */
  predicate IsBucketChar(c: char)
  {
    ('a' <= c <= 'z') || ('0' <= c <= '9') || c == '.' || c == '-'
  }

  predicate AllBucketChars(s: string)
  {
    forall i :: 0 <= i < |s| ==> IsBucketChar(s[i])
  }

  /** `Regex.IsMatch(s, "^[a-z0-9.-]+$")`. Without the multiline option, .NET's `$`
      matches at the end of the input and also just before a final line feed, so a
      name followed by one `"\n"` matches as well. */
  predicate MatchesBucketPattern(s: string)
  {
    || (|s| > 0 && AllBucketChars(s))
    || (|s| > 1 && s[|s| - 1] == '\n' && AllBucketChars(s[..|s| - 1]))
  }

  /** The pattern matches exactly the non-empty runs of allowed characters, alone or
      followed by a single line feed. */
  lemma BucketPatternIff(s: string)
    ensures MatchesBucketPattern(s) <==>
              exists body :: |body| > 0 && AllBucketChars(body) && (s == body || s == body + "\n")
  {
    if MatchesBucketPattern(s) && !(|s| > 0 && AllBucketChars(s)) {
      var body := s[..|s| - 1];
      assert s == body + "\n";
    }
    if exists body :: |body| > 0 && AllBucketChars(body) && (s == body || s == body + "\n") {
      var body :| |body| > 0 && AllBucketChars(body) && (s == body || s == body + "\n");
      if s != body {
        assert s[..|s| - 1] == body;
      }
    }
  }

  /** The bucket rule shared by both validators: 3 to 63 UTF-16 code units (what
      `string.Length` counts) matching the pattern. */
  predicate IsBucketName(s: string)
  {
    3 <= Utf16Length(s) <= 63 && MatchesBucketPattern(s)
  }

  /** An `ArgumentException`: the offending parameter and the message. */
  datatype ArgumentError = ArgumentError(paramName: string, message: string)

  /** `ValidateS3Path`: the first failing guard, in source order, or `Pass`. */
  function ValidateS3Path(bucketName: Option<string>, fileKey: Option<string>): Outcome<ArgumentError>
  {
    if IsBlank(bucketName) then
      Fail(ArgumentError("bucketName", "Bucket name cannot be null or empty"))
    else if IsBlank(fileKey) then
      Fail(ArgumentError("fileKey", "File key cannot be null or empty"))
    else if Utf16Length(bucketName.value) < 3 || Utf16Length(bucketName.value) > 63 then
      Fail(ArgumentError("bucketName", "Bucket name must be between 3 and 63 characters"))
    else if !MatchesBucketPattern(bucketName.value) then
      Fail(ArgumentError("bucketName", "Bucket name can only contain lowercase letters, numbers, hyphens, and periods"))
    else Pass
  }

  /** The path is accepted exactly when both parts are present and not blank and the
      bucket follows the bucket rule; the key has no further constraint. */
  lemma ValidateS3PathAcceptsIff(bucketName: Option<string>, fileKey: Option<string>)
    ensures ValidateS3Path(bucketName, fileKey) == Pass <==>
              && !IsBlank(bucketName) && !IsBlank(fileKey)
              && IsBucketName(bucketName.value)
  {
  }

  /** A rejection blames the key exactly when the bucket is not blank and the key is;
      otherwise it blames the bucket, so a blank bucket is reported whatever the key. */
  lemma ValidateS3PathBlames(bucketName: Option<string>, fileKey: Option<string>)
    requires ValidateS3Path(bucketName, fileKey).Fail?
    ensures var e := ValidateS3Path(bucketName, fileKey).error;
            && (e.paramName == "fileKey" <==> !IsBlank(bucketName) && IsBlank(fileKey))
            && (e.paramName == "bucketName" <==> !(!IsBlank(bucketName) && IsBlank(fileKey)))
  {
  }

  /** A bucket character is never white space, so a name made of them is not blank. */
  lemma BucketCharsNotBlank(s: string)
    requires |s| > 0 && IsBucketChar(s[0])
    ensures !IsBlank(Some(s))
  {
    assert !IsWhiteSpace(s[0]);
  }

  /** Bucket characters are ASCII, so a name made of them has one code unit each. */
  lemma BucketCharsLength(s: string)
    requires AllBucketChars(s)
    ensures Utf16Length(s) == |s|
  {
    Utf16LengthBmp(s);
  }

  lemma BucketCharsAppend(a: string, b: string)
    requires AllBucketChars(a) && AllBucketChars(b)
    ensures AllBucketChars(a + b)
  {
    assert forall i :: |a| <= i < |a + b| ==> (a + b)[i] == b[i - |a|];
  }

  /** Accepted paths from the validator's tests: a dotted bucket with a nested key,
      and a long hyphenated bucket. */
  lemma AcceptedPathExample()
    ensures ValidateS3Path(Some("my.bucket"), Some("path/to/file.csv")) == Pass
    ensures ValidateS3Path(Some("a-bucket-name-that-is-" + "exactly-63-characters-" + "long-for-testing"), Some("file.csv")) == Pass
  {
    BucketCharsNotBlank("my.bucket");
    BucketCharsNotBlank("path/to/file.csv");
    BucketCharsNotBlank("file.csv");
    assert AllBucketChars("my.bucket");
    BucketCharsLength("my.bucket");
    var a, b, c := "a-bucket-name-that-is-", "exactly-63-characters-", "long-for-testing";
    assert AllBucketChars(a) && AllBucketChars(b) && AllBucketChars(c);
    BucketCharsAppend(a, b);
    BucketCharsAppend(a + b, c);
    var long := a + b + c;
    BucketCharsNotBlank(long);
    BucketCharsLength(long);
  }

  /** Rejected buckets from the validator's tests, each blamed on "bucketName": too
      short, too long, and an upper-case letter. */
  lemma RejectedBucketExamples()
    ensures ValidateS3Path(Some("ab"), Some("file.csv")).Fail?
    ensures ValidateS3Path(Some("ab"), Some("file.csv")).error.paramName == "bucketName"
    ensures ValidateS3Path(Some("this-bucket-name-" + "is-way-too-long-and-exceeds-" + "the-maximum-length-allowed-by-s3"),
                           Some("file.csv")).Fail?
    ensures ValidateS3Path(Some("this-bucket-name-" + "is-way-too-long-and-exceeds-" + "the-maximum-length-allowed-by-s3"),
                           Some("file.csv")).error.paramName == "bucketName"
    ensures ValidateS3Path(Some("Bucket-Name-With-Capitals"), Some("file.csv")).Fail?
    ensures ValidateS3Path(Some("Bucket-Name-With-Capitals"), Some("file.csv")).error.paramName == "bucketName"
  {
    BucketCharsNotBlank("file.csv");
    assert AllBucketChars("ab");
    BucketCharsNotBlank("ab");
    BucketCharsLength("ab");
    assert ("this-bucket-name-" + "is-way-too-long-and-exceeds-" + "the-maximum-length-allowed-by-s3")[0] == 't';
    BucketCharsNotBlank("this-bucket-name-" + "is-way-too-long-and-exceeds-" + "the-maximum-length-allowed-by-s3");
    assert !IsBucketChar("Bucket-Name-With-Capitals"[0]);
    assert !IsWhiteSpace("Bucket-Name-With-Capitals"[0]);
  }

  /** `Length` counts UTF-16 code units: "a" followed by U+1F600 is three units long,
      so it passes the length guard and is refused by the pattern instead. */
  lemma SurrogatePairCountsTwice()
    ensures Utf16Length("a\U{1F600}") == 3
    ensures ValidateS3Path(Some("a\U{1F600}"), Some("file.csv"))
         == Fail(ArgumentError("bucketName", "Bucket name can only contain lowercase letters, numbers, hyphens, and periods"))
  {
    assert "a\U{1F600}"[..1] == "a";
    assert "a"[..0] == "";
    BucketCharsNotBlank("file.csv");
    assert !IsWhiteSpace("a\U{1F600}"[0]);
    assert !IsBucketChar("a\U{1F600}"[1]);
  }

  /** The line-feed reading of `$`: a valid bucket name followed by `"\n"` passes. */
  lemma TrailingLineFeedAccepted(name: string, fileKey: Option<string>)
    requires 3 <= |name| <= 62 && AllBucketChars(name) && !IsBlank(fileKey)
    ensures ValidateS3Path(Some(name + "\n"), fileKey) == Pass
  {
    var s := name + "\n";
    assert s[..|s| - 1] == name;
    BucketCharsLength(name);
    Utf16LengthBmp(s);
    assert s[0] == name[0];
    BucketCharsNotBlank(s);
    assert MatchesBucketPattern(s);
  }
}
