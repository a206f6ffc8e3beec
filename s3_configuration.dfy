/**
 * `S3ConfigurationValidator.Validate`: the start-up check of the S3 storage settings.
 * The five settings are required in a fixed order and the bucket name must follow the
 * bucket rule; the first failing guard is the one reported.
 */
module S3Configuration {
  import opened Wrappers
  import opened Text
  import opened S3Path

  /** `S3StorageSettings`; any of the five may be null. */
  datatype S3StorageSettings = S3StorageSettings(
    serviceUrl: Option<string>,
    region: Option<string>,
    accessKey: Option<string>,
    secretKey: Option<string>,
    bucketName: Option<string>)

  /** The text of the `InvalidOperationException` for a failing guard. */
  function ConfigError(detail: string): string
  {
    "S3 Storage configuration error: " + detail
  }

  /** The required settings, in the order they are checked, each with its name. */
  function RequiredSettings(settings: S3StorageSettings): (r: seq<(string, Option<string>)>)
    ensures |r| == 5
  {
    [("ServiceUrl", settings.serviceUrl), ("Region", settings.region), ("AccessKey", settings.accessKey),
     ("SecretKey", settings.secretKey), ("BucketName", settings.bucketName)]
  }

  /** `Validate`: the message of the first failing guard, or `Pass`. */
  function Validate(settings: S3StorageSettings): Outcome<string>
  {
    if IsBlank(settings.serviceUrl) then Fail(ConfigError("ServiceUrl" + " is required"))
    else if IsBlank(settings.region) then Fail(ConfigError("Region" + " is required"))
    else if IsBlank(settings.accessKey) then Fail(ConfigError("AccessKey" + " is required"))
    else if IsBlank(settings.secretKey) then Fail(ConfigError("SecretKey" + " is required"))
    else if IsBlank(settings.bucketName) then Fail(ConfigError("BucketName" + " is required"))
    else if Utf16Length(settings.bucketName.value) < 3 || Utf16Length(settings.bucketName.value) > 63 then
      Fail(ConfigError("BucketName must be between 3 and 63 characters"))
    else if !MatchesBucketPattern(settings.bucketName.value) then
      Fail(ConfigError("BucketName can only contain lowercase letters, numbers, hyphens, and periods"))
    else Pass
  }

  /** The first blank setting, in checking order, is the one reported, whatever
      follows it. */
  lemma ReportsFirstBlank(settings: S3StorageSettings, i: nat)
    requires i < 5
    requires IsBlank(RequiredSettings(settings)[i].1)
    requires forall j :: 0 <= j < i ==> !IsBlank(RequiredSettings(settings)[j].1)
    ensures Validate(settings) == Fail(ConfigError(RequiredSettings(settings)[i].0 + " is required"))
  {
    var r := RequiredSettings(settings);
    if i > 0 { assert !IsBlank(r[0].1); }
    if i > 1 { assert !IsBlank(r[1].1); }
    if i > 2 { assert !IsBlank(r[2].1); }
    if i > 3 { assert !IsBlank(r[3].1); }
  }

  /** The settings pass exactly when none is blank and the bucket name follows the
      bucket rule. */
  lemma ValidateAcceptsIff(settings: S3StorageSettings)
    ensures Validate(settings) == Pass <==>
              && !IsBlank(settings.serviceUrl) && !IsBlank(settings.region)
              && !IsBlank(settings.accessKey) && !IsBlank(settings.secretKey)
              && !IsBlank(settings.bucketName) && IsBucketName(settings.bucketName.value)
  {
  }

  /** For a bucket name that is not blank, the configuration check and the path
      check accept the same names. */
  lemma SameBucketRuleAsPathValidator(settings: S3StorageSettings, fileKey: Option<string>)
    requires !IsBlank(settings.serviceUrl) && !IsBlank(settings.region)
    requires !IsBlank(settings.accessKey) && !IsBlank(settings.secretKey)
    requires !IsBlank(settings.bucketName) && !IsBlank(fileKey)
    ensures Validate(settings) == Pass <==> ValidateS3Path(settings.bucketName, fileKey) == Pass
  {
  }

  /** With Region and AccessKey both blank, only Region is reported. */
  lemma RegionReportedBeforeAccessKey(settings: S3StorageSettings)
    requires !IsBlank(settings.serviceUrl) && IsBlank(settings.region) && IsBlank(settings.accessKey)
    ensures Validate(settings) == Fail(ConfigError("Region" + " is required"))
  {
  }

  /** A fully populated configuration with bucket "my-bucket" passes. */
  lemma CompleteSettingsPass()
    ensures Validate(S3StorageSettings(Some("http://localhost:4566"), Some("us-east-1"),
                                       Some("access"), Some("secret"), Some("my-bucket"))) == Pass
  {
    BucketCharsNotBlank("my-bucket");
    assert AllBucketChars("my-bucket");
    BucketCharsLength("my-bucket");
    assert !IsWhiteSpace("http://localhost:4566"[0]) && !IsWhiteSpace("us-east-1"[0]);
    assert !IsWhiteSpace("access"[0]) && !IsWhiteSpace("secret"[0]);
  }
}
