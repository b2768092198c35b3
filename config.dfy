/** The configuration file and the `init` command's bookkeeping.

    The file's DEFAULT section is modelled as a map from option name to value,
    as configparser returns it; the text of the file is not modelled, but a
    file written by `init` is read back with configparser's stripping of
    values. Before any storage command runs, all five options must be present
    and filled in (helper.py:77-97); `init` sets three of them (cli.py:11-42).
 */
module Config {
  import opened Outcomes

  const AccessKeyIdOption := "aws_access_key_id"
  const SecretAccessKeyOption := "aws_secret_access_key"
  const BucketOption := "bucket"
  const RegionOption := "region"
  const EndpointOption := "endpoint_url"

  /** Placeholders of an unfilled configuration. The bucket's carries a trailing space. */
  const DefaultBucketValue := "INPUT_BUCKET_NAME "
  const DefaultAccessKeyId := "INPUT_AWS_ACCESS_KEY_ID"
  const DefaultSecretAccessKey := "INPUT_AWS_SECRET_ACCESS_KEY"

  /** The bucket placeholder as it reads back from the file: configparser strips
      values, so the trailing space of DefaultBucketValue never survives. */
  const BucketPlaceholder := "INPUT_BUCKET_NAME"

  /** The options of the configuration file's DEFAULT section, as configparser
      returns them. */
  type ConfigFile = map<string, string>

  /** The five settings every storage command reads. */
  datatype Settings = Settings(
    accessKeyId: string,
    secretAccessKey: string,
    bucket: string,
    endpointUrl: string,
    region: string)

  /** The ASCII characters `str.strip()` removes: space, tab to carriage
      return, and the four separators U+001C to U+001F. */
  predicate IsSpace(c: char)
  {
    c == ' ' || '\t' <= c <= '\r' || 28 as char <= c <= 31 as char
  }

  function TrimLeft(s: string): (r: string)
    ensures |r| <= |s| && r == s[|s| - |r|..]
    ensures r == [] || !IsSpace(r[0])
    ensures forall i :: 0 <= i < |s| - |r| ==> IsSpace(s[i])
  {
    if s != [] && IsSpace(s[0]) then TrimLeft(s[1..]) else s
  }

  function TrimRight(s: string): (r: string)
    ensures |r| <= |s| && r == s[..|r|]
    ensures r == [] || !IsSpace(r[|r| - 1])
    ensures forall i :: |r| <= i < |s| ==> IsSpace(s[i])
  {
    if s != [] && IsSpace(s[|s| - 1]) then TrimRight(s[..|s| - 1]) else s
  }

  /** `str.strip()`, which configparser applies to every value it reads: neither
      end of the result is whitespace. */
  function Strip(s: string): (r: string)
    ensures |r| <= |s|
    ensures r == [] || (!IsSpace(r[0]) && !IsSpace(r[|r| - 1]))
  {
    TrimRight(TrimLeft(s))
  }

  /** Strip cuts off only whitespace: every character of the input that is not
      whitespace survives, and nothing is added. */
  lemma StripCutsOnlySpace(s: string)
    ensures forall c :: c in Strip(s) ==> c in s
    ensures forall c :: c in s && c !in Strip(s) ==> IsSpace(c)
  {
    var left := TrimLeft(s);
    var r := Strip(s);
    forall c | c in s && c !in r
      ensures IsSpace(c)
    {
      var i :| 0 <= i < |s| && s[i] == c;
      if i >= |s| - |left| {
        assert left[i - (|s| - |left|)] == c;
      }
    }
  }

  /** The bucket placeholder reads back without its trailing space. */
  lemma StripOfDefaultBucket()
    ensures Strip(DefaultBucketValue) == BucketPlaceholder
  {
    assert TrimLeft(DefaultBucketValue) == DefaultBucketValue;
    assert DefaultBucketValue[..|DefaultBucketValue| - 1] == BucketPlaceholder;
    assert TrimRight(BucketPlaceholder) == BucketPlaceholder;
  }

  /** A value configparser reads back never ends in whitespace. */
  lemma StripNeverEndsInSpace(s: string)
    ensures Strip(s) != DefaultBucketValue
  {
    var r := Strip(s);
    if r == DefaultBucketValue {
      assert IsSpace(r[|r| - 1]);
    }
  }

  /** The values a command reads from the file a previous `init` wrote:
      configparser keeps the option names and strips every value. */
  function Reread(written: ConfigFile): (r: ConfigFile)
    ensures r.Keys == written.Keys
    ensures forall k :: k in r ==> r[k] == Strip(written[k])
  {
    map k | k in written :: Strip(written[k])
  }

  /** is_config_param_invalid (helper.py:70-74): an option is unfilled when it is
      empty or, if it has a placeholder, equal to that placeholder. */
  function IsConfigParamInvalid(param: string, default: Option<string>): (r: bool)
    ensures default.None? ==> (r <==> param == [])
    ensures default.Some? ==> (r <==> param == [] || param == default.value)
  {
    match default
    case None => |param| == 0
    case Some(d) => |param| == 0 || param == d
  }

  /** All five options are present in the file. */
  predicate HasAllOptions(file: ConfigFile)
  {
    && AccessKeyIdOption in file
    && SecretAccessKeyOption in file
    && BucketOption in file
    && EndpointOption in file
    && RegionOption in file
  }

  /** check_and_get_config_file (helper.py:77-97), for a given bucket
      placeholder: a missing option raises inside the `try` and is reported as an
      invalid file; an unfilled option is reported as such; otherwise the five
      settings are returned. */
  function CheckConfigWith(file: ConfigFile, bucketPlaceholder: string): (r: Result<Settings, Error>)
    ensures !HasAllOptions(file) ==> r == Err(InvalidConfigFile)
    ensures HasAllOptions(file) ==>
      (r.Ok? <==>
        && file[AccessKeyIdOption] != "" && file[AccessKeyIdOption] != DefaultAccessKeyId
        && file[SecretAccessKeyOption] != "" && file[SecretAccessKeyOption] != DefaultSecretAccessKey
        && file[BucketOption] != "" && file[BucketOption] != bucketPlaceholder
        && file[EndpointOption] != ""
        && file[RegionOption] != "")
    ensures HasAllOptions(file) && r.Err? ==> r.error == ConfigNotFilled
    ensures r.Ok? ==>
      r.value == Settings(file[AccessKeyIdOption], file[SecretAccessKeyOption],
                          file[BucketOption], file[EndpointOption], file[RegionOption])
  {
    if !HasAllOptions(file) then Err(InvalidConfigFile)
    else
      var accessKeyId := file[AccessKeyIdOption];
      var secretAccessKey := file[SecretAccessKeyOption];
      var bucket := file[BucketOption];
      var endpointUrl := file[EndpointOption];
      var region := file[RegionOption];
      if || IsConfigParamInvalid(accessKeyId, Some(DefaultAccessKeyId))
         || IsConfigParamInvalid(secretAccessKey, Some(DefaultSecretAccessKey))
         || IsConfigParamInvalid(bucket, Some(bucketPlaceholder))
         || IsConfigParamInvalid(endpointUrl, None)
         || IsConfigParamInvalid(region, None)
      then Err(ConfigNotFilled)
      else Ok(Settings(accessKeyId, secretAccessKey, bucket, endpointUrl, region))
  }

  /** The check as written, which every storage command runs: the bucket is
      compared with DefaultBucketValue, trailing space included. */
  function CheckConfigAsWritten(file: ConfigFile): (r: Result<Settings, Error>)
    ensures !HasAllOptions(file) ==> r == Err(InvalidConfigFile)
    ensures HasAllOptions(file) ==>
      (r.Ok? <==>
        && file[AccessKeyIdOption] != "" && file[AccessKeyIdOption] != "INPUT_AWS_ACCESS_KEY_ID"
        && file[SecretAccessKeyOption] != "" && file[SecretAccessKeyOption] != "INPUT_AWS_SECRET_ACCESS_KEY"
        && file[BucketOption] != "" && file[BucketOption] != "INPUT_BUCKET_NAME "
        && file[EndpointOption] != ""
        && file[RegionOption] != "")
    ensures HasAllOptions(file) && r.Err? ==> r.error == ConfigNotFilled
    ensures r.Ok? ==>
      r.value == Settings(file[AccessKeyIdOption], file[SecretAccessKeyOption],
                          file[BucketOption], file[EndpointOption], file[RegionOption])
  {
    CheckConfigWith(file, DefaultBucketValue)
  }

  /** On a file as configparser reads it, the check as written never rejects the
      bucket placeholder: writing the placeholder as the bucket of an otherwise
      filled configuration leaves a configuration that passes. */
  lemma PlaceholderBucketAccepted(written: ConfigFile)
    requires HasAllOptions(written) && CheckConfigAsWritten(Reread(written)).Ok?
    ensures CheckConfigAsWritten(Reread(written[BucketOption := DefaultBucketValue])).Ok?
  {
    var after := Reread(written[BucketOption := DefaultBucketValue]);
    RereadPlaceholderBucket(written);
    assert after[BucketOption] != DefaultBucketValue by {
      assert |BucketPlaceholder| != |DefaultBucketValue|;
    }
  }

  /** Writing the bucket placeholder changes only the bucket value read back,
      and that value is the placeholder without its trailing space. */
  lemma RereadPlaceholderBucket(written: ConfigFile)
    requires HasAllOptions(written)
    ensures var before, after := Reread(written), Reread(written[BucketOption := DefaultBucketValue]);
      && HasAllOptions(after)
      && after[BucketOption] == BucketPlaceholder
      && after[AccessKeyIdOption] == before[AccessKeyIdOption]
      && after[SecretAccessKeyOption] == before[SecretAccessKeyOption]
      && after[EndpointOption] == before[EndpointOption]
      && after[RegionOption] == before[RegionOption]
  {
    StripOfDefaultBucket();
  }

  /** The corrected check: as check_and_get_config_file, but the bucket is
      compared with the placeholder as it reads back, so an unfilled bucket is
      rejected like an unfilled key. */
  function CheckConfig(file: ConfigFile): (r: Result<Settings, Error>)
    ensures !HasAllOptions(file) ==> r == Err(InvalidConfigFile)
    ensures HasAllOptions(file) ==>
      (r.Ok? <==>
        && file[AccessKeyIdOption] != "" && file[AccessKeyIdOption] != "INPUT_AWS_ACCESS_KEY_ID"
        && file[SecretAccessKeyOption] != "" && file[SecretAccessKeyOption] != "INPUT_AWS_SECRET_ACCESS_KEY"
        && file[BucketOption] != "" && file[BucketOption] != "INPUT_BUCKET_NAME"
        && file[EndpointOption] != ""
        && file[RegionOption] != "")
    ensures HasAllOptions(file) && r.Err? ==> r.error == ConfigNotFilled
    ensures r.Ok? ==>
      r.value == Settings(file[AccessKeyIdOption], file[SecretAccessKeyOption],
                          file[BucketOption], file[EndpointOption], file[RegionOption])
  {
    CheckConfigWith(file, BucketPlaceholder)
  }

  /** With the corrected comparison, writing the bucket placeholder into any
      complete configuration makes the next command report it unfilled. */
  lemma {:induction false} PlaceholderBucketRejected(written: ConfigFile)
    requires HasAllOptions(written)
    ensures CheckConfig(Reread(written[BucketOption := DefaultBucketValue])) == Err(ConfigNotFilled)
  {
    RereadPlaceholderBucket(written);
  }

  /** What `init` did: the configuration it wrote, if it got that far; whether it
      created the bucket; and how it ended. */
  datatype InitRun = InitRun(written: Option<ConfigFile>, createBucket: bool, outcome: Outcome<Error>)

  /** init (cli.py:11-42): rejects an empty access key, secret key or bucket
      before touching the file. Otherwise it writes the file with those three
      options set and every other option kept. Building the storage client
      (cli.py:33) then reads the endpoint and the region, so a file without either
      option stops `init` after the write and before the bucket step; else the
      bucket is created when it is not among the existing buckets. */
  function Init(file: ConfigFile, accessKeyId: string, secretAccessKey: string, bucket: string,
                existingBuckets: seq<string>): (r: InitRun)
    ensures r.outcome.Fail? <==>
      || accessKeyId == "" || secretAccessKey == "" || bucket == ""
      || EndpointOption !in file || RegionOption !in file
    ensures accessKeyId == "" || secretAccessKey == "" || bucket == "" ==>
      r == InitRun(None, false, Fail(RequiredParamsMissing))
    ensures accessKeyId != "" && secretAccessKey != "" && bucket != "" ==>
      && r.written.Some?
      && r.written.value.Keys == file.Keys + {AccessKeyIdOption, SecretAccessKeyOption, BucketOption}
      && r.written.value[AccessKeyIdOption] == accessKeyId
      && r.written.value[SecretAccessKeyOption] == secretAccessKey
      && r.written.value[BucketOption] == bucket
      && (forall k :: k in file && k != AccessKeyIdOption && k != SecretAccessKeyOption && k != BucketOption ==>
            r.written.value[k] == file[k])
    ensures r.outcome.Fail? && r.written.Some? ==> r.outcome.error == ClientOptionMissing
    ensures r.createBucket <==> r.outcome.Pass? && bucket !in existingBuckets
  {
    if accessKeyId == "" || secretAccessKey == "" || bucket == "" then
      InitRun(None, false, Fail(RequiredParamsMissing))
    else
      var written := file[AccessKeyIdOption := accessKeyId]
                         [SecretAccessKeyOption := secretAccessKey]
                         [BucketOption := bucket];
      if EndpointOption !in written || RegionOption !in written then
        InitRun(Some(written), false, Fail(ClientOptionMissing))
      else
        InitRun(Some(written), bucket !in existingBuckets, Pass)
  }

  /** Running `init` does not by itself make the configuration usable. Once its
      inputs are non-empty it writes the file, and the commands that follow,
      reading the values back stripped, accept it exactly when no stripped input
      is empty, neither key is its placeholder, and the file already held a
      non-empty region and endpoint, which `init` never writes. No stripped
      bucket equals the bucket placeholder, so only an empty one is refused. */
  lemma InitThenCheckConfig(file: ConfigFile, accessKeyId: string, secretAccessKey: string,
                            bucket: string, existingBuckets: seq<string>)
    requires accessKeyId != "" && secretAccessKey != "" && bucket != ""
    ensures var written := Init(file, accessKeyId, secretAccessKey, bucket, existingBuckets).written.value;
      CheckConfigAsWritten(Reread(written)).Ok? <==>
        && Strip(accessKeyId) != "" && Strip(accessKeyId) != DefaultAccessKeyId
        && Strip(secretAccessKey) != "" && Strip(secretAccessKey) != DefaultSecretAccessKey
        && Strip(bucket) != ""
        && EndpointOption in file && Strip(file[EndpointOption]) != ""
        && RegionOption in file && Strip(file[RegionOption]) != ""
  {
    StripNeverEndsInSpace(bucket);
  }

  /** A blank access key passes `init` but not the next command: configparser
      reads it back empty. */
  lemma {:induction false} InitBlankKeyNotFilled(file: ConfigFile, secretAccessKey: string,
                                                bucket: string, existingBuckets: seq<string>)
    requires secretAccessKey != "" && bucket != "" && EndpointOption in file && RegionOption in file
    ensures Init(file, " ", secretAccessKey, bucket, existingBuckets).outcome == Pass
    ensures CheckConfigAsWritten(Reread(Init(file, " ", secretAccessKey, bucket, existingBuckets).written.value))
            == Err(ConfigNotFilled)
  {
    assert TrimLeft(" ") == [];
  }

  /** Bucket creation is idempotent: once `init` has created the bucket, running
      it again on the file it wrote, with the same bucket, creates nothing. */
  lemma InitBucketIdempotent(file: ConfigFile, accessKeyId: string, secretAccessKey: string,
                             bucket: string, existingBuckets: seq<string>)
    requires Init(file, accessKeyId, secretAccessKey, bucket, existingBuckets).outcome.Pass?
    ensures var e := Init(file, accessKeyId, secretAccessKey, bucket, existingBuckets);
      var buckets := if e.createBucket then existingBuckets + [bucket] else existingBuckets;
      !Init(Reread(e.written.value), accessKeyId, secretAccessKey, bucket, buckets).createBucket
  {
  }
}
