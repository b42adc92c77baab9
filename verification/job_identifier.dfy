/**
 * The identity of one GoCD job attempt: seven exposed fields, value equality
 * and hashing over them, the slash-separated display strings, and the seven
 * instance tags that carry the identity on an EC2 instance.
 */
module JobIdentifiers {
  import opened Wrappers
  import opened JavaLang
  import Decimal
  import Json
  import Text
  import opened Ec2

  /**
   * A job identifier. Every exposed field may be null; `representation` is
   * the display string `getRepresentation` memoises, and takes no part in
   * equality, hashing or the tags.
   */
  datatype JobIdentifier = JobIdentifier(
    pipelineName: Option<string>,
    pipelineCounter: Option<Long>,
    pipelineLabel: Option<string>,
    stageName: Option<string>,
    stageCounter: Option<string>,
    jobName: Option<string>,
    jobId: Option<Long>,
    representation: Option<string>)

  /** The seven-argument constructor: each argument is stored as given and the cache starts out null. */
  function NewJobIdentifier(
    pipelineName: Option<string>, pipelineCounter: Option<Long>, pipelineLabel: Option<string>,
    stageName: Option<string>, stageCounter: Option<string>, jobName: Option<string>,
    jobId: Option<Long>): (j: JobIdentifier)
    ensures j.pipelineName == pipelineName && j.pipelineCounter == pipelineCounter
    ensures j.pipelineLabel == pipelineLabel && j.stageName == stageName
    ensures j.stageCounter == stageCounter && j.jobName == jobName && j.jobId == jobId
    ensures j.representation.None?
  {
    JobIdentifier(pipelineName, pipelineCounter, pipelineLabel, stageName, stageCounter, jobName, jobId, None)
  }

  /** `equals`: the seven exposed fields agree (null equal to null); the cache is ignored. */
  predicate Equals(a: JobIdentifier, b: JobIdentifier)
  {
    && a.pipelineName == b.pipelineName
    && a.pipelineCounter == b.pipelineCounter
    && a.pipelineLabel == b.pipelineLabel
    && a.stageName == b.stageName
    && a.stageCounter == b.stageCounter
    && a.jobName == b.jobName
    && a.jobId == b.jobId
  }

  /** `equals` is an equivalence relation. */
  lemma EqualsIsEquivalence(a: JobIdentifier, b: JobIdentifier, c: JobIdentifier)
    ensures Equals(a, a)
    ensures Equals(a, b) <==> Equals(b, a)
    ensures Equals(a, b) && Equals(b, c) ==> Equals(a, c)
  {
  }

  /** Two identifiers are equal exactly when they differ at most in their cached display string. */
  lemma EqualsIffSameFields(a: JobIdentifier, b: JobIdentifier)
    ensures Equals(a, b) <==> a.(representation := None) == b.(representation := None)
  {
  }

  /** Two constructed identifiers are equal exactly when they were given the same arguments. */
  lemma ConstructorInjective(
    pn: Option<string>, pc: Option<Long>, pl: Option<string>, sn: Option<string>, sc: Option<string>,
    jn: Option<string>, ji: Option<Long>,
    pn': Option<string>, pc': Option<Long>, pl': Option<string>, sn': Option<string>, sc': Option<string>,
    jn': Option<string>, ji': Option<Long>)
    ensures Equals(NewJobIdentifier(pn, pc, pl, sn, sc, jn, ji), NewJobIdentifier(pn', pc', pl', sn', sc', jn', ji'))
        <==> (pn, pc, pl, sn, sc, jn, ji) == (pn', pc', pl', sn', sc', jn', ji')
  {
  }

  /** `hashCode`: `Objects.hash` over the same seven fields, in declaration order. */
  function HashCode(j: JobIdentifier): Int32
  {
    ObjectsHash([
      NullableStringHash(j.pipelineName), NullableLongHash(j.pipelineCounter),
      NullableStringHash(j.pipelineLabel), NullableStringHash(j.stageName),
      NullableStringHash(j.stageCounter), NullableStringHash(j.jobName),
      NullableLongHash(j.jobId)])
  }

  /** Equal identifiers hash equally, whatever their caches hold. */
  lemma EqualsImpliesEqualHash(a: JobIdentifier, b: JobIdentifier)
    requires Equals(a, b)
    ensures HashCode(a) == HashCode(b)
  {
  }

  /** What `%d` prints for a nullable `Long`. */
  function CounterText(v: Option<Long>): string
  {
    match v
    case None => "null"
    case Some(x) => Decimal.DecimalString(x)
  }

  /** The five values `represent()` prints, in order. */
  function DisplayFields(j: JobIdentifier): seq<string>
  {
    [NullToString(j.pipelineName), CounterText(j.pipelineCounter), NullToString(j.stageName),
     NullToString(j.stageCounter), NullToString(j.jobName)]
  }

  /** `represent()`: `String.format("%s/%d/%s/%s/%s", ...)`. */
  function Represent(j: JobIdentifier): string
  {
    NullToString(j.pipelineName) + "/" + CounterText(j.pipelineCounter) + "/" + NullToString(j.stageName)
      + "/" + NullToString(j.stageCounter) + "/" + NullToString(j.jobName)
  }

  predicate NoSlashInNames(j: JobIdentifier)
  {
    && Text.Lacks(NullToString(j.pipelineName), '/')
    && Text.Lacks(NullToString(j.stageName), '/')
    && Text.Lacks(NullToString(j.stageCounter), '/')
    && Text.Lacks(NullToString(j.jobName), '/')
  }

  lemma RepresentIsJoin(j: JobIdentifier)
    ensures Represent(j) == Text.JoinWith(DisplayFields(j), '/')
  {
    var f := DisplayFields(j);
    assert f[4..] == [f[4]] && f[3..][1..] == f[4..] && f[2..][1..] == f[3..] && f[1..][1..] == f[2..];
    assert Text.JoinWith(f[3..], '/') == f[3] + "/" + f[4];
    assert Text.JoinWith(f[2..], '/') == f[2] + "/" + f[3] + "/" + f[4];
    assert Text.JoinWith(f[1..], '/') == f[1] + "/" + f[2] + "/" + f[3] + "/" + f[4];
  }

  /**
   * The display string cuts at its slashes back into pipeline name, counter,
   * stage name, stage counter and job name; when the names hold no slash
   * there are exactly four. The label and job id are not part of it.
   */
  lemma RepresentSplitsIntoFields(j: JobIdentifier)
    requires NoSlashInNames(j)
    ensures Text.SplitOn(Represent(j), '/') == DisplayFields(j)
    ensures Text.Count(Represent(j), '/') == 4
  {
    var f := DisplayFields(j);
    assert Text.Lacks(f[1], '/') by {
      if j.pipelineCounter.Some? {
        var d := Decimal.DecimalString(j.pipelineCounter.value);
        assert forall i :: 0 <= i < |d| ==> Decimal.IsDigit(d[i]) || d[i] == '-';
      }
    }
    RepresentIsJoin(j);
    Text.SplitJoinWith(f, '/');
    Text.SplitOnLength(Represent(j), '/');
  }

  /** The label and the job id do not affect the display string. */
  lemma RepresentIgnoresLabelAndJobId(j: JobIdentifier, newLabel: Option<string>, newJobId: Option<Long>)
    ensures Represent(j.(pipelineLabel := newLabel, jobId := newJobId)) == Represent(j)
  {
  }

  /** What `MessageFormat` prints for a nullable `Long` argument, grouping digits with `separator`. */
  function GroupedCounterText(v: Option<Long>, separator: char): string
  {
    match v
    case None => "null"
    case Some(x) => Decimal.GroupedDecimal(x, separator)
  }

  /**
   * `format("{0}/{1}/{2}/{3}/{4}", ...)` under a default locale whose
   * grouping separator is `separator`.
   */
  function FormatRepresentation(j: JobIdentifier, separator: char): string
  {
    NullToString(j.pipelineName) + "/" + GroupedCounterText(j.pipelineCounter, separator) + "/"
      + NullToString(j.stageName) + "/" + NullToString(j.stageCounter) + "/" + NullToString(j.jobName)
  }

  /**
   * `getRepresentation()`: formats and caches the display string when the
   * cache is blank, otherwise returns the cache. The first component is the
   * identifier afterwards.
   */
  function GetRepresentation(j: JobIdentifier, separator: char): (r: (JobIdentifier, string))
    ensures Equals(r.0, j)
    ensures r.0.representation == Some(r.1)
    ensures IsBlank(j.representation) ==> r.1 == FormatRepresentation(j, separator)
    ensures !IsBlank(j.representation) ==> r == (j, j.representation.value)
  {
    if IsBlank(j.representation) then
      var s := FormatRepresentation(j, separator);
      (j.(representation := Some(s)), s)
    else (j, j.representation.value)
  }

  lemma FormattedIsNotBlank(j: JobIdentifier, separator: char)
    ensures !IsBlank(Some(FormatRepresentation(j, separator)))
  {
    var s := FormatRepresentation(j, separator);
    var k := |NullToString(j.pipelineName)|;
    assert s[k] == '/';
  }

  /** Memoisation is invisible: a second call returns the same string and leaves the identifier as it is. */
  lemma GetRepresentationIsStable(j: JobIdentifier, separator: char)
    ensures var (j1, s1) := GetRepresentation(j, separator);
      GetRepresentation(j1, separator) == (j1, s1)
  {
    FormattedIsNotBlank(j, separator);
  }

  /**
   * The locale rendering and `represent()` differ only by grouping
   * separators: deleting them from the first gives the second.
   */
  lemma FormatDiffersOnlyBySeparators(j: JobIdentifier, separator: char)
    requires !Decimal.IsDigit(separator) && separator != '-' && separator != '/'
    requires forall i :: 0 <= i < 5 ==> Text.Lacks(DisplayFields(j)[i], separator)
    ensures Decimal.Without(FormatRepresentation(j, separator), separator) == Represent(j)
  {
    var f := DisplayFields(j);
    forall i | 0 <= i < 5 && i != 1
      ensures Decimal.Without(f[i], separator) == f[i]
    {
      WithoutAbsent(f[i], separator);
    }
    var c := GroupedCounterText(j.pipelineCounter, separator);
    assert Decimal.Without(c, separator) == f[1] by {
      if j.pipelineCounter.Some? {
        Decimal.UngroupedIsDecimal(j.pipelineCounter.value, separator);
      } else {
        WithoutAbsent(f[1], separator);
      }
    }
    var slash := Decimal.Without("/", separator);
    assert slash == "/";
    Decimal.WithoutConcat(f[0] + "/" + c + "/" + f[2] + "/" + f[3] + "/", f[4], separator);
    Decimal.WithoutConcat(f[0] + "/" + c + "/" + f[2] + "/" + f[3], "/", separator);
    Decimal.WithoutConcat(f[0] + "/" + c + "/" + f[2] + "/", f[3], separator);
    Decimal.WithoutConcat(f[0] + "/" + c + "/" + f[2], "/", separator);
    Decimal.WithoutConcat(f[0] + "/" + c + "/", f[2], separator);
    Decimal.WithoutConcat(f[0] + "/" + c, "/", separator);
    Decimal.WithoutConcat(f[0] + "/", c, separator);
    Decimal.WithoutConcat(f[0], "/", separator);
  }

  lemma {:induction false} WithoutAbsent(s: string, c: char)
    requires Text.Lacks(s, c)
    ensures Decimal.Without(s, c) == s
    decreases |s|
  {
    if s != [] {
      WithoutAbsent(s[1..], c);
    }
  }

  /** Below one thousand, the locale rendering and `represent()` agree. */
  lemma FormatAgreesForSmallCounters(j: JobIdentifier, separator: char)
    requires j.pipelineCounter.Some? ==> -1000 < j.pipelineCounter.value < 1000
    ensures FormatRepresentation(j, separator) == Represent(j)
  {
    if j.pipelineCounter.Some? {
      Decimal.GroupedSmallIsDecimal(j.pipelineCounter.value, separator);
    }
  }

  /**
   * The display string as intended: `represent()`'s plain rendering,
   * memoised the way `getRepresentation()` memoises.
   */
  function GetDisplayString(j: JobIdentifier): (r: (JobIdentifier, string))
    ensures Equals(r.0, j)
    ensures r.0.representation == Some(r.1)
    ensures IsBlank(j.representation) ==> r.1 == Represent(j)
    ensures !IsBlank(j.representation) ==> r == (j, j.representation.value)
  {
    if IsBlank(j.representation) then
      var s := Represent(j);
      (j.(representation := Some(s)), s)
    else (j, j.representation.value)
  }

  /** With an empty cache the intended display string cuts back into its five fields. */
  lemma DisplayStringSplitsIntoFields(j: JobIdentifier)
    requires j.representation.None? && NoSlashInNames(j)
    ensures Text.SplitOn(GetDisplayString(j).1, '/') == DisplayFields(j)
  {
    RepresentSplitsIntoFields(j);
  }

  /** A counter of 1234 under a comma-grouping locale: `getRepresentation` and `represent` disagree. */
  lemma RepresentationGroupsLargeCounters()
    ensures var j := NewJobIdentifier(Some("build"), Some(1234), None, Some("unit"), Some("1"), Some("tests"), Some(501));
      && GetRepresentation(j, ',').1 == "build/1,234/unit/1/tests"
      && Represent(j) == "build/1234/unit/1/tests"
  {
    GroupedExample();
    PlainExample();
  }

  lemma GroupedExample()
    ensures Decimal.GroupedDecimal(1234, ',') == "1,234"
  {
    assert Decimal.Digits(1) == "1";
    assert 1234 / 1000 == 1 && 1234 % 1000 == 234;
    assert Decimal.Pad3(234) == "234";
    assert Decimal.GroupedDigits(1234, ',') == Decimal.GroupedDigits(1, ',') + [','] + Decimal.Pad3(234);
  }

  lemma PlainExample()
    ensures Decimal.DecimalString(1234) == "1234"
  {
    assert Decimal.Digits(1) == "1";
    assert Decimal.Digits(12) == Decimal.Digits(1) + "2";
    assert Decimal.Digits(123) == Decimal.Digits(12) + "3";
    assert Decimal.Digits(1234) == Decimal.Digits(123) + "4";
  }

  /** The worked example: `build/12/unit/1/tests`. */
  lemma DisplayStringExample()
    ensures var j := NewJobIdentifier(Some("build"), Some(12), Some("12"), Some("unit"), Some("1"), Some("tests"), Some(501));
      && Represent(j) == "build/12/unit/1/tests"
      && GetDisplayString(j).1 == "build/12/unit/1/tests"
      && GetRepresentation(j, ',').1 == "build/12/unit/1/tests"
  {
    assert Decimal.Digits(1) == "1";
    assert Decimal.Digits(12) == "12";
  }

  /** The tag keys, in the order `getTagsForInstance` adds them. */
  const TAG_KEYS: seq<string> :=
    ["pipelineName", "pipelineCounter", "pipelineLabel", "stageName", "stageCounter", "jobName", "jobId"]

  /** `getTagsForInstance`: one tag per field, its value the field as Gson writes it. */
  function TagsForInstance(j: JobIdentifier): (tags: seq<Tag>)
    ensures |tags| == 7
    ensures forall i :: 0 <= i < 7 ==> tags[i].key == TAG_KEYS[i]
    ensures forall i, k :: 0 <= i < k < 7 ==> tags[i].key != tags[k].key
  {
    [Tag(TAG_KEYS[0], Json.StringToJson(j.pipelineName)),
     Tag(TAG_KEYS[1], Json.LongToJson(j.pipelineCounter)),
     Tag(TAG_KEYS[2], Json.StringToJson(j.pipelineLabel)),
     Tag(TAG_KEYS[3], Json.StringToJson(j.stageName)),
     Tag(TAG_KEYS[4], Json.StringToJson(j.stageCounter)),
     Tag(TAG_KEYS[5], Json.StringToJson(j.jobName)),
     Tag(TAG_KEYS[6], Json.LongToJson(j.jobId))]
  }

  /** The reason a tag list does not describe a job. */
  datatype CorrelationError = MalformedCorrelationData(key: string)

  function StringTag(tags: seq<Tag>, key: string): Result<Option<string>, CorrelationError>
  {
    match FirstTagValue(tags, key)
    case None => Failure(MalformedCorrelationData(key))
    case Some(v) =>
      match Json.StringFromJson(v)
      case None => Failure(MalformedCorrelationData(key))
      case Some(s) => Success(s)
  }

  function LongTag(tags: seq<Tag>, key: string): Result<Option<Long>, CorrelationError>
  {
    match FirstTagValue(tags, key)
    case None => Failure(MalformedCorrelationData(key))
    case Some(v) =>
      match Json.LongFromJson(v)
      case None => Failure(MalformedCorrelationData(key))
      case Some(x) => Success(x)
  }

  /**
   * Recovers a job identifier from an instance's tags: each of the seven keys
   * must be present (the first tag with the key counts) and hold a JSON value
   * of the field's type.
   */
  function IdentityFromTags(tags: seq<Tag>): Result<JobIdentifier, CorrelationError>
  {
    var pipelineName :- StringTag(tags, TAG_KEYS[0]);
    var pipelineCounter :- LongTag(tags, TAG_KEYS[1]);
    var pipelineLabel :- StringTag(tags, TAG_KEYS[2]);
    var stageName :- StringTag(tags, TAG_KEYS[3]);
    var stageCounter :- StringTag(tags, TAG_KEYS[4]);
    var jobName :- StringTag(tags, TAG_KEYS[5]);
    var jobId :- LongTag(tags, TAG_KEYS[6]);
    Success(NewJobIdentifier(pipelineName, pipelineCounter, pipelineLabel, stageName, stageCounter, jobName, jobId))
  }

  lemma TagLookup(j: JobIdentifier, i: int)
    requires 0 <= i < 7
    ensures FirstTagValue(TagsForInstance(j), TAG_KEYS[i]) == Some(TagsForInstance(j)[i].value)
  {
    var tags := TagsForInstance(j);
    assert forall k :: 0 <= k < i ==> tags[k].key != tags[i].key;
  }

  /** Decoding the tags gives back every field of the identifier; only the cache is lost. */
  lemma TagsRoundTrip(j: JobIdentifier)
    ensures IdentityFromTags(TagsForInstance(j)) == Success(j.(representation := None))
  {
    var tags := TagsForInstance(j);
    TagLookup(j, 0);
    TagLookup(j, 1);
    TagLookup(j, 2);
    TagLookup(j, 3);
    TagLookup(j, 4);
    TagLookup(j, 5);
    TagLookup(j, 6);
    Json.StringRoundTrip(j.pipelineName);
    Json.LongRoundTrip(j.pipelineCounter);
    Json.StringRoundTrip(j.pipelineLabel);
    Json.StringRoundTrip(j.stageName);
    Json.StringRoundTrip(j.stageCounter);
    Json.StringRoundTrip(j.jobName);
    Json.LongRoundTrip(j.jobId);
  }

  /** The tags identify the job: two identifiers have the same tags exactly when they are equal. */
  lemma TagsDetermineIdentity(a: JobIdentifier, b: JobIdentifier)
    ensures TagsForInstance(a) == TagsForInstance(b) <==> Equals(a, b)
  {
    if TagsForInstance(a) == TagsForInstance(b) {
      TagsRoundTrip(a);
      TagsRoundTrip(b);
    }
  }
}
