/**
 * One provisioned EC2 instance as the plugin sees it (`ExampleInstance`), and
 * the builder that assembles a run-instances request from a create-agent
 * request and the plugin settings, launches it and wraps the first instance
 * the provider returns.
 */
module Instances {
  import opened Wrappers
  import opened JavaLang
  import opened Ec2
  import Text
  import Base64
  import Ascii
  import opened JobIdentifiers

  datatype ExampleInstance = ExampleInstance(instance: Instance)

  /** `name()`: the provider-assigned instance id, the registry key. */
  function Name(e: ExampleInstance): string
  {
    e.instance.instanceId
  }

  /**
   * `createdAt()`: the launch time cut down to its whole epoch second, as
   * epoch milliseconds. It is the start of the second the launch falls in.
   */
  function CreatedAtMillis(e: ExampleInstance): (ms: int)
    ensures ms % 1000 == 0
    ensures ms * 1_000_000 <= EpochNanos(e.instance.launchTime) < ms * 1_000_000 + 1_000_000_000
  {
    e.instance.launchTime.epochSecond * 1000
  }

  /** Two launch times in the same second give the same creation time; the sub-second part is dropped. */
  lemma CreatedAtTruncatesToSeconds(e: ExampleInstance, f: ExampleInstance)
    ensures (EpochNanos(e.instance.launchTime) / 1_000_000_000 == EpochNanos(f.instance.launchTime) / 1_000_000_000)
      <==> CreatedAtMillis(e) == CreatedAtMillis(f)
  {
    var se, sf := e.instance.launchTime.epochSecond, f.instance.launchTime.epochSecond;
    assert EpochNanos(e.instance.launchTime) / 1_000_000_000 == se;
    assert EpochNanos(f.instance.launchTime) / 1_000_000_000 == sf;
  }

  /**
   * `getTagValue` as written: tag keys are compared with `==`, which for Java
   * strings is object identity. `sameObject` stands for that comparison; it
   * can only hold between equal strings, but equal strings need not satisfy it.
   */
  function GetTagValue(e: ExampleInstance, key: string, sameObject: (string, string) -> bool): (r: Option<string>)
    ensures r.None? <==> forall i :: 0 <= i < |e.instance.tags| ==> !sameObject(e.instance.tags[i].key, key)
    ensures r.Some? ==> exists i :: 0 <= i < |e.instance.tags|
                           && sameObject(e.instance.tags[i].key, key) && r.value == e.instance.tags[i].value
                           && forall k :: 0 <= k < i ==> !sameObject(e.instance.tags[k].key, key)
  {
    ScanTags(e.instance.tags, key, sameObject)
  }

  function ScanTags(tags: seq<Tag>, key: string, sameObject: (string, string) -> bool): (r: Option<string>)
    ensures r.None? <==> forall i :: 0 <= i < |tags| ==> !sameObject(tags[i].key, key)
    ensures r.Some? ==> exists i :: 0 <= i < |tags| && sameObject(tags[i].key, key) && r.value == tags[i].value
                           && forall k :: 0 <= k < i ==> !sameObject(tags[k].key, key)
  {
    if tags == [] then None
    else if sameObject(tags[0].key, key) then Some(tags[0].value)
    else
      var r := ScanTags(tags[1..], key, sameObject);
      if r.Some? then
        var i :| 0 <= i < |tags[1..]| && sameObject(tags[1..][i].key, key) && r.value == tags[1..][i].value
                 && forall k :: 0 <= k < i ==> !sameObject(tags[1..][k].key, key);
        assert forall k :: 0 <= k < i + 1 ==> !sameObject(tags[k].key, key) by {
          forall k | 0 <= k < i + 1 ensures !sameObject(tags[k].key, key) {
            if k > 0 { assert tags[k] == tags[1..][k - 1]; }
          }
        }
        r
      else r
  }

  /**
   * Whatever the identity comparison, a value `getTagValue` finds belongs to
   * a tag whose key equals the one asked for.
   */
  lemma GetTagValueIsSound(e: ExampleInstance, key: string, sameObject: (string, string) -> bool)
    requires forall a, b :: sameObject(a, b) ==> a == b
    ensures GetTagValue(e, key, sameObject).Some? ==>
              TagValue(e, key).Some? &&
              exists i :: 0 <= i < |e.instance.tags| && e.instance.tags[i].key == key
                && GetTagValue(e, key, sameObject).value == e.instance.tags[i].value
  {
  }

  /**
   * Tag keys read back from the provider are never the very object the
   * caller passes in, so `getTagValue` misses a tag whose key is equal.
   */
  lemma GetTagValueMissesEqualKey()
    ensures var e := ExampleInstance(Instance("i-0abc", Instant(0, 0), [Tag("Environment", "production")]));
      && GetTagValue(e, "Environment", (a: string, b: string) => false).None?
      && TagValue(e, "Environment") == Some("production")
  {
  }

  /** The tag lookup as intended: the value of the first tag whose key equals `key`. */
  function TagValue(e: ExampleInstance, key: string): (r: Option<string>)
    ensures r.None? <==> forall i :: 0 <= i < |e.instance.tags| ==> e.instance.tags[i].key != key
    ensures forall i :: 0 <= i < |e.instance.tags| && e.instance.tags[i].key == key
                        && (forall k :: 0 <= k < i ==> e.instance.tags[k].key != key) ==>
                          r == Some(e.instance.tags[i].value)
  {
    FirstTagValue(e.instance.tags, key)
  }

  /** Had the keys been compared by value, the written loop would compute the intended lookup. */
  lemma {:induction false} ScanTagsByValue(tags: seq<Tag>, key: string)
    ensures ScanTags(tags, key, (a: string, b: string) => a == b) == FirstTagValue(tags, key)
    decreases |tags|
  {
    if tags != [] {
      ScanTagsByValue(tags[1..], key);
    }
  }

  lemma GetTagValueByValue(e: ExampleInstance, key: string)
    ensures GetTagValue(e, key, (a: string, b: string) => a == b) == TagValue(e, key)
  {
    ScanTagsByValue(e.instance.tags, key);
  }

  /** `jobIdentifier()`: the job the instance's tags describe, or why they describe none. */
  function JobIdentifierOf(e: ExampleInstance): Result<JobIdentifier, CorrelationError>
  {
    IdentityFromTags(e.instance.tags)
  }

  /** The instance was launched for `job`: its tags decode to an identifier equal to `job`. */
  predicate BelongsToJob(e: ExampleInstance, job: JobIdentifier)
  {
    JobIdentifierOf(e).Success? && Equals(JobIdentifierOf(e).value, job)
  }

  /** An instance carrying exactly a job's tags belongs to that job and to no other. */
  lemma TaggedInstanceBelongsToJob(e: ExampleInstance, job: JobIdentifier, other: JobIdentifier)
    requires e.instance.tags == TagsForInstance(job)
    ensures BelongsToJob(e, job)
    ensures BelongsToJob(e, other) <==> Equals(job, other)
  {
    TagsRoundTrip(job);
  }

  /** A property command: one change to the run-instances request builder. */
  type Command = LaunchRequest -> LaunchRequest

  /**
   * The parts of a `CreateAgentRequest` the builder reads. `autoregisterProperties`
   * is what `autoregisterPropertiesAsString("$instanceId", "$hostName")` returns.
   */
  datatype CreateAgentRequest = CreateAgentRequest(
    jobIdentifier: JobIdentifier,
    autoregisterProperties: string,
    propertyCommands: seq<Command>)

  /** The plugin settings the core reads; the auto-register period is in milliseconds. */
  datatype PluginSettings = PluginSettings(goServerUrl: Option<string>, autoRegisterPeriod: int)

  /** `ExampleInstance.Builder` once its request and settings have been set (either may be null). */
  datatype Builder = Builder(request: Option<CreateAgentRequest>, settings: Option<PluginSettings>)

  datatype ProvisioningError =
    | NullRequest          // a null request is dereferenced, by `create` before anything else
    | MissingRequest       // "Must provide a CreateAgentRequest to the builder."
    | MissingSettings      // "Must provide a PluginSettings to the builder."
    | ProviderFailure(reason: string)
    | NoInstanceReturned   // `get(0)` on an empty instance list

  /*
   * The script's fixed text, named piece by piece: the agent's config
   * directory, the instance metadata service, and the agent installer.
   */
  const ConfigDir: string := "C:\\Program Files (x86)\\Go Agent\\config"
  const MetadataHost: string := "http://169.254.169.254"
  const MetadataPath: string := "/latest/meta-data/"
  const DownloadsDir: string := "C:\\Users\\Administrator\\Downloads\\"
  const InstallerVersion: string := "go-agent-18.11.0-8024"
  const InstallerSuffix: string := "-jre-64bit-setup.exe"
  const DownloadSite: string := "https://download.gocd.org/binaries/"
  const DownloadDir: string := "18.11.0-8024/win/"

  const InstallerPath: string := DownloadsDir + InstallerVersion + InstallerSuffix

  /** The installer line up to the server URL, which follows a backtick-escaped quote. */
  const InstallerPrefix: string := InstallerPath + " /S /START_AGENT=YES /SERVERURL=`\""

  /** The eleven lines of the PowerShell user-data script, in order. */
  function ScriptLines(autoregisterProperties: string, goServerUrl: Option<string>): (lines: seq<string>)
    ensures |lines| == 11
    ensures lines[0] == "<powershell>" && lines[10] == "</powershell>"
    ensures lines[5] == autoregisterProperties
    ensures lines[9] == InstallerPrefix + NullToString(goServerUrl) + "`\""
  {
    ["<powershell>",
     "mkdir \"" + ConfigDir + "\"",
     "$instanceId = (Invoke-WebRequest " + MetadataHost + MetadataPath + "instance-id).Content",
     "$hostName = (Invoke-WebRequest " + MetadataHost + MetadataPath + "public-hostname).Content",
     "$UserInfoToFile = @\"",
     autoregisterProperties,
     "\"@",
     "$UserInfoToFile | Out-File -FilePath \"" + ConfigDir + "\\autoregister.properties\"" + " -Encoding ASCII",
     "Invoke-WebRequest -OutFile " + InstallerPath + " "
       + DownloadSite + DownloadDir + InstallerVersion + InstallerSuffix,
     InstallerPrefix + NullToString(goServerUrl) + "`\"",
     "</powershell>"]
  }

  /** The script before encoding: every line followed by CR LF. */
  function UserDataScript(request: CreateAgentRequest, settings: PluginSettings): string
  {
    Text.JoinCrlf(ScriptLines(request.autoregisterProperties, settings.goServerUrl))
  }

  /**
   * `getUserData()`: fails first on a missing request, then on missing
   * settings; otherwise the Base64 encoding of the script's bytes.
   */
  function GetUserData(b: Builder): (r: Result<string, ProvisioningError>)
    ensures b.request.None? ==> r == Failure(MissingRequest)
    ensures b.request.Some? && b.settings.None? ==> r == Failure(MissingSettings)
    ensures b.request.Some? && b.settings.Some? ==> r.Success?
    ensures r.Success? ==>
              var script := UserDataScript(b.request.value, b.settings.value);
              && Base64.Decode(r.value) == Some(Ascii.Bytes(script))
              && |r.value| == 4 * ((|script| + 2) / 3)
  {
    if b.request.None? then Failure(MissingRequest)
    else if b.settings.None? then Failure(MissingSettings)
    else
      var bytes := Ascii.Bytes(UserDataScript(b.request.value, b.settings.value));
      Base64.DecodeEncode(bytes);
      Success(Base64.Encode(bytes))
  }

  /** The script opens with the `<powershell>` line. */
  lemma ScriptStartsWithPowershell(request: CreateAgentRequest, settings: PluginSettings)
    ensures "<powershell>\r\n" <= UserDataScript(request, settings)
  {
    Text.JoinCrlfStartsWith(ScriptLines(request.autoregisterProperties, settings.goServerUrl));
  }

  /** The script closes with the `</powershell>` line and its terminator. */
  lemma ScriptEndsWithPowershell(request: CreateAgentRequest, settings: PluginSettings)
    ensures var s := UserDataScript(request, settings);
      |s| >= 15 && s[|s| - 15..] == "</powershell>\r\n"
  {
    var lines := ScriptLines(request.autoregisterProperties, settings.goServerUrl);
    Text.JoinCrlfEndsWith(lines);
    assert lines[|lines| - 1] + Text.CRLF == "</powershell>\r\n";
  }

  /** Text that survives both the line split and the ASCII encoding unchanged. */
  predicate Plain(s: string)
  {
    Text.HasNoCr(s) && Ascii.IsAscii(s)
  }

  lemma PlainConcat(a: string, b: string)
    ensures Text.HasNoCr(a) && Text.HasNoCr(b) ==> Text.HasNoCr(a + b)
    ensures Ascii.IsAscii(a) && Ascii.IsAscii(b) ==> Ascii.IsAscii(a + b)
  {
  }

  /** Printable ASCII, space to tilde: the script's fixed text is made of it. */
  predicate Printable(s: string)
  {
    forall i :: 0 <= i < |s| ==> ' ' <= s[i] <= '~'
  }

  lemma PrintableIsPlain(s: string)
    requires Printable(s)
    ensures Plain(s)
  {
  }

  lemma PrintableConcat(a: string, b: string)
    requires Printable(a) && Printable(b)
    ensures Printable(a + b)
  {
  }

  lemma DirectoriesArePrintable()
    ensures Printable(ConfigDir) && Printable(MetadataHost) && Printable(MetadataPath) && Printable(DownloadsDir)
  {
  }

  lemma DownloadPiecesArePrintable()
    ensures Printable(InstallerVersion) && Printable(InstallerSuffix) && Printable(DownloadSite) && Printable(DownloadDir)
  {
  }

  lemma InstallerPrefixIsPlain()
    ensures Printable(InstallerPath) && Plain(InstallerPrefix)
  {
    DirectoriesArePrintable();
    DownloadPiecesArePrintable();
    PrintableConcat(DownloadsDir, InstallerVersion);
    PrintableConcat(DownloadsDir + InstallerVersion, InstallerSuffix);
    PrintableConcat(InstallerPath, " /S /START_AGENT=YES /SERVERURL=`\"");
    PrintableIsPlain(InstallerPrefix);
  }

  lemma ShortLinesArePrintable()
    ensures Printable("<powershell>") && Printable("$UserInfoToFile = @\"") && Printable("\"@")
    ensures Printable("</powershell>")
  {
  }

  lemma MkdirLineIsPrintable()
    ensures Printable("mkdir \"" + ConfigDir + "\"")
  {
    DirectoriesArePrintable();
    PrintableConcat("mkdir \"", ConfigDir);
    PrintableConcat("mkdir \"" + ConfigDir, "\"");
  }

  lemma MetadataUrlIsPrintable()
    ensures Printable(MetadataHost + MetadataPath)
  {
    DirectoriesArePrintable();
    PrintableConcat(MetadataHost, MetadataPath);
  }

  lemma InstanceIdLineIsPrintable()
    ensures Printable("$instanceId = (Invoke-WebRequest " + MetadataHost + MetadataPath + "instance-id).Content")
  {
    MetadataUrlIsPrintable();
    var head, url := "$instanceId = (Invoke-WebRequest ", MetadataHost + MetadataPath;
    PrintableConcat(head, url);
    PrintableConcat(head + url, "instance-id).Content");
    assert head + MetadataHost + MetadataPath == head + url;
  }

  lemma HostNameLineIsPrintable()
    ensures Printable("$hostName = (Invoke-WebRequest " + MetadataHost + MetadataPath + "public-hostname).Content")
  {
    MetadataUrlIsPrintable();
    var head, url := "$hostName = (Invoke-WebRequest ", MetadataHost + MetadataPath;
    PrintableConcat(head, url);
    PrintableConcat(head + url, "public-hostname).Content");
    assert head + MetadataHost + MetadataPath == head + url;
  }

  lemma MetadataLinesArePrintable()
    ensures Printable("$instanceId = (Invoke-WebRequest " + MetadataHost + MetadataPath + "instance-id).Content")
    ensures Printable("$hostName = (Invoke-WebRequest " + MetadataHost + MetadataPath + "public-hostname).Content")
  {
    InstanceIdLineIsPrintable();
    HostNameLineIsPrintable();
  }

  lemma OutFileLineIsPrintable()
    ensures Printable("$UserInfoToFile | Out-File -FilePath \"" + ConfigDir + "\\autoregister.properties\"" + " -Encoding ASCII")
  {
    DirectoriesArePrintable();
    var head := "$UserInfoToFile | Out-File -FilePath \"";
    PrintableConcat(head, ConfigDir);
    PrintableConcat(head + ConfigDir, "\\autoregister.properties\"");
    PrintableConcat(head + ConfigDir + "\\autoregister.properties\"", " -Encoding ASCII");
  }

  lemma DownloadLineIsPrintable()
    ensures Printable("Invoke-WebRequest -OutFile " + InstallerPath + " "
                      + DownloadSite + DownloadDir + InstallerVersion + InstallerSuffix)
  {
    InstallerPrefixIsPlain();
    DownloadPiecesArePrintable();
    var head := "Invoke-WebRequest -OutFile ";
    PrintableConcat(head, InstallerPath);
    PrintableConcat(head + InstallerPath, " ");
    PrintableConcat(head + InstallerPath + " ", DownloadSite);
    PrintableConcat(head + InstallerPath + " " + DownloadSite, DownloadDir);
    PrintableConcat(head + InstallerPath + " " + DownloadSite + DownloadDir, InstallerVersion);
    PrintableConcat(head + InstallerPath + " " + DownloadSite + DownloadDir + InstallerVersion, InstallerSuffix);
  }

  /** Every line of the script other than the two that carry inputs is plain text. */
  lemma FixedLinesArePlain(autoregisterProperties: string, goServerUrl: Option<string>, i: int)
    requires 0 <= i < 11 && i != 5 && i != 9
    ensures Plain(ScriptLines(autoregisterProperties, goServerUrl)[i])
  {
    var line := ScriptLines(autoregisterProperties, goServerUrl)[i];
    if i == 1 {
      MkdirLineIsPrintable();
    } else if i == 2 || i == 3 {
      MetadataLinesArePrintable();
    } else if i == 7 {
      OutFileLineIsPrintable();
    } else if i == 8 {
      DownloadLineIsPrintable();
    } else {
      ShortLinesArePrintable();
    }
    PrintableIsPlain(line);
  }

  /** The lines carry no carriage return unless the inputs do. */
  lemma LinesHaveNoCr(autoregisterProperties: string, goServerUrl: Option<string>)
    requires Text.HasNoCr(autoregisterProperties) && Text.HasNoCr(NullToString(goServerUrl))
    ensures forall i :: 0 <= i < 11 ==> Text.HasNoCr(ScriptLines(autoregisterProperties, goServerUrl)[i])
  {
    var lines := ScriptLines(autoregisterProperties, goServerUrl);
    forall i | 0 <= i < 11
      ensures Text.HasNoCr(lines[i])
    {
      if i == 9 {
        InstallerPrefixIsPlain();
        PlainConcat(InstallerPrefix, NullToString(goServerUrl));
        PlainConcat(InstallerPrefix + NullToString(goServerUrl), "`\"");
      } else if i != 5 {
        FixedLinesArePlain(autoregisterProperties, goServerUrl, i);
      }
    }
  }

  /** The lines are ASCII unless the inputs are not. */
  lemma LinesAreAscii(autoregisterProperties: string, goServerUrl: Option<string>)
    requires Ascii.IsAscii(autoregisterProperties) && Ascii.IsAscii(NullToString(goServerUrl))
    ensures forall i :: 0 <= i < 11 ==> Ascii.IsAscii(ScriptLines(autoregisterProperties, goServerUrl)[i])
  {
    var lines := ScriptLines(autoregisterProperties, goServerUrl);
    forall i | 0 <= i < 11
      ensures Ascii.IsAscii(lines[i])
    {
      if i == 9 {
        InstallerPrefixIsPlain();
        PlainConcat(InstallerPrefix, NullToString(goServerUrl));
        PlainConcat(InstallerPrefix + NullToString(goServerUrl), "`\"");
      } else if i != 5 {
        FixedLinesArePlain(autoregisterProperties, goServerUrl, i);
      }
    }
  }

  /**
   * Cutting the script at its line terminators gives back the eleven lines,
   * so the auto-register properties and the server URL are recoverable,
   * provided neither holds a carriage return.
   */
  lemma ScriptSplitsIntoLines(request: CreateAgentRequest, settings: PluginSettings)
    requires Text.HasNoCr(request.autoregisterProperties) && Text.HasNoCr(NullToString(settings.goServerUrl))
    ensures Text.SplitCrlf(UserDataScript(request, settings))
              == ScriptLines(request.autoregisterProperties, settings.goServerUrl)
  {
    LinesHaveNoCr(request.autoregisterProperties, settings.goServerUrl);
    Text.SplitJoinCrlf(ScriptLines(request.autoregisterProperties, settings.goServerUrl));
  }

  /**
   * End to end: decoding the user data and reading its bytes as ASCII text
   * gives the script, whose lines carry the request's auto-register
   * properties and the settings' server URL verbatim.
   */
  lemma UserDataCarriesInputs(b: Builder)
    requires b.request.Some? && b.settings.Some?
    requires Plain(b.request.value.autoregisterProperties) && Plain(NullToString(b.settings.value.goServerUrl))
    ensures var lines := Text.SplitCrlf(Ascii.Text(Base64.Decode(GetUserData(b).value).value));
      && |lines| == 11
      && lines[5] == b.request.value.autoregisterProperties
      && lines[9] == InstallerPrefix + NullToString(b.settings.value.goServerUrl) + "`\""
  {
    var request, settings := b.request.value, b.settings.value;
    var lines := ScriptLines(request.autoregisterProperties, settings.goServerUrl);
    LinesAreAscii(request.autoregisterProperties, settings.goServerUrl);
    JoinCrlfIsAscii(lines);
    Ascii.TextOfBytes(UserDataScript(request, settings));
    ScriptSplitsIntoLines(request, settings);
  }

  lemma {:induction false} JoinCrlfIsAscii(lines: seq<string>)
    requires forall i :: 0 <= i < |lines| ==> Ascii.IsAscii(lines[i])
    ensures Ascii.IsAscii(Text.JoinCrlf(lines))
    decreases |lines|
  {
    if lines != [] {
      JoinCrlfIsAscii(lines[1..]);
      PlainConcat(lines[0], Text.CRLF);
      PlainConcat(lines[0] + Text.CRLF, Text.JoinCrlf(lines[1..]));
    }
  }

  /** Applies the property commands to the request, first command first. */
  function ApplyCommands(r: LaunchRequest, commands: seq<Command>): LaunchRequest
    decreases |commands|
  {
    if commands == [] then r else ApplyCommands(commands[0](r), commands[1..])
  }

  /** Applying a list of commands is applying its first part, then its rest: the order is the list order. */
  lemma {:induction false} ApplyCommandsAppend(r: LaunchRequest, a: seq<Command>, b: seq<Command>)
    ensures ApplyCommands(r, a + b) == ApplyCommands(ApplyCommands(r, a), b)
    decreases |a|
  {
    if a != [] {
      assert (a + b)[1..] == a[1..] + b;
      ApplyCommandsAppend(a[0](r), a[1..], b);
    } else {
      assert a + b == b;
    }
  }

  lemma ApplyCommandsLast(r: LaunchRequest, commands: seq<Command>, c: Command)
    ensures ApplyCommands(r, commands + [c]) == c(ApplyCommands(r, commands))
  {
    ApplyCommandsAppend(r, commands, [c]);
    assert ApplyCommands(ApplyCommands(r, commands), [c]) == ApplyCommands(c(ApplyCommands(r, commands)), []);
  }

  /**
   * The request `build()` sends: what the property commands built, with the
   * job's tags on the instance, monitoring off, the user data, and exactly
   * one instance asked for. These settings come after the commands and so
   * override anything the commands set on the same fields.
   */
  function LaunchRequestFor(request: CreateAgentRequest, userData: string): (r: LaunchRequest)
    ensures r.options == ApplyCommands(EmptyRequest, request.propertyCommands).options
    ensures r.tagSpecifications == [TagSpecification("instance", TagsForInstance(request.jobIdentifier))]
    ensures r.monitoringEnabled == Some(false) && r.userData == Some(userData)
    ensures r.minCount == Some(1) && r.maxCount == Some(1)
  {
    ApplyCommands(EmptyRequest, request.propertyCommands).(
      tagSpecifications := [TagSpecification("instance", TagsForInstance(request.jobIdentifier))],
      monitoringEnabled := Some(false),
      userData := Some(userData),
      minCount := Some(1),
      maxCount := Some(1))
  }

  /** The request sent never depends on what the commands did to the fields the builder sets itself. */
  lemma LaunchRequestOverridesCommands(request: CreateAgentRequest, c: Command, userData: string)
    ensures var withExtra := request.(propertyCommands := request.propertyCommands + [(r: LaunchRequest) => c(r).(options := r.options)]);
      LaunchRequestFor(withExtra, userData) == LaunchRequestFor(request, userData)
  {
    var extra := (r: LaunchRequest) => c(r).(options := r.options);
    ApplyCommandsLast(EmptyRequest, request.propertyCommands, extra);
  }

  /** What `build()` did: its outcome, and the run-instances requests it sent to the provider, in order. */
  datatype Built = Built(outcome: Result<ExampleInstance, ProvisioningError>, launched: seq<LaunchRequest>)

  /**
   * `build()`: applies the commands, assembles the request, launches it with
   * `cloud` and wraps the first instance returned. Nothing is launched when
   * the request or the settings are missing; otherwise exactly one request is.
   */
  function Build(b: Builder, cloud: LaunchRequest -> LaunchResponse): (r: Built)
    ensures b.request.None? ==> r == Built(Failure(NullRequest), [])
    ensures b.request.Some? && b.settings.None? ==> r == Built(Failure(MissingSettings), [])
    ensures b.request.Some? && b.settings.Some? ==>
              r.launched == [LaunchRequestFor(b.request.value, GetUserData(b).value)]
    ensures r.outcome.Success? ==>
              && b.request.Some? && b.settings.Some? && |r.launched| == 1
              && cloud(r.launched[0]).Launched? && |cloud(r.launched[0]).instances| > 0
              && r.outcome.value == ExampleInstance(cloud(r.launched[0]).instances[0])
  {
    if b.request.None? then Built(Failure(NullRequest), [])
    else
      match GetUserData(b)
      case Failure(e) => Built(Failure(e), [])
      case Success(userData) =>
        var sent := LaunchRequestFor(b.request.value, userData);
        match cloud(sent)
        case Rejected(reason) => Built(Failure(ProviderFailure(reason)), [sent])
        case Launched(instances) =>
          if |instances| == 0 then Built(Failure(NoInstanceReturned), [sent])
          else Built(Success(ExampleInstance(instances[0])), [sent])
  }

  /** With both inputs present, building fails exactly when the provider rejects the request or returns nothing. */
  lemma BuildFailsOnlyAtProvider(b: Builder, cloud: LaunchRequest -> LaunchResponse)
    requires b.request.Some? && b.settings.Some?
    ensures var sent := LaunchRequestFor(b.request.value, GetUserData(b).value);
      && (Build(b, cloud).outcome.Failure? <==> cloud(sent).Rejected? || cloud(sent).instances == [])
      && (cloud(sent).Rejected? ==> Build(b, cloud).outcome == Failure(ProviderFailure(cloud(sent).reason)))
      && (cloud(sent) == Launched([]) ==> Build(b, cloud).outcome == Failure(NoInstanceReturned))
  {
  }

  /**
   * The provider tags every instance it launches so that the instance's tags
   * describe the same job as the tags the request asks for.
   */
  ghost predicate TagsAsAsked(cloud: LaunchRequest -> LaunchResponse)
  {
    forall req: LaunchRequest :: cloud(req).Launched? && |req.tagSpecifications| == 1
                                 && IdentityFromTags(req.tagSpecifications[0].tags).Success? ==>
      forall k :: 0 <= k < |cloud(req).instances| ==>
        && IdentityFromTags(cloud(req).instances[k].tags).Success?
        && Equals(IdentityFromTags(cloud(req).instances[k].tags).value, IdentityFromTags(req.tagSpecifications[0].tags).value)
  }

  /**
   * A provider that tags every instance it launches as the request asks
   * yields an instance that belongs to the request's job.
   */
  lemma BuiltInstanceBelongsToJob(b: Builder, cloud: LaunchRequest -> LaunchResponse)
    requires TagsAsAsked(cloud)
    ensures Build(b, cloud).outcome.Success? ==>
              BelongsToJob(Build(b, cloud).outcome.value, b.request.value.jobIdentifier)
  {
    if Build(b, cloud).outcome.Success? {
      var job := b.request.value.jobIdentifier;
      var e := Build(b, cloud).outcome.value;
      var sent := Build(b, cloud).launched[0];
      TagsRoundTrip(job);
      assert sent.tagSpecifications[0].tags == TagsForInstance(job);
      assert e.instance == cloud(sent).instances[0];
      EqualsIsEquivalence(JobIdentifierOf(e).value, job.(representation := None), job);
    }
  }
}
