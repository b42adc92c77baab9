# Elastic agent plugin core, modelled in Dafny

This project models the core of a GoCD elastic-agent plugin that provisions
build agents as EC2 instances. The core has three parts.

- **The agent-instance registry** (`ExampleAgentInstances`). It maps instance
  ids to instances. `create` reuses the instance already launched for a job
  or builds and registers a new one. There are lookups by id and by job, and
  `instancesCreatedAfterTimeout` filters the server's agent list by instance
  age.
- **The instance wrapper and its builder** (`ExampleInstance`,
  `ExampleInstance.Builder`). The wrapper gives the instance id, the creation
  time and tag lookup. The builder writes the PowerShell user-data script,
  Base64-encodes it, assembles the run-instances request, sends it and wraps
  the first instance that comes back.
- **The job identity** (`JobIdentifier`). It has seven-field equality and
  hashing, two slash-separated display strings, and the seven instance tags
  that carry the identity, each a Gson JSON scalar.

A Java `null` is `Option.None` and a thrown exception is `Result.Failure`.
Java `int` arithmetic is written out as wrap-around modulo 2^32. The EC2
`runInstances` call is a function parameter `cloud` from request to response.
A provider exception is the response `Rejected`. Time is integer epoch
milliseconds, and `now` is a parameter.

Modules, one per file:

| file | module | what it holds |
|---|---|---|
| `wrappers.dfy` | `Wrappers` | `Option`, `Result` |
| `java_lang.dfy` | `JavaLang` | `int`/`long` ranges and wrap-around, `String.hashCode`, `Long.hashCode`, `Objects.hash`, `StringUtils.isBlank` |
| `decimal.dfy` | `Decimal` | `%d` rendering of a `Long` with ASCII digits, and its parser; `MessageFormat`'s digit grouping |
| `json.dfy` | `Json` | Gson's HTML-safe scalar encoding and a section 7 of RFC 8259 decoder for it |
| `base64.dfy` | `Base64`, `Ascii` | section 4 of RFC 4648 and a strict decoder; `String.getBytes()` under US-ASCII |
| `text.dfy` | `Text` | CR LF line joining and splitting; joining and cutting at a separator |
| `ec2.dfy` | `Ec2` | tags, instances, the run-instances request, the provider's reply |
| `job_identifier.dfy` | `JobIdentifiers` | `JobIdentifier` |
| `example_instance.dfy` | `Instances` | `ExampleInstance` and its `Builder` |
| `agent_instances.dfy` | `AgentInstances` | `ExampleAgentInstances` |

## Model

| member | source | states |
|---|---|---|
| JobIdentifiers.NewJobIdentifier | src/main/java/com/example/elasticagent/models/JobIdentifier.java:53-89 | the seven-argument constructor stores every argument unchanged, each getter returns it, and the display-string cache starts out null |
| JobIdentifiers.EqualsIsEquivalence | src/main/java/com/example/elasticagent/models/JobIdentifier.java:98-110 | `equals` is reflexive, symmetric and transitive |
| JobIdentifiers.EqualsIffSameFields | src/main/java/com/example/elasticagent/models/JobIdentifier.java:98-110 | two identifiers are equal exactly when they differ at most in the cached display string |
| JobIdentifiers.ConstructorInjective | src/main/java/com/example/elasticagent/models/JobIdentifier.java:98-110 | two constructed identifiers are equal exactly when all seven constructor arguments are equal, nulls included |
| JobIdentifiers.EqualsImpliesEqualHash | src/main/java/com/example/elasticagent/models/JobIdentifier.java:112-115 | equal identifiers have equal `hashCode`, whatever their caches hold |
| JavaLang.HashUnitsIsWrappedPolynomial | src/main/java/com/example/elasticagent/models/JobIdentifier.java:114 | the string hash used for each field is the documented polynomial s[0]·31^(n-1)+…+s[n-1] over UTF-16 code units, reduced to an `int` |
| JavaLang.WrapInt32 | src/main/java/com/example/elasticagent/models/JobIdentifier.java:114 | `int` arithmetic yields the 32-bit two's-complement value congruent to the exact result |
| JavaLang.LongHash | src/main/java/com/example/elasticagent/models/JobIdentifier.java:114 | the hash of a `Long` field is an `int`, and is the value itself for a non-negative value below 2^31 |
| JobIdentifiers.RepresentIsJoin | src/main/java/com/example/elasticagent/models/JobIdentifier.java:130-132 | `represent()` is pipeline name, counter, stage name, stage counter and job name joined by `/` |
| JobIdentifiers.RepresentSplitsIntoFields | src/main/java/com/example/elasticagent/models/JobIdentifier.java:130-132 | when no name holds a `/`, the display string has exactly four slashes and cutting at them gives back the five fields |
| JobIdentifiers.RepresentIgnoresLabelAndJobId | src/main/java/com/example/elasticagent/models/JobIdentifier.java:130-132 | the pipeline label and the job id do not affect `represent()` |
| Decimal.DecimalString | src/main/java/com/example/elasticagent/models/JobIdentifier.java:131 | `%d` prints a minus sign exactly for negative values, followed by a canonical run of digits: non-empty, and no leading zero unless the number is zero |
| Decimal.Digits | src/main/java/com/example/elasticagent/models/JobIdentifier.java:131 | the digits of a natural number are non-empty and all digits; they start with `0` only when they are exactly `0`, which is exactly when the number is zero |
| Decimal.DecimalStringIsCanonical | src/main/java/com/example/elasticagent/models/JobIdentifier.java:131 | among canonical decimal texts (no leading zero, no `-0`), the one that reads as a number is exactly what `%d` prints for it |
| Decimal.DecimalRoundTrip | src/main/java/com/example/elasticagent/models/JobIdentifier.java:131 | the plain decimal rendering of the counter reads back as the same number |
| Decimal.DecimalStringInjective | src/main/java/com/example/elasticagent/models/JobIdentifier.java:131 | different counters print differently |
| JobIdentifiers.GetRepresentation | src/main/java/com/example/elasticagent/models/JobIdentifier.java:91-96 | `getRepresentation` returns a non-blank cache unchanged; a blank cache is filled with the `MessageFormat` rendering, which it returns; the identifier stays equal to what it was |
| JobIdentifiers.GetRepresentationIsStable | src/main/java/com/example/elasticagent/models/JobIdentifier.java:91-96 | a second call returns the same string and leaves the identifier unchanged |
| JobIdentifiers.FormatDiffersOnlyBySeparators | src/main/java/com/example/elasticagent/models/JobIdentifier.java:93 | deleting the locale's grouping separators from the `MessageFormat` rendering gives `represent()` |
| Decimal.UngroupedIsDecimal | src/main/java/com/example/elasticagent/models/JobIdentifier.java:93 | deleting the grouping separators from a grouped number gives its plain decimal form |
| JobIdentifiers.FormatAgreesForSmallCounters | src/main/java/com/example/elasticagent/models/JobIdentifier.java:93 | for counters below 1000 in magnitude (or null) the `MessageFormat` rendering equals `represent()` |
| JobIdentifiers.RepresentationGroupsLargeCounters | src/main/java/com/example/elasticagent/models/JobIdentifier.java:93 | with counter 1234 and a comma-grouping locale `getRepresentation` gives `build/1,234/unit/1/tests` and `represent()` gives `build/1234/unit/1/tests` |
| JobIdentifiers.GetDisplayString | src/main/java/com/example/elasticagent/models/JobIdentifier.java:91-96 | the memoised display string as intended: a blank cache is filled with `represent()`'s rendering, a non-blank one is kept, equality is unaffected |
| JobIdentifiers.DisplayStringSplitsIntoFields | src/main/java/com/example/elasticagent/models/JobIdentifier.java:91-96 | with an empty cache the intended display string cuts at its slashes into the five fields |
| JobIdentifiers.DisplayStringExample | src/main/java/com/example/elasticagent/models/JobIdentifier.java:130-132 | a job `build`/12/`unit`/`1`/`tests` is displayed as `build/12/unit/1/tests` by all three renderings |
| JobIdentifiers.TagsForInstance | src/main/java/com/example/elasticagent/models/JobIdentifier.java:142-153 | exactly seven tags, keyed pipelineName, pipelineCounter, pipelineLabel, stageName, stageCounter, jobName, jobId in that order, with pairwise distinct keys |
| JobIdentifiers.TagLookup | src/main/java/com/example/elasticagent/models/JobIdentifier.java:142-153 | looking up any of the seven keys in the tag list finds that field's tag |
| JobIdentifiers.TagsRoundTrip | src/main/java/com/example/elasticagent/models/JobIdentifier.java:145-151 | decoding the seven tag values as JSON gives back every field of the identifier, nulls included |
| JobIdentifiers.TagsDetermineIdentity | src/main/java/com/example/elasticagent/models/JobIdentifier.java:145-151 | two identifiers get the same tag list exactly when they are equal |
| Json.EscapeChar | src/main/java/com/example/elasticagent/models/JobIdentifier.java:145 | Gson's escape of one character is non-empty, holds no control character and none of `< > & = '`, and begins with a backslash unless it is the character itself |
| Json.EscapeAll | src/main/java/com/example/elasticagent/models/JobIdentifier.java:145 | an escaped string value holds no control character and none of `< > & = '` |
| Json.StringToJsonIsHtmlSafe | src/main/java/com/example/elasticagent/models/JobIdentifier.java:145 | a string tag value never contains a raw `<`, `>`, `&`, `=` or `'` |
| Json.ParseHex4OfHex4 | src/main/java/com/example/elasticagent/models/JobIdentifier.java:145 | a `\u` escape's four hex digits read back as the code unit they encode |
| Json.ParseEscapeAll | src/main/java/com/example/elasticagent/models/JobIdentifier.java:145 | the RFC 8259 string decoder undoes Gson's escaping of every string |
| Json.StringRoundTrip | src/main/java/com/example/elasticagent/models/JobIdentifier.java:145 | a nullable string written as JSON reads back as itself |
| Json.LongRoundTrip | src/main/java/com/example/elasticagent/models/JobIdentifier.java:146 | a nullable `Long` written as JSON reads back as itself |
| Instances.Name | src/main/java/com/example/elasticagent/ExampleInstance.java:43-45 | `name()` is the provider's instance id, the key every registry operation stores and looks up by |
| Instances.CreatedAtMillis | src/main/java/com/example/elasticagent/ExampleInstance.java:47-50 | the creation time is a whole second, and it is the start of the second in which the instance was launched |
| Instances.CreatedAtTruncatesToSeconds | src/main/java/com/example/elasticagent/ExampleInstance.java:47-50 | two instances have the same creation time exactly when they were launched within the same second |
| Instances.GetTagValue | src/main/java/com/example/elasticagent/ExampleInstance.java:52-60 | the lookup as written returns null exactly when no tag key is the same object as the argument, and otherwise the value of the first such tag in list order |
| Instances.GetTagValueIsSound | src/main/java/com/example/elasticagent/ExampleInstance.java:52-60 | whatever the identity comparison, a value found belongs to a tag whose key equals the argument |
| Instances.GetTagValueMissesEqualKey | src/main/java/com/example/elasticagent/ExampleInstance.java:56 | when the key objects differ, the lookup as written returns null for a tag whose key is equal |
| Instances.TagValue | src/main/java/com/example/elasticagent/ExampleInstance.java:52-60 | the intended lookup returns null exactly when no key is equal, and otherwise the value of the first tag with an equal key |
| Ec2.FirstTagValue | src/main/java/com/example/elasticagent/ExampleInstance.java:54-59 | the first-match scan over a tag list: null exactly when no key matches, else the first matching tag's value |
| Instances.ScanTagsByValue | src/main/java/com/example/elasticagent/ExampleInstance.java:54-59 | the loop as written, given comparison by value, computes the first-match lookup |
| Instances.GetTagValueByValue | src/main/java/com/example/elasticagent/ExampleInstance.java:52-60 | with comparison by value, the lookup as written equals the intended one |
| Instances.TaggedInstanceBelongsToJob | src/main/java/com/example/elasticagent/ExampleInstance.java:66-68 | an instance carrying a job's tags decodes to that job, and to any other job exactly when it equals that one |
| Instances.ScriptLines | src/main/java/com/example/elasticagent/ExampleInstance.java:148-158 | the script has eleven lines, from `<powershell>` to `</powershell>`, with the auto-register properties sixth and the installer line carrying the server URL verbatim tenth |
| Instances.ScriptStartsWithPowershell | src/main/java/com/example/elasticagent/ExampleInstance.java:148 | the script starts with `<powershell>` and CR LF |
| Instances.ScriptEndsWithPowershell | src/main/java/com/example/elasticagent/ExampleInstance.java:158 | the script ends with `</powershell>` and CR LF |
| Text.SplitJoinCrlf | src/main/java/com/example/elasticagent/ExampleInstance.java:146 | text built by appending each line and CR LF splits back into the same lines when no line holds a carriage return |
| Instances.ScriptSplitsIntoLines | src/main/java/com/example/elasticagent/ExampleInstance.java:146-158 | when the inputs hold no carriage return, splitting the script at CR LF gives back its eleven lines |
| Instances.GetUserData | src/main/java/com/example/elasticagent/ExampleInstance.java:138-161 | a missing request fails first, then missing settings; otherwise the result decodes to the script's bytes and is 4·⌈n/3⌉ long |
| Instances.UserDataCarriesInputs | src/main/java/com/example/elasticagent/ExampleInstance.java:153-159 | for ASCII inputs without carriage returns, decoding the user data and splitting it into lines recovers the auto-register properties and the server URL |
| Base64.Encode | src/main/java/com/example/elasticagent/ExampleInstance.java:159 | the encoding of n bytes is 4·⌈n/3⌉ characters from the alphabet or `=` |
| Base64.DecodeEncode | src/main/java/com/example/elasticagent/ExampleInstance.java:159 | decoding undoes encoding for every byte sequence |
| Base64.EncodeDecode | src/main/java/com/example/elasticagent/ExampleInstance.java:159 | the decoder accepts only canonical encodings: re-encoding what it decodes gives the input back |
| Ascii.TextOfBytes | src/main/java/com/example/elasticagent/ExampleInstance.java:159 | `getBytes()` loses nothing on ASCII text |
| Ascii.NonAsciiBecomesQuestionMark | src/main/java/com/example/elasticagent/ExampleInstance.java:159 | each non-ASCII character becomes the byte for `?` |
| Instances.ApplyCommandsAppend | src/main/java/com/example/elasticagent/ExampleInstance.java:165-168 | property commands take effect in list order: running a list is running its first part, then the rest |
| Instances.ApplyCommandsLast | src/main/java/com/example/elasticagent/ExampleInstance.java:165-168 | the last command of the list is applied last |
| Instances.LaunchRequestFor | src/main/java/com/example/elasticagent/ExampleInstance.java:170-178 | the request sent keeps the commands' options and carries the job's tags on the instance, monitoring off, the user data and a count of exactly one |
| Instances.LaunchRequestOverridesCommands | src/main/java/com/example/elasticagent/ExampleInstance.java:172-178 | a command that only touches the tags, monitoring, user data or counts has no effect on the request sent |
| Instances.Build | src/main/java/com/example/elasticagent/ExampleInstance.java:163-190 | a null request fails, then missing settings, and neither launches anything; with both present exactly one request, the assembled one, is sent; a success is the first instance of a non-empty provider answer to it |
| Instances.BuildFailsOnlyAtProvider | src/main/java/com/example/elasticagent/ExampleInstance.java:181-189 | with request and settings present, building fails exactly when the provider rejects the request or returns no instance |
| Instances.BuiltInstanceBelongsToJob | src/main/java/com/example/elasticagent/ExampleInstance.java:170-189 | if every instance the provider returns carries tags describing the same job as the requested tags, the built instance belongs to the request's job |
| AgentInstances.Register | src/main/java/com/example/elasticagent/ExampleAgentInstances.java:170-173 | the instance is stored under its name, no other entry changes, and a registry keyed by name stays so |
| AgentInstances.FindAfterRegister | src/main/java/com/example/elasticagent/ExampleAgentInstances.java:170-173 | after registering, finding by the instance's name gives it, and every other id finds what it found before |
| AgentInstances.RegisterIdempotent | src/main/java/com/example/elasticagent/ExampleAgentInstances.java:170-173 | registering the same instance again changes nothing |
| AgentInstances.FindById | src/main/java/com/example/elasticagent/ExampleAgentInstances.java:129-133 | finding by id returns the entry under that id, and null exactly when there is none |
| AgentInstances.HasInstanceIffFound | src/main/java/com/example/elasticagent/ExampleAgentInstances.java:164-168 | `hasInstance` holds exactly when finding by id returns an instance |
| AgentInstances.FindByJob | src/main/java/com/example/elasticagent/ExampleAgentInstances.java:135-144 | finding by job returns null exactly when no stored instance belongs to the job, and otherwise a stored instance that does; when only one stored instance belongs to the job, that instance is the answer |
| AgentInstances.Create | src/main/java/com/example/elasticagent/ExampleAgentInstances.java:38-55 | an instance already stored for the job is returned with the registry unchanged and nothing launched; otherwise exactly the builder's one request is launched (none when the settings are missing), the built instance is registered and then `hasInstance(name)` holds; a failure changes nothing |
| AgentInstances.CreateTwice | src/main/java/com/example/elasticagent/ExampleAgentInstances.java:38-55 | after one successful `create`, a second `create` for the same job launches nothing, leaves the registry unchanged and returns an instance of the job; when the first call launched the instance, the second returns that same instance |
| AgentInstances.RegisteredJobIsFound | src/main/java/com/example/elasticagent/ExampleAgentInstances.java:41-54 | once an instance built for a job is registered, a later `create` for that job finds it |
| AgentInstances.StalenessBoundary | src/main/java/com/example/elasticagent/ExampleAgentInstances.java:102-105 | at exactly creation time plus the period an instance is not stale; one millisecond later it is |
| AgentInstances.StalenessIsMonotonic | src/main/java/com/example/elasticagent/ExampleAgentInstances.java:102 | an instance stale at some time is stale at every later time |
| AgentInstances.StaleAgents | src/main/java/com/example/elasticagent/ExampleAgentInstances.java:93-108 | the stale agents form an order-preserving subsequence of the input, and an agent is among them exactly when its instance is stored and stale |
| AgentInstances.StaleAgentsAppend | src/main/java/com/example/elasticagent/ExampleAgentInstances.java:94-106 | one more agent at the end adds it to the result exactly when its instance is stored and stale |
| AgentInstances.InstancesCreatedAfterTimeout | src/main/java/com/example/elasticagent/ExampleAgentInstances.java:89-109 | the loop returns the stale agents in input order, skips agents with no stored instance, and keeps each one exactly when its instance is stale |
| AgentInstances.Terminate | src/main/java/com/example/elasticagent/ExampleAgentInstances.java:57-70 | `terminate` always fails with an unsupported-operation error and leaves the registry unchanged |
| AgentInstances.RefreshAll | src/main/java/com/example/elasticagent/ExampleAgentInstances.java:111-127 | `refreshAll` sets the refreshed flag and leaves the instance map unchanged |
| AgentInstances.RefreshAllIdempotent | src/main/java/com/example/elasticagent/ExampleAgentInstances.java:111-127 | refreshing twice is refreshing once, and no lookup by id or job changes |

## Left out

- Logging is left out everywhere.
- Thread safety is left out, and so is the race in which two concurrent `create` calls for one job both provision. The registry is modelled sequentially. The unspecified iteration order of `ConcurrentHashMap` is kept: `find` by job picks any match.
- The EC2 client singleton and the network call are left out. `runInstances` is the parameter `cloud`, and an SDK exception is its `Rejected` answer. The calls made are visible only as the `launched` list that `Build` and `Create` return.
- Null ids are not modelled: agent ids, elastic agent ids and instance names are plain strings. So the `NullPointerException`s that `ConcurrentHashMap` throws for `find(null)` (ExampleAgentInstances.java:132), `hasInstance(null)` (:167), an agent whose elastic agent id is null (:96) and `register` of an instance with a null name (:172) are not modelled.
- AgentInstances.CreateTwice: when the first call reused one of several stored instances of the job, the second may return another of them. `find` by job picks any match here, while the source's `findFirst` on an unchanged map picks the same one twice.
- Joda `Period` and `DateTime` arithmetic is left out. Times and the auto-register period are integer milliseconds, and `isAfter` is `>`. Overflow checks in Joda's conversion from seconds to milliseconds are not modelled.
- AgentInstances.InstancesCreatedAfterTimeout reads the clock once per call. The source reads it once for each agent whose instance is found. The model describes a clock that does not move during the call.
- AgentInstances.InstancesCreatedAfterTimeout takes non-null settings. With null settings the source throws only once some agent's instance is found.
- `CreateAgentRequest` is not part of this model.
  - `autoregisterPropertiesAsString("$instanceId", "$hostName")` is a plain string field.
  - `getPropertyCommands()` is a list of functions from request to request. A command that changes the builder's request or settings is not modelled.
  - `getTagsForInstance()` is taken to be its job identifier's tags.
- `environment()` is `getTagValue` with a key constant from `CreateAgentRequest`, which is not part of this model. It is covered by `Instances.GetTagValue` with that key as an argument.
- The constructor `JobIdentifier(Collection<Tag>)` that `jobIdentifier()` calls does not exist in the source. `JobIdentifiers.IdentityFromTags` is this model's own decoder, the inverse of `getTagsForInstance`. An instance whose tags do not decode belongs to no job.
- `ExampleInstance.equals` and `hashCode` are datatype equality. The SDK's `Instance` equality is taken to be value equality.
- These parts of `JobIdentifier` are left out:
  - its one-argument and no-argument constructors;
  - `toString`;
  - `toJson`/`fromJson` of the whole object, which are the only users of Gson's field-naming policy.
- `JobCompletionRequest` is left out.
- `getStatusReport` and `getAgentStatusReport` only throw. `terminateUnregisteredInstances` only logs. None of the three touches the registry.
- `String.getBytes()` uses the platform charset, which is taken to be US-ASCII (non-ASCII characters become `?`).
- Dafny characters are Unicode scalar values, so strings holding lone UTF-16 surrogates cannot be expressed. The JSON decoder rejects `\u` escapes of surrogates.
- JavaLang.LongHash states only that its result is an `int`, and that it is the value itself for non-negative values below 2^31. The body computes the full low-word-xor-high-word hash, but no contract pins that down for other values.
- `MessageFormat`'s grouping is modelled as a separator every three digits. The locale's choice of separator is a parameter. Other locale effects, such as non-ASCII digits, are not modelled.
- Decimal.DecimalString: `represent()`'s `String.format("%d", ...)` (JobIdentifier.java:131) writes digits starting from the default format locale's zero digit. The model assumes that digit is `0`, so it prints ASCII digits; locales with other digits are not modelled.

## Findings

| source | as written | input that shows it | evidently intended | confidence | as-written member | corrected member |
|---|---|---|---|---|---|---|
| src/main/java/com/example/elasticagent/ExampleInstance.java:56 | tag keys are compared with `==`, which compares object identity | an instance tagged `Environment=production`, looked up with an equal `"Environment"` key that is a different object, such as any key read back from the provider: the result is null | compare keys with `equals`, returning the value of the first tag with an equal key | high, not executed | Instances.GetTagValue (shown by Instances.GetTagValueMissesEqualKey) | Instances.TagValue (related by Instances.GetTagValueByValue) |
| src/main/java/com/example/elasticagent/models/JobIdentifier.java:93 | `MessageFormat` formats the `Long` counter with the locale's digit grouping | pipeline counter 1234 under a comma-grouping locale: `getRepresentation` gives `build/1,234/unit/1/tests` while `represent()` gives `build/1234/unit/1/tests` | the same plain `pipeline/counter/stage/counter/job` rendering as `represent()` | medium, not executed | JobIdentifiers.GetRepresentation (shown by JobIdentifiers.RepresentationGroupsLargeCounters) | JobIdentifiers.GetDisplayString (proved by JobIdentifiers.DisplayStringSplitsIntoFields) |
