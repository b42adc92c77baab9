/**
 * The EC2 SDK values the plugin handles: tags, launched instances and the
 * run-instances request, plus the provider's reply to a launch.
 */
module Ec2 {
  import opened Wrappers

  datatype Tag = Tag(key: string, value: string)

  type NanoOfSecond = n: int | 0 <= n < 1_000_000_000

  /** A `java.time.Instant`: whole seconds since the epoch (floored) and the nanoseconds past them. */
  datatype Instant = Instant(epochSecond: int, nano: NanoOfSecond)

  /** The instant as nanoseconds since the epoch. */
  function EpochNanos(t: Instant): int
  {
    t.epochSecond * 1_000_000_000 + t.nano
  }

  /** The fields of an SDK `Instance` the plugin reads. */
  datatype Instance = Instance(instanceId: string, launchTime: Instant, tags: seq<Tag>)

  datatype TagSpecification = TagSpecification(resourceType: string, tags: seq<Tag>)

  /**
   * A `RunInstancesRequest`. `options` stands for every field the plugin
   * leaves to its property commands (image, instance type, key name, ...);
   * the remaining fields are the ones the plugin sets itself.
   */
  datatype LaunchRequest = LaunchRequest(
    options: map<string, string>,
    tagSpecifications: seq<TagSpecification>,
    monitoringEnabled: Option<bool>,
    userData: Option<string>,
    minCount: Option<int>,
    maxCount: Option<int>)

  /** A request builder nobody has touched yet. */
  const EmptyRequest: LaunchRequest := LaunchRequest(map[], [], None, None, None, None)

  /** What the provider answers to one launch call. */
  datatype LaunchResponse = Launched(instances: seq<Instance>) | Rejected(reason: string)

  /** The value of the first tag whose key equals `key`, or `None` when no key does. */
  function FirstTagValue(tags: seq<Tag>, key: string): (r: Option<string>)
    ensures r.None? <==> forall i :: 0 <= i < |tags| ==> tags[i].key != key
    ensures forall i :: 0 <= i < |tags| && tags[i].key == key && (forall j :: 0 <= j < i ==> tags[j].key != key) ==>
                          r == Some(tags[i].value)
  {
    if tags == [] then None
    else if tags[0].key == key then Some(tags[0].value)
    else FirstTagValue(tags[1..], key)
  }
}
