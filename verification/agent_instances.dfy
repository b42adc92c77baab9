/**
 * The in-memory registry of provisioned agent instances (`ExampleAgentInstances`):
 * a map from instance id to instance, the create-or-reuse operation, lookups
 * by id and by job, and the age-based staleness filter over the server's
 * agent list.
 */
module AgentInstances {
  import opened Wrappers
  import opened Ec2
  import opened JobIdentifiers
  import opened Instances

  /** The registry's state: the instance map and the `refreshed` flag. */
  datatype Registry = Registry(instances: map<string, ExampleInstance>, refreshed: bool)

  /** A fresh registry: no instances, not yet refreshed. */
  const Empty: Registry := Registry(map[], false)

  /** Every instance is stored under its own name. */
  predicate KeyedByName(r: Registry)
  {
    forall id :: id in r.instances ==> Name(r.instances[id]) == id
  }

  /** `register`: stores the instance under its name, replacing only what was stored under that name. */
  function Register(r: Registry, e: ExampleInstance): (r': Registry)
    ensures Name(e) in r'.instances && r'.instances[Name(e)] == e
    ensures r'.instances.Keys == r.instances.Keys + {Name(e)}
    ensures forall id :: id in r.instances && id != Name(e) ==> r'.instances[id] == r.instances[id]
    ensures r'.refreshed == r.refreshed
    ensures KeyedByName(r) ==> KeyedByName(r')
  {
    r.(instances := r.instances[Name(e) := e])
  }

  /** `find(String)`: the instance stored under `agentId`, or null. */
  function FindById(r: Registry, agentId: string): (found: Option<ExampleInstance>)
    ensures found.Some? <==> agentId in r.instances
    ensures found.Some? ==> found.value == r.instances[agentId]
  {
    if agentId in r.instances then Some(r.instances[agentId]) else None
  }

  /** `hasInstance`: whether an instance is stored under `agentId`. */
  predicate HasInstance(r: Registry, agentId: string)
  {
    agentId in r.instances
  }

  /** `hasInstance` holds exactly when `find` by id returns an instance. */
  lemma HasInstanceIffFound(r: Registry, agentId: string)
    ensures HasInstance(r, agentId) <==> FindById(r, agentId).Some?
  {
  }

  /** After registering, looking the instance up by its name finds it; every other id finds what it found before. */
  lemma FindAfterRegister(r: Registry, e: ExampleInstance, agentId: string)
    ensures FindById(Register(r, e), Name(e)) == Some(e)
    ensures agentId != Name(e) ==> FindById(Register(r, e), agentId) == FindById(r, agentId)
  {
  }

  /** Registering the same instance twice changes nothing the second time. */
  lemma RegisterIdempotent(r: Registry, e: ExampleInstance)
    ensures Register(Register(r, e), e) == Register(r, e)
  {
  }

  /** Some stored instance was launched for `job`. */
  predicate HasJob(r: Registry, job: JobIdentifier)
  {
    exists id :: id in r.instances && BelongsToJob(r.instances[id], job)
  }

  /** `e` is stored, belongs to `job`, and every stored instance that belongs to `job` is `e`. */
  predicate SoleInstanceFor(r: Registry, job: JobIdentifier, e: ExampleInstance)
  {
    && e in r.instances.Values && BelongsToJob(e, job)
    && forall k :: k in r.instances && BelongsToJob(r.instances[k], job) ==> r.instances[k] == e
  }

  /**
   * `find(JobIdentifier)`: some stored instance whose tags describe a job
   * equal to `job`, or null when there is none. The map's iteration order is
   * unspecified, so which of several matches is returned is left open; when
   * there is only one, it is the answer.
   */
  method FindByJob(r: Registry, job: JobIdentifier) returns (found: Option<ExampleInstance>)
    ensures found.None? <==> !HasJob(r, job)
    ensures found.Some? ==> found.value in r.instances.Values && BelongsToJob(found.value, job)
    ensures forall e :: SoleInstanceFor(r, job, e) ==> found == Some(e)
  {
    var remaining := r.instances.Keys;
    while remaining != {}
      invariant remaining <= r.instances.Keys
      invariant forall id :: id in r.instances && id !in remaining ==> !BelongsToJob(r.instances[id], job)
      decreases remaining
    {
      var id :| id in remaining;
      if BelongsToJob(r.instances[id], job) {
        return Some(r.instances[id]);
      }
      remaining := remaining - {id};
    }
    return None;
  }

  /**
   * `create`: when an instance for the request's job is already stored it is
   * returned, nothing is launched and nothing changes; otherwise an instance
   * is built with `cloud` and, on success, registered. A failed build leaves
   * the registry as it was. `launched` is the run-instances requests sent.
   */
  method Create(r: Registry, request: Option<CreateAgentRequest>, settings: Option<PluginSettings>,
                cloud: LaunchRequest -> LaunchResponse)
    returns (result: Result<ExampleInstance, ProvisioningError>, r': Registry, launched: seq<LaunchRequest>)
    ensures request.None? ==> result == Failure(NullRequest) && r' == r && launched == []
    ensures request.Some? && HasJob(r, request.value.jobIdentifier) ==>
              && r' == r && launched == [] && result.Success?
              && result.value in r.instances.Values && BelongsToJob(result.value, request.value.jobIdentifier)
    ensures request.Some? ==>
              forall e :: SoleInstanceFor(r, request.value.jobIdentifier, e) ==> result == Success(e)
    ensures request.Some? && !HasJob(r, request.value.jobIdentifier) ==>
              && Built(result, launched) == Build(Builder(request, settings), cloud)
              && r' == (if result.Success? then Register(r, result.value) else r)
              && (result.Success? ==> HasInstance(r', Name(result.value)))
    ensures request.Some? && !HasJob(r, request.value.jobIdentifier) && settings.Some? ==>
              launched == [LaunchRequestFor(request.value, GetUserData(Builder(request, settings)).value)]
    ensures KeyedByName(r) && result.Success? ==>
              HasInstance(r', Name(result.value)) && r'.instances[Name(result.value)] == result.value
    ensures KeyedByName(r) ==> KeyedByName(r')
  {
    if request.None? {
      return Failure(NullRequest), r, [];
    }
    var existing := FindByJob(r, request.value.jobIdentifier);
    if existing.Some? {
      if KeyedByName(r) {
        var id :| id in r.instances && r.instances[id] == existing.value;
      }
      return Success(existing.value), r, [];
    }
    var built := Build(Builder(request, settings), cloud);
    result, launched := built.outcome, built.launched;
    if result.Success? {
      r' := Register(r, result.value);
    } else {
      r' := r;
    }
  }

  /** Once an instance built for a job is registered, the job is found in the registry. */
  lemma RegisteredJobIsFound(r: Registry, e: ExampleInstance, job: JobIdentifier)
    requires BelongsToJob(e, job)
    ensures HasJob(Register(r, e), job)
  {
    assert Name(e) in Register(r, e).instances && BelongsToJob(Register(r, e).instances[Name(e)], job);
  }

  /**
   * Two `create` calls for the same job against a provider that tags as
   * asked: once the first has succeeded, the second launches nothing and
   * changes nothing, and when the first launched the instance, the second
   * returns that very instance.
   */
  method CreateTwice(r: Registry, request: CreateAgentRequest, settings: Option<PluginSettings>,
                     cloud: LaunchRequest -> LaunchResponse)
    returns (first: Result<ExampleInstance, ProvisioningError>, second: Result<ExampleInstance, ProvisioningError>,
             r1: Registry, r2: Registry, launched1: seq<LaunchRequest>, launched2: seq<LaunchRequest>)
    requires TagsAsAsked(cloud)
    ensures first.Success? ==>
              && second.Success? && BelongsToJob(second.value, request.jobIdentifier)
              && r2 == r1 && launched2 == []
    ensures first.Success? && launched1 != [] ==> second == first
  {
    var job := request.jobIdentifier;
    first, r1, launched1 := Create(r, Some(request), settings, cloud);
    if first.Success? && !HasJob(r, job) {
      var e := first.value;
      BuiltInstanceBelongsToJob(Builder(Some(request), settings), cloud);
      RegisteredJobIsFound(r, e, job);
      assert r1.instances[Name(e)] == e;
      assert SoleInstanceFor(r1, job, e);
    }
    second, r2, launched2 := Create(r1, Some(request), settings, cloud);
  }

  /** An agent as the server reports it; `elasticAgentId` is the id of the instance it runs on. */
  datatype Agent = Agent(agentId: string, elasticAgentId: string)

  /**
   * The instance is past its registration grace period at `now`: the clock
   * is strictly after its creation time plus the auto-register period (all
   * in epoch milliseconds).
   */
  predicate IsStale(e: ExampleInstance, settings: PluginSettings, now: int)
  {
    now > CreatedAtMillis(e) + settings.autoRegisterPeriod
  }

  /** At exactly the end of the grace period an instance is not yet stale; one millisecond later it is. */
  lemma StalenessBoundary(e: ExampleInstance, settings: PluginSettings)
    ensures !IsStale(e, settings, CreatedAtMillis(e) + settings.autoRegisterPeriod)
    ensures IsStale(e, settings, CreatedAtMillis(e) + settings.autoRegisterPeriod + 1)
  {
  }

  /** Staying stale: once stale, an instance is stale at every later time. */
  lemma StalenessIsMonotonic(e: ExampleInstance, settings: PluginSettings, now: int, later: int)
    requires IsStale(e, settings, now) && now <= later
    ensures IsStale(e, settings, later)
  {
  }

  /** `a` is `b` with some elements left out, the rest in their order. */
  predicate IsSubsequence<T(==)>(a: seq<T>, b: seq<T>)
    decreases |b|
  {
    if a == [] then true
    else if b == [] then false
    else (a[0] == b[0] && IsSubsequence(a[1..], b[1..])) || IsSubsequence(a, b[1..])
  }

  /** The agent runs on a stored instance that is stale at `now`. */
  predicate AgentIsStale(r: Registry, settings: PluginSettings, now: int, a: Agent)
  {
    a.elasticAgentId in r.instances && IsStale(r.instances[a.elasticAgentId], settings, now)
  }

  /**
   * The agents, in their order, whose instance is stored and stale; agents
   * whose instance is not stored are passed over.
   */
  function StaleAgents(r: Registry, settings: PluginSettings, now: int, agents: seq<Agent>): (stale: seq<Agent>)
    ensures IsSubsequence(stale, agents)
    ensures forall a :: a in stale <==> a in agents && AgentIsStale(r, settings, now, a)
    ensures |stale| <= |agents|
  {
    if agents == [] then []
    else
      var rest := StaleAgents(r, settings, now, agents[1..]);
      assert forall a :: a in agents <==> a == agents[0] || a in agents[1..];
      if AgentIsStale(r, settings, now, agents[0]) then [agents[0]] + rest else rest
  }

  lemma {:induction false} StaleAgentsAppend(r: Registry, settings: PluginSettings, now: int, agents: seq<Agent>, a: Agent)
    ensures StaleAgents(r, settings, now, agents + [a])
              == StaleAgents(r, settings, now, agents) + (if AgentIsStale(r, settings, now, a) then [a] else [])
    decreases |agents|
  {
    if agents == [] {
      assert agents + [a] == [a];
    } else {
      assert (agents + [a])[1..] == agents[1..] + [a];
      StaleAgentsAppend(r, settings, now, agents[1..], a);
    }
  }

  /**
   * `instancesCreatedAfterTimeout`: walks the server's agents in order and
   * keeps those whose instance is stored here and has been up longer than
   * the auto-register period. The map is left as it is.
   */
  method InstancesCreatedAfterTimeout(r: Registry, settings: PluginSettings, agents: seq<Agent>, now: int)
    returns (stale: seq<Agent>)
    ensures stale == StaleAgents(r, settings, now, agents)
    ensures IsSubsequence(stale, agents)
    ensures forall a :: a in stale <==> a in agents && AgentIsStale(r, settings, now, a)
  {
    stale := [];
    var i := 0;
    while i < |agents|
      invariant 0 <= i <= |agents|
      invariant stale == StaleAgents(r, settings, now, agents[..i])
    {
      var agent := agents[i];
      StaleAgentsAppend(r, settings, now, agents[..i], agent);
      assert agents[..i + 1] == agents[..i] + [agent];
      if agent.elasticAgentId !in r.instances {
        i := i + 1;
        continue;
      }
      var instance := r.instances[agent.elasticAgentId];
      if now > CreatedAtMillis(instance) + settings.autoRegisterPeriod {
        stale := stale + [agent];
      }
      i := i + 1;
    }
    assert agents[..|agents|] == agents;
  }

  datatype UnsupportedOperation = UnsupportedOperation

  /** `terminate`: not implemented; it always throws and the registry is untouched. */
  function Terminate(r: Registry, agentId: string, settings: PluginSettings): (res: (Result<(), UnsupportedOperation>, Registry))
    ensures res.0 == Failure(UnsupportedOperation)
    ensures res.1 == r
  {
    (Failure(UnsupportedOperation), r)
  }

  /** `refreshAll`: only marks the registry as refreshed. */
  function RefreshAll(r: Registry): (r': Registry)
    ensures r'.refreshed
    ensures r'.instances == r.instances
  {
    r.(refreshed := true)
  }

  /** Refreshing twice is refreshing once, and refreshing does not change any lookup. */
  lemma RefreshAllIdempotent(r: Registry, agentId: string, job: JobIdentifier)
    ensures RefreshAll(RefreshAll(r)) == RefreshAll(r)
    ensures FindById(RefreshAll(r), agentId) == FindById(r, agentId)
    ensures HasJob(RefreshAll(r), job) == HasJob(r, job)
  {
  }
}
