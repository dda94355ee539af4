/** What each command of the command line does to the registry, said of the registry before and after alone. */
module CommandMeanings {
  import opened ServiceTypes
  import opened ServiceCli

  /** A create adds a valid service under a free address as a local one, and leaves a known address alone. */
  lemma CreateMeans(env: Env, registry: Services, si: ServiceInterface)
    ensures var r := Run(env, registry, Create(si));
      && (r.Ok? <==> Validate(si).None?)
      && (r.Err? ==> r.error == Validate(si).value)
      && (r.Ok? && si.address in registry ==> r.value == registry)
      && (r.Ok? && si.address !in registry ==> r.value == registry[si.address := si.(origin := "")])
  {
  }

  /** A bind works on the service that is there. */
  lemma BindCommandMeans(env: Env, registry: Services, address: string, targetType: string, targetName: string,
                         protocol: string, targetPort: int)
    requires WellKeyed(registry)
    ensures var r := Run(env, registry, Bind(address, targetType, targetName, protocol, targetPort));
      && (r == Err(NoSuchService) <==> address !in registry)
      && (address in registry ==>
            var b := Bound(env, registry[address], targetType, targetName, protocol, targetPort);
            if b.Ok? then r == Ok(registry[address := b.value]) else r == Err(b.error))
      && (r.Ok? ==> Binds(env, registry[address], targetType, targetName, targetPort, r.value[address]))
  {
    if address in registry { BindMeans(env, registry[address], targetType, targetName, protocol, targetPort); }
  }

  /**
   * The service that an expose binds: what is known under the address, or a new service of the given protocol and
   * port.
   */
  ghost function ExposedService(registry: Services, address: string, port: int, protocol: string): ServiceInterface {
    if address in registry then registry[address]
    else ServiceInterface(address, protocol, port, false, "", None, [], "", "")
  }

  /** An expose binds that service, and touches nothing else. It never changes the protocol of a known service. */
  lemma ExposeMeans(env: Env, registry: Services, address: string, port: int, targetType: string, targetName: string,
                    protocol: string, targetPort: int)
    requires WellKeyed(registry)
    ensures var r := Run(env, registry, Expose(address, port, targetType, targetName, protocol, targetPort));
      var si := ExposedService(registry, address, port, protocol);
      && (protocol != "" && si.protocol != protocol ==> r == Err(ProtocolMismatch))
      && (protocol == "" || si.protocol == protocol ==>
            var b := Bound(env, si.(origin := ""), targetType, targetName, protocol, targetPort);
            if b.Ok? then r == Ok(registry[address := b.value]) else r == Err(b.error))
      && (r.Ok? ==>
            && address in r.value && Binds(env, si, targetType, targetName, targetPort, r.value[address])
            && r.value[address].protocol == si.protocol
            && (forall n :: n != address ==> SameAt(registry, r.value, n)))
  {
    var si := ExposedService(registry, address, port, protocol);
    BindMeans(env, si.(origin := ""), targetType, targetName, protocol, targetPort);
  }

  /** The target is one that unbinding `targetName` from service `address` drops. */
  ghost predicate Unbinds(env: Env, address: string, targetName: string, t: Target) {
    if t.selector == "internal.skupper.io/host-service" && ':' !in targetName then
      t.name == targetName + ":" + env.defaultHost || (t.name == "" && targetName == address)
    else
      t.name == targetName || (t.name == "" && targetName == address)
  }

  /** `left` is `ts` without the targets that are dropped: `at` lists the positions that stay, in order. */
  ghost predicate LeavesAt(env: Env, address: string, targetName: string, ts: seq<Target>, left: seq<Target>,
                           at: seq<nat>) {
    && |at| == |left|
    && (forall k :: 0 <= k < |at| ==> at[k] < |ts| && left[k] == ts[at[k]])
    && (forall j, k :: 0 <= j < k < |at| ==> at[j] < at[k])
    && (forall i :: 0 <= i < |ts| && !Unbinds(env, address, targetName, ts[i]) ==> i in at)
    && (forall k :: 0 <= k < |at| ==> !Unbinds(env, address, targetName, left[k]))
  }

  ghost predicate Leaves(env: Env, address: string, targetName: string, ts: seq<Target>, left: seq<Target>) {
    exists at :: LeavesAt(env, address, targetName, ts, left, at)
  }

  lemma MatchesUnbinds(env: Env, address: string, targetName: string, t: Target)
    ensures Matches(env, address, targetName, t) <==> Unbinds(env, address, targetName, t)
  {
  }

  lemma {:induction false} UnmatchedLeaves(env: Env, address: string, targetName: string, ts: seq<Target>)
    returns (at: seq<nat>)
    ensures LeavesAt(env, address, targetName, ts, Unmatched(env, address, targetName, ts), at)
  {
    if ts == [] {
      at := [];
    } else {
      var k := |ts| - 1;
      at := UnmatchedLeaves(env, address, targetName, ts[..k]);
      MatchesUnbinds(env, address, targetName, ts[k]);
      if !Matches(env, address, targetName, ts[k]) { at := at + [k]; }
    }
  }

  /**
   * An unbind succeeds for a known service that has a target to drop. The service goes if deletion was asked for and
   * every target is dropped; otherwise it is what it was, with the other targets in order.
   */
  lemma UnbindMeans(env: Env, registry: Services, address: string, targetType: string, targetName: string,
                    deleteIfNoTargets: bool)
    ensures var r := Run(env, registry, Unbind(address, targetType, targetName, deleteIfNoTargets));
      && (r == Err(UnsupportedTarget) <==> targetType != "container" && targetType != "host-service")
      && (r == Err(NoSuchService) <==>
            (targetType == "container" || targetType == "host-service") && address !in registry)
      && (r == Err(NoSuchTarget) <==>
            && (targetType == "container" || targetType == "host-service") && address in registry
            && forall t :: t in registry[address].targets ==> !Unbinds(env, address, targetName, t))
      && (r.Err? ==> r.error in {UnsupportedTarget, NoSuchService, NoSuchTarget})
      && (r.Ok? ==>
            var ts := registry[address].targets;
            && (forall n :: n != address ==> SameAt(registry, r.value, n))
            && (address !in r.value <==>
                  deleteIfNoTargets && forall t :: t in ts ==> Unbinds(env, address, targetName, t))
            && (address in r.value ==>
                  && r.value[address] == registry[address].(targets := r.value[address].targets)
                  && Leaves(env, address, targetName, ts, r.value[address].targets)))
  {
    forall t ensures Matches(env, address, targetName, t) <==> Unbinds(env, address, targetName, t) {
      MatchesUnbinds(env, address, targetName, t);
    }
    if address in registry {
      var ts := registry[address].targets;
      var at := UnmatchedLeaves(env, address, targetName, ts);
      NothingLeft(env, address, targetName, ts, Unmatched(env, address, targetName, ts), at);
    }
  }

  lemma NothingLeft(env: Env, address: string, targetName: string, ts: seq<Target>, left: seq<Target>, at: seq<nat>)
    requires LeavesAt(env, address, targetName, ts, left, at)
    ensures left == [] <==> forall t :: t in ts ==> Unbinds(env, address, targetName, t)
  {
    if left == [] {
      forall t | t in ts ensures Unbinds(env, address, targetName, t) {
        var i :| 0 <= i < |ts| && ts[i] == t;
        assert i !in at;
      }
    } else {
      assert left[0] == ts[at[0]];
    }
  }

  /** A remove succeeds for a known address, and then only that entry is gone. */
  lemma RemoveMeans(env: Env, registry: Services, address: string)
    ensures var r := Run(env, registry, Remove(address));
      && (r == Err(NoSuchService) <==> address !in registry) && (r.Ok? <==> address in registry)
      && (r.Ok? ==> address !in r.value && forall n :: n != address ==> SameAt(registry, r.value, n))
  {
  }

  /** The fault of a refused service names something that is wrong with it, and nothing that is checked earlier is. */
  lemma FaultsMean(si: ServiceInterface)
    requires Validate(si).Some?
    ensures var ports := forall t :: t in si.targets ==> 0 <= t.targetPort <= 65535;
      match Validate(si).value
      case BadTargetPort => !ports
      case BadPort => ports && !(0 <= si.port <= 65535)
      case AggregateAndEvents => ports && 0 <= si.port <= 65535 && si.aggregate != "" && si.eventChannel
      case BadAggregate =>
        ports && 0 <= si.port <= 65535 && si.aggregate !in {"", "json", "multipart"} && !si.eventChannel
      case BadProtocol =>
        && ports && 0 <= si.port <= 65535 && si.protocol !in {"", "tcp", "http", "http2"}
        && (si.aggregate == "" || (si.aggregate in {"json", "multipart"} && !si.eventChannel))
      case AggregateNeedsHttp => ports && 0 <= si.port <= 65535 && si.aggregate in {"json", "multipart"} &&
                                 si.protocol in {"", "tcp", "http2"}
      case EventsNeedHttp => ports && 0 <= si.port <= 65535 && si.aggregate == "" && si.eventChannel &&
                             si.protocol in {"", "tcp", "http2"}
      case _ => false
  {
  }
}
