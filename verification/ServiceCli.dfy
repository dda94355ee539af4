/** The command line's operations on the service registry. */
module ServiceCli {
  import opened ServiceTypes
  import Bindings

  datatype Result<+T> = Ok(value: T) | Err(error: Fault)

  datatype Fault =
    | BadTargetPort | BadPort | AggregateAndEvents | BadAggregate | BadProtocol | AggregateNeedsHttp | EventsNeedHttp
    | UnknownContainer | UnsupportedTarget | ProtocolMismatch | PortUnknown | NoSuchService | NoSuchTarget

  /** What the operations learn from outside: the address of the bridge, and which containers exist. */
  datatype Env = Env(defaultHost: string, containers: set<string>)

  // ---------------------------------------------------------------- validation

  predicate IsPort(p: int) {
    0 <= p <= 65535
  }

  /** The first complaint about a service, in the order of the checks. */
  function Validate(si: ServiceInterface): Option<Fault> {
    if exists t :: t in si.targets && !IsPort(t.targetPort) then Some(BadTargetPort)
    else if !IsPort(si.port) then Some(BadPort)
    else if si.aggregate != "" && si.eventChannel then Some(AggregateAndEvents)
    else if si.aggregate != "" && si.aggregate != "json" && si.aggregate != "multipart" then Some(BadAggregate)
    else if si.protocol != "" && si.protocol != "tcp" && si.protocol != "http" && si.protocol != "http2" then
      Some(BadProtocol)
    else if si.aggregate != "" && si.protocol != "http" then Some(AggregateNeedsHttp)
    else if si.eventChannel && si.protocol != "http" then Some(EventsNeedHttp)
    else None
  }

  /** A service is accepted exactly when its ports are ports and its options fit its protocol. */
  lemma ValidExactly(si: ServiceInterface)
    ensures Validate(si).None? <==>
      && IsPort(si.port) && (forall t :: t in si.targets ==> IsPort(t.targetPort))
      && si.protocol in {"", "tcp", "http", "http2"}
      && (si.aggregate == "" || (si.aggregate in {"json", "multipart"} && si.protocol == "http" && !si.eventChannel))
      && (si.eventChannel ==> si.protocol == "http")
  {
  }

  // ---------------------------------------------------------------- targets

  /** A host service that is named without an address gets the default one. */
  function HostServiceName(env: Env, name: string): string {
    if ':' in name then name else name + ":" + env.defaultHost
  }

  /** The target for a type and a name; it carries no port of its own. */
  function GetTarget(env: Env, targetType: string, targetName: string): Result<Target> {
    if targetType == "container" then
      if targetName in env.containers then Ok(Target(targetName, CONTAINER, 0, "")) else Err(UnknownContainer)
    else if targetType == "host-service" then
      Ok(Target(HostServiceName(env, targetName), HOST_SERVICE, 0, ""))
    else Err(UnsupportedTarget)
  }

  ghost predicate HasName(ts: seq<Target>, name: string) {
    exists t :: t in ts && t.name == name
  }

  function Replaced(ts: seq<Target>, target: Target): (r: seq<Target>)
    ensures |r| == |ts| && forall i :: 0 <= i < |ts| ==> r[i] == if ts[i].name == target.name then target else ts[i]
  {
    seq(|ts|, i requires 0 <= i < |ts| => if ts[i].name == target.name then target else ts[i])
  }

  /** `target` takes the place of its namesakes, or comes last if it has none. */
  ghost function WithTarget(ts: seq<Target>, target: Target): seq<Target> {
    if HasName(ts, target.name) then Replaced(ts, target) else ts + [target]
  }

  method AddTargetToServiceInterface(ts: seq<Target>, target: Target) returns (targets: seq<Target>)
    ensures targets == WithTarget(ts, target)
  {
    var modified := false;
    targets := [];
    for i := 0 to |ts|
      invariant targets == Replaced(ts[..i], target)
      invariant modified <==> HasName(ts[..i], target.name)
    {
      var t := ts[i];
      assert ts[..i + 1] == ts[..i] + [t];
      if t.name == target.name {
        modified := true;
        targets := targets + [target];
        assert t in ts[..i + 1];
      } else {
        targets := targets + [t];
      }
    }
    assert ts[..|ts|] == ts;
    if !modified {
      assert targets == ts;
      targets := targets + [target];
    }
  }

  /** The rule by which unbinding finds its targets. */
  predicate Matches(env: Env, serviceName: string, targetName: string, t: Target) {
    var name := if t.selector == HOST_SERVICE then HostServiceName(env, targetName) else targetName;
    t.name == name || (t.name == "" && targetName == serviceName)
  }

  /** The targets that unbinding leaves, in order. */
  function Unmatched(env: Env, serviceName: string, targetName: string, ts: seq<Target>): seq<Target> {
    if ts == [] then []
    else
      var rest, t := Unmatched(env, serviceName, targetName, ts[..|ts| - 1]), ts[|ts| - 1];
      if Matches(env, serviceName, targetName, t) then rest else rest + [t]
  }

  method RemoveMatching(env: Env, serviceName: string, targetName: string, ts: seq<Target>)
    returns (targets: seq<Target>, modified: bool)
    ensures targets == Unmatched(env, serviceName, targetName, ts)
    ensures modified <==> exists t :: t in ts && Matches(env, serviceName, targetName, t)
  {
    modified, targets := false, [];
    for i := 0 to |ts|
      invariant targets == Unmatched(env, serviceName, targetName, ts[..i])
      invariant modified <==> exists t :: t in ts[..i] && Matches(env, serviceName, targetName, t)
    {
      var t := ts[i];
      assert ts[..i + 1] == ts[..i] + [t] && ts[..i + 1][..i] == ts[..i];
      var name := targetName;
      if t.selector == HOST_SERVICE {
        name := HostServiceName(env, targetName);
      }
      if t.name == name || (t.name == "" && targetName == serviceName) {
        modified := true;
        assert t in ts[..i + 1];
      } else {
        targets := targets + [t];
      }
    }
    assert ts[..|ts|] == ts;
  }

  // ---------------------------------------------------------------- the operations

  /** What binding makes of a service. The service's own port is deduced if it has none. */
  ghost function Bound(env: Env, si: ServiceInterface, targetType: string, targetName: string, protocol: string,
                       targetPort: int)
    : Result<ServiceInterface>
  {
    match Validate(si)
    case Some(fault) => Err(fault)
    case None =>
      if protocol != "" && si.protocol != protocol then Err(ProtocolMismatch)
      else
        match GetTarget(env, targetType, targetName)
        case Err(fault) => Err(fault)
        case Ok(target) =>
          if targetPort != 0 then
            if si.port == 0 then Ok(si.(port := targetPort, targets := WithTarget(si.targets, target), origin := ""))
            else Ok(si.(targets := WithTarget(si.targets, target.(targetPort := targetPort)), origin := ""))
          else if si.port != 0 then Ok(si.(targets := WithTarget(si.targets, target), origin := ""))
          else if protocol == "http" then Ok(si.(port := 80, targets := WithTarget(si.targets, target), origin := ""))
          else Err(PortUnknown)
  }

  function Created(registry: Services, si: ServiceInterface): Result<Services> {
    match Validate(si)
    case Some(fault) => Err(fault)
    case None => Ok(if si.address in registry then registry else registry[si.address := si.(origin := "")])
  }

  ghost function BoundIn(env: Env, registry: Services, si: ServiceInterface, targetType: string, targetName: string,
                         protocol: string, targetPort: int): Result<Services>
  {
    match Bound(env, si, targetType, targetName, protocol, targetPort)
    case Err(fault) => Err(fault)
    case Ok(bound) => Ok(registry[si.address := bound])
  }

  function Unbound(env: Env, registry: Services, targetType: string, targetName: string, address: string,
                   deleteIfNoTargets: bool)
    : Result<Services>
  {
    if targetType != "container" && targetType != "host-service" then Err(UnsupportedTarget)
    else if address !in registry then Err(NoSuchService)
    else
      var si := registry[address];
      var left := Unmatched(env, address, targetName, si.targets);
      if !(exists t :: t in si.targets && Matches(env, address, targetName, t)) then Err(NoSuchTarget)
      else if left == [] && deleteIfNoTargets then Ok(registry - {address})
      else Ok(registry[address := si.(targets := left)])
  }

  function Removed(registry: Services, address: string): Result<Services> {
    if address in registry then Ok(registry - {address}) else Err(NoSuchService)
  }

  datatype Command =
    | Create(si: ServiceInterface)
    | Bind(address: string, targetType: string, targetName: string, protocol: string, targetPort: int)
    | Expose(address: string, port: int, targetType: string, targetName: string, protocol: string, targetPort: int)
    | Unbind(address: string, targetType: string, targetName: string, deleteIfNoTargets: bool)
    | Remove(address: string)

  /** The service that the expose command binds: the one that is there, as a local one, or a new one. */
  function Exposed(registry: Services, address: string, port: int, protocol: string): Result<ServiceInterface> {
    if address !in registry then
      Ok(ServiceInterface(address, protocol, port, false, "", None, [], "", ""))
    else if protocol != "" && registry[address].protocol != protocol then Err(ProtocolMismatch)
    else Ok(registry[address].(origin := ""))
  }

  ghost function Run(env: Env, registry: Services, c: Command): Result<Services> {
    match c
    case Create(si) => Created(registry, si)
    case Bind(address, targetType, targetName, protocol, targetPort) =>
      if address !in registry then Err(NoSuchService)
      else BoundIn(env, registry, registry[address], targetType, targetName, protocol, targetPort)
    case Expose(address, port, targetType, targetName, protocol, targetPort) =>
      (match Exposed(registry, address, port, protocol)
       case Err(fault) => Err(fault)
       case Ok(si) => BoundIn(env, registry, si, targetType, targetName, protocol, targetPort))
    case Unbind(address, targetType, targetName, deleteIfNoTargets) =>
      Unbound(env, registry, targetType, targetName, address, deleteIfNoTargets)
    case Remove(address) => Removed(registry, address)
  }

  // ---------------------------------------------------------------- binding and unbinding

  lemma {:induction false} UnmatchedAll(env: Env, serviceName: string, targetName: string, ts: seq<Target>)
    ensures Unmatched(env, serviceName, targetName, ts) == ts <==>
      forall t :: t in ts ==> !Matches(env, serviceName, targetName, t)
    ensures |Unmatched(env, serviceName, targetName, ts)| <= |ts|
  {
    if ts != [] {
      var init, last := ts[..|ts| - 1], ts[|ts| - 1];
      UnmatchedAll(env, serviceName, targetName, init);
      assert ts == init + [last];
      if Unmatched(env, serviceName, targetName, ts) == ts {
        assert !Matches(env, serviceName, targetName, last);
        assert Unmatched(env, serviceName, targetName, init) == init by {
          assert (Unmatched(env, serviceName, targetName, init) + [last])[..|init|] == init;
        }
      }
    }
  }

  lemma {:induction false} UnmatchedShorter(env: Env, serviceName: string, targetName: string, ts: seq<Target>,
                                            t: Target)
    requires t in ts && Matches(env, serviceName, targetName, t)
    ensures |Unmatched(env, serviceName, targetName, ts)| < |ts|
  {
    var init, last := ts[..|ts| - 1], ts[|ts| - 1];
    assert ts == init + [last];
    if Matches(env, serviceName, targetName, last) {
      UnmatchedAll(env, serviceName, targetName, init);
    } else {
      UnmatchedShorter(env, serviceName, targetName, init, t);
    }
  }

  /** What binding adds, unbinding under the same type, name and default host finds. */
  lemma BoundTargetMatches(env: Env, serviceName: string, targetType: string, targetName: string, port: int)
    requires GetTarget(env, targetType, targetName).Ok?
    ensures Matches(env, serviceName, targetName, GetTarget(env, targetType, targetName).value.(targetPort := port))
  {
  }

  lemma UnmatchedAppend(env: Env, serviceName: string, targetName: string, ts: seq<Target>, t: Target)
    ensures Unmatched(env, serviceName, targetName, ts + [t]) ==
      Unmatched(env, serviceName, targetName, ts) + if Matches(env, serviceName, targetName, t) then [] else [t]
  {
  }

  /**
   * Binding a target and then unbinding it restores the list of targets, in order, exactly when no target of the list
   * has the bound name and none would have been unbound anyway.
   */
  lemma UnbindUndoesBind(env: Env, serviceName: string, targetType: string, targetName: string, port: int,
                         ts: seq<Target>)
    requires GetTarget(env, targetType, targetName).Ok?
    ensures var target := GetTarget(env, targetType, targetName).value.(targetPort := port);
      Unmatched(env, serviceName, targetName, WithTarget(ts, target)) == ts <==>
        !HasName(ts, target.name) && forall t :: t in ts ==> !Matches(env, serviceName, targetName, t)
  {
    var target := GetTarget(env, targetType, targetName).value.(targetPort := port);
    BoundTargetMatches(env, serviceName, targetType, targetName, port);
    if HasName(ts, target.name) {
      var t :| t in ts && t.name == target.name;
      var i :| 0 <= i < |ts| && ts[i] == t;
      assert Replaced(ts, target)[i] == target;
      UnmatchedShorter(env, serviceName, targetName, Replaced(ts, target), target);
    } else {
      UnmatchedAppend(env, serviceName, targetName, ts, target);
      UnmatchedAll(env, serviceName, targetName, ts);
    }
  }

  lemma BindForm(env: Env, registry: Services, address: string, targetType: string, targetName: string,
                 protocol: string, targetPort: int)
    requires WellKeyed(registry) && Run(env, registry, Bind(address, targetType, targetName, protocol, targetPort)).Ok?
    ensures address in registry && GetTarget(env, targetType, targetName).Ok?
    ensures var before := registry[address];
      var bound := Run(env, registry, Bind(address, targetType, targetName, protocol, targetPort)).value;
      var port := if targetPort != 0 && before.port != 0 then targetPort else 0;
      var target := GetTarget(env, targetType, targetName).value.(targetPort := port);
      && bound == registry[address := bound[address]]
      && bound[address] ==
           before.(targets := WithTarget(before.targets, target), port := bound[address].port, origin := "")
      && bound[address].port != 0 && (before.port != 0 ==> bound[address].port == before.port)
  {
  }

  lemma UnbindForm(env: Env, registry: Services, address: string, targetType: string, targetName: string, t: Target)
    requires address in registry && t in registry[address].targets && Matches(env, address, targetName, t)
    requires GetTarget(env, targetType, targetName).Ok?
    ensures var si := registry[address];
      Run(env, registry, Unbind(address, targetType, targetName, false)) ==
        Ok(registry[address := si.(targets := Unmatched(env, address, targetName, si.targets))])
  {
  }

  /** An entry is replaced, and then its replacement: the registry returns exactly when the entry does. */
  lemma EntryReturns(registry: Services, address: string, once: ServiceInterface, back: ServiceInterface)
    requires address in registry
    ensures var r := registry[address := once][address := back];
      && r[address] == back && (forall n :: n != address ==> SameAt(registry, r, n))
      && (r == registry <==> back == registry[address])
  {
  }

  /**
   * The same for the commands: bind, then unbind without deletion. The whole registry returns exactly when, besides,
   * the entry already was a local one with a port.
   */
  lemma UnbindCommandUndoesBind(env: Env, registry: Services, address: string, targetType: string, targetName: string,
                                protocol: string, targetPort: int)
    requires WellKeyed(registry) && Run(env, registry, Bind(address, targetType, targetName, protocol, targetPort)).Ok?
    ensures var bound := Run(env, registry, Bind(address, targetType, targetName, protocol, targetPort)).value;
      var back := Run(env, bound, Unbind(address, targetType, targetName, false));
      var ts := registry[address].targets;
      && back.Ok? && address in back.value && (forall n :: n != address ==> SameAt(registry, back.value, n))
      && (back.value[address].targets == ts <==>
            !HasName(ts, GetTarget(env, targetType, targetName).value.name) &&
            forall t :: t in ts ==> !Matches(env, address, targetName, t))
      && (back.value == registry <==>
            back.value[address].targets == ts && registry[address].port != 0 && registry[address].origin == "")
  {
    var bound := Run(env, registry, Bind(address, targetType, targetName, protocol, targetPort)).value;
    var before := registry[address];
    var port := if targetPort != 0 && before.port != 0 then targetPort else 0;
    var target := GetTarget(env, targetType, targetName).value.(targetPort := port);
    BindForm(env, registry, address, targetType, targetName, protocol, targetPort);
    WithTargetHas(before.targets, target);
    BoundTargetMatches(env, address, targetType, targetName, port);
    UnbindUndoesBind(env, address, targetType, targetName, port, before.targets);
    UnbindForm(env, bound, address, targetType, targetName, target);
    var left := bound[address].(targets := Unmatched(env, address, targetName, bound[address].targets));
    EntryReturns(registry, address, bound[address], left);
    assert left == before.(targets := left.targets, port := bound[address].port, origin := "");
  }

  lemma WithTargetHas(ts: seq<Target>, target: Target)
    ensures target in WithTarget(ts, target)
  {
  }

  lemma WithTargetAgain(ts: seq<Target>, target: Target, other: Target)
    requires other.name == target.name
    ensures WithTarget(WithTarget(ts, target), other) == WithTarget(ts, other)
  {
  }

  /** Two services with the same effective ports for the same targets in the same order. */
  ghost predicate SamePorts(a: ServiceInterface, b: ServiceInterface) {
    && |a.targets| == |b.targets|
    && forall i :: 0 <= i < |a.targets| ==>
         && a.targets[i].name == b.targets[i].name
         && Bindings.GetTargetPort(a, a.targets[i]) == Bindings.GetTargetPort(b, b.targets[i])
  }

  /**
   * Binding the same target again changes nothing exactly when the target port is a port and was not used to deduce the
   * port of the service. In the latter case the second binding makes the port explicit, to the same effect.
   */
  lemma Rebind(env: Env, si: ServiceInterface, targetType: string, targetName: string, protocol: string,
               targetPort: int)
    requires Bound(env, si, targetType, targetName, protocol, targetPort).Ok?
    ensures var once := Bound(env, si, targetType, targetName, protocol, targetPort).value;
      var twice := Bound(env, once, targetType, targetName, protocol, targetPort);
      && (twice == Ok(once) <==> IsPort(targetPort) && (targetPort == 0 || si.port != 0))
      && (twice.Ok? <==> IsPort(targetPort))
      && (twice.Ok? ==> SamePorts(twice.value, once))
      && (twice.Ok? ==> Bound(env, twice.value, targetType, targetName, protocol, targetPort) == twice)
  {
    var once := Bound(env, si, targetType, targetName, protocol, targetPort).value;
    var plain := GetTarget(env, targetType, targetName).value;
    var ported := plain.(targetPort := targetPort);
    RebindValid(env, si, targetType, targetName, protocol, targetPort);
    WithTargetAgain(si.targets, plain, plain);
    WithTargetAgain(si.targets, plain, ported);
    WithTargetAgain(si.targets, ported, ported);
    WithTargetHas(si.targets, plain);
    if targetPort != 0 && si.port == 0 && IsPort(targetPort) {
      var twice := Bound(env, once, targetType, targetName, protocol, targetPort).value;
      assert twice == once.(targets := WithTarget(si.targets, ported));
      assert plain in once.targets && plain !in twice.targets by { WithTargetOnly(si.targets, ported, plain); }
      RebindValid(env, once, targetType, targetName, protocol, targetPort);
    }
  }

  lemma WithTargetOnly(ts: seq<Target>, target: Target, other: Target)
    requires other.name == target.name && other != target
    ensures other !in WithTarget(ts, target)
  {
  }

  /** A bound service is still acceptable exactly when the given target port is a port. */
  lemma RebindValid(env: Env, si: ServiceInterface, targetType: string, targetName: string, protocol: string,
                    targetPort: int)
    requires Bound(env, si, targetType, targetName, protocol, targetPort).Ok?
    ensures Validate(Bound(env, si, targetType, targetName, protocol, targetPort).value).None? <==> IsPort(targetPort)
  {
  }

  // ---------------------------------------------------------------- ports

  ghost predicate PortsInRange(si: ServiceInterface) {
    1 <= si.port <= 65535 && forall t :: t in si.targets ==> 1 <= Bindings.GetTargetPort(si, t) <= 65535
  }

  /**
   * A successful bind leaves the service with usable ports throughout exactly when the target port it was given is a
   * port.
   */
  lemma BindPorts(env: Env, si: ServiceInterface, targetType: string, targetName: string, protocol: string,
                  targetPort: int)
    requires Bound(env, si, targetType, targetName, protocol, targetPort).Ok?
    ensures PortsInRange(Bound(env, si, targetType, targetName, protocol, targetPort).value) <==> IsPort(targetPort)
  {
    var once := Bound(env, si, targetType, targetName, protocol, targetPort).value;
    var plain := GetTarget(env, targetType, targetName).value;
    RebindValid(env, si, targetType, targetName, protocol, targetPort);
    ValidExactly(si);
    ValidExactly(once);
    WithTargetHas(si.targets, plain.(targetPort := targetPort));
    assert once.port != 0;
  }

  /**
   * The name under which a bind files its target: a host service that comes without an address gets the default one.
   */
  ghost function BoundName(env: Env, targetType: string, targetName: string): string {
    if targetType == "host-service" && ':' !in targetName then targetName + ":" + env.defaultHost else targetName
  }

  /** The target that a bind makes. */
  ghost predicate IsBoundTarget(env: Env, targetType: string, targetName: string, t: Target) {
    && t.name == BoundName(env, targetType, targetName) && t.service == ""
    && t.selector ==
         if targetType == "container" then "internal.skupper.io/container" else "internal.skupper.io/host-service"
  }

  /** `after` is `before` with `t` in the place of each of its namesakes, or at the end if it has none. */
  ghost predicate Placed(before: seq<Target>, t: Target, after: seq<Target>) {
    && |before| <= |after| <= |before| + 1 && t in after
    && (forall i :: 0 <= i < |before| ==> after[i] == if before[i].name == t.name then t else before[i])
    && (|after| > |before| <==> forall i :: 0 <= i < |before| ==> before[i].name != t.name)
    && (|after| > |before| ==> after[|before|] == t)
  }

  /**
   * Service `b` is `si` as a local one, with its target bound. It keeps a port that it has, or takes the target's, or
   * 80 for http; the target has the port it was given unless the service took that.
   */
  ghost predicate Binds(env: Env, si: ServiceInterface, targetType: string, targetName: string, targetPort: int,
                        b: ServiceInterface) {
    && b == si.(port := b.port, targets := b.targets, origin := "")
    && b.port == (if si.port != 0 then si.port else if targetPort != 0 then targetPort else 80)
    && exists t ::
         && IsBoundTarget(env, targetType, targetName, t)
         && t.targetPort == (if si.port != 0 then targetPort else 0)
         && Placed(si.targets, t, b.targets)
  }

  lemma TargetBound(env: Env, targetType: string, targetName: string, port: int)
    requires GetTarget(env, targetType, targetName).Ok?
    ensures var t := GetTarget(env, targetType, targetName).value.(targetPort := port);
      IsBoundTarget(env, targetType, targetName, t)
    ensures GetTarget(env, targetType, targetName).value.targetPort == 0
  {
  }

  lemma WithTargetPlaced(ts: seq<Target>, t: Target)
    ensures Placed(ts, t, WithTarget(ts, t))
  {
    if u :| u in ts && u.name == t.name {
      var i :| 0 <= i < |ts| && ts[i] == u;
      assert WithTarget(ts, t)[i] == t;
    } else {
      forall i | 0 <= i < |ts| ensures ts[i].name != t.name { assert ts[i] in ts; }
    }
  }

  /** When a bind succeeds, and what it makes of the service. */
  lemma BindMeans(env: Env, si: ServiceInterface, targetType: string, targetName: string, protocol: string,
                  targetPort: int)
    ensures var r := Bound(env, si, targetType, targetName, protocol, targetPort);
      && (r.Ok? <==>
            && Validate(si).None? && (protocol == "" || protocol == si.protocol)
            && ((targetType == "container" && targetName in env.containers) || targetType == "host-service")
            && (si.port != 0 || targetPort != 0 || protocol == "http"))
      && (r.Ok? ==> Binds(env, si, targetType, targetName, targetPort, r.value))
      && (r.Ok? ==>
            var b, name := r.value, BoundName(env, targetType, targetName);
            && (forall t :: t in b.targets && t.name == name ==>
                  Bindings.GetTargetPort(b, t) == if targetPort != 0 then targetPort else b.port)
            && (forall t: Target :: t.name != name ==> (t in b.targets <==> t in si.targets)))
  {
    var r := Bound(env, si, targetType, targetName, protocol, targetPort);
    if r.Ok? {
      var plain := GetTarget(env, targetType, targetName).value;
      var port := if si.port != 0 then targetPort else 0;
      var target := plain.(targetPort := port);
      TargetBound(env, targetType, targetName, port);
      WithTargetPlaced(si.targets, target);
      WithTargetHas(si.targets, target);
      WithTargetOthers(si.targets, target);
      assert r.value.targets == WithTarget(si.targets, target);
    }
  }

  /** Why a bind is refused: the first of these reasons. */
  lemma BindRefused(env: Env, si: ServiceInterface, targetType: string, targetName: string, protocol: string,
                    targetPort: int)
    ensures var r := Bound(env, si, targetType, targetName, protocol, targetPort);
      && (Validate(si).Some? <==> r.Err? && r.error in {BadTargetPort, BadPort, AggregateAndEvents, BadAggregate,
                                                         BadProtocol, AggregateNeedsHttp, EventsNeedHttp})
      && (Validate(si).Some? ==> r == Err(Validate(si).value))
      && (r == Err(ProtocolMismatch) <==> Validate(si).None? && protocol != "" && protocol != si.protocol)
      && (r == Err(UnknownContainer) <==>
            Validate(si).None? && (protocol == "" || protocol == si.protocol) &&
            targetType == "container" && targetName !in env.containers)
      && (r == Err(UnsupportedTarget) <==>
            Validate(si).None? && (protocol == "" || protocol == si.protocol) &&
            targetType != "container" && targetType != "host-service")
      && (r == Err(PortUnknown) <==>
            && Validate(si).None? && (protocol == "" || protocol == si.protocol)
            && ((targetType == "container" && targetName in env.containers) || targetType == "host-service")
            && si.port == 0 && targetPort == 0 && protocol != "http")
  {
  }

  lemma WithTargetOthers(ts: seq<Target>, target: Target)
    ensures forall t: Target :: t.name != target.name ==> (t in WithTarget(ts, target) <==> t in ts)
    ensures forall t :: t in WithTarget(ts, target) && t.name == target.name ==> t == target
  {
    forall t | t in ts && t.name != target.name ensures t in WithTarget(ts, target) {
      var i :| 0 <= i < |ts| && ts[i] == t;
      assert WithTarget(ts, target)[i] == t;
    }
  }

  // ---------------------------------------------------------------- the registry over all commands

  lemma WithTargetUnique(ts: seq<Target>, target: Target)
    requires Bindings.UniqueNames(ts)
    ensures Bindings.UniqueNames(WithTarget(ts, target))
  {
  }

  /** Unbinding leaves exactly the targets that its rule does not match. */
  lemma {:induction false} UnmatchedExactly(env: Env, serviceName: string, targetName: string, ts: seq<Target>,
                                            t: Target)
    ensures t in Unmatched(env, serviceName, targetName, ts) <==> t in ts && !Matches(env, serviceName, targetName, t)
  {
    if ts != [] {
      var init, last := ts[..|ts| - 1], ts[|ts| - 1];
      assert ts == init + [last];
      UnmatchedExactly(env, serviceName, targetName, init, t);
    }
  }

  lemma {:induction false} UnmatchedUnique(env: Env, serviceName: string, targetName: string, ts: seq<Target>)
    requires Bindings.UniqueNames(ts)
    ensures Bindings.UniqueNames(Unmatched(env, serviceName, targetName, ts))
  {
    if ts != [] {
      var init, last := ts[..|ts| - 1], ts[|ts| - 1];
      UnmatchedUnique(env, serviceName, targetName, init);
      var rest := Unmatched(env, serviceName, targetName, init);
      forall i | 0 <= i < |rest| ensures rest[i].name != last.name {
        UnmatchedExactly(env, serviceName, targetName, init, rest[i]);
        var j :| 0 <= j < |init| && init[j] == rest[i];
        assert ts[j].name != ts[|ts| - 1].name;
      }
    }
  }

  /** Entries are filed under their address and name each target once. */
  ghost predicate Tidy(registry: Services) {
    WellKeyed(registry) && forall n :: n in registry ==> Bindings.UniqueNames(registry[n].targets)
  }

  /** The service of a create command comes without targets of one name. */
  ghost predicate Reasonable(c: Command) {
    c.Create? ==> Bindings.UniqueNames(c.si.targets)
  }

  function KeyOf(c: Command): string {
    match c
    case Create(si) => si.address
    case Bind(a, _, _, _, _) => a
    case Expose(a, _, _, _, _, _) => a
    case Unbind(a, _, _, _) => a
    case Remove(a) => a
  }

  lemma BoundShape(env: Env, si: ServiceInterface, targetType: string, targetName: string, protocol: string,
                   targetPort: int)
    requires Bound(env, si, targetType, targetName, protocol, targetPort).Ok? && Bindings.UniqueNames(si.targets)
    ensures var b := Bound(env, si, targetType, targetName, protocol, targetPort).value;
      b.address == si.address && b.origin == "" && Bindings.UniqueNames(b.targets)
  {
    var plain := GetTarget(env, targetType, targetName).value;
    WithTargetUnique(si.targets, plain);
    WithTargetUnique(si.targets, plain.(targetPort := targetPort));
  }

  /**
   * A successful command keeps the registry tidy and touches no key but its own, where it leaves a local definition, or
   * the old one with other targets, or nothing.
   */
  lemma RunTidy(env: Env, registry: Services, c: Command)
    requires Tidy(registry) && Reasonable(c) && Run(env, registry, c).Ok?
    ensures var after, k := Run(env, registry, c).value, KeyOf(c);
      && Tidy(after)
      && (forall n :: n != k ==> SameAt(registry, after, n))
      && (k in after ==>
            after[k].origin == "" || (k in registry && after[k] == registry[k].(targets := after[k].targets)))
  {
    match c
    case Create(si) =>
    case Bind(a, targetType, targetName, protocol, targetPort) =>
      BoundShape(env, registry[a], targetType, targetName, protocol, targetPort);
    case Expose(a, port, targetType, targetName, protocol, targetPort) =>
      BoundShape(env, Exposed(registry, a, port, protocol).value, targetType, targetName, protocol, targetPort);
    case Unbind(a, _, targetName, _) => UnmatchedUnique(env, a, targetName, registry[a].targets);
    case Remove(a) =>
  }

  ghost predicate IsExecuted(envs: seq<Env>, registries: seq<Services>, commands: seq<Command>, i: nat)
    requires |registries| == |commands| + 1 == |envs| + 1 && i < |commands|
  {
    Reasonable(commands[i]) &&
    match Run(envs[i], registries[i], commands[i])
    case Ok(after) => registries[i + 1] == after
    case Err(_) => registries[i + 1] == registries[i]
  }

  /** Over every sequence of commands the registry stays tidy, whatever the environment becomes in between. */
  lemma {:induction false} CommandsTidy(envs: seq<Env>, registries: seq<Services>, commands: seq<Command>, i: nat)
    requires |registries| == |commands| + 1 == |envs| + 1 && i <= |commands|
    requires forall j: nat :: j < |commands| ==> IsExecuted(envs, registries, commands, j)
    requires Tidy(registries[0])
    ensures Tidy(registries[i])
  {
    if i > 0 {
      CommandsTidy(envs, registries, commands, i - 1);
      assert IsExecuted(envs, registries, commands, i - 1);
      if Run(envs[i - 1], registries[i - 1], commands[i - 1]).Ok? {
        RunTidy(envs[i - 1], registries[i - 1], commands[i - 1]);
      }
    }
  }

  ghost predicate AllValid(registry: Services) {
    forall n :: n in registry ==> Validate(registry[n]).None?
  }

  /** A target port that the command gives is a port. */
  predicate GivesPort(c: Command) {
    match c
    case Bind(_, _, _, _, targetPort) => IsPort(targetPort)
    case Expose(_, _, _, _, _, targetPort) => IsPort(targetPort)
    case _ => true
  }

  lemma FewerTargetsValid(si: ServiceInterface, ts: seq<Target>)
    requires Validate(si).None? && forall t :: t in ts ==> t in si.targets
    ensures Validate(si.(targets := ts)).None?
  {
  }

  lemma StoredValid(registry: Services, k: string, si: ServiceInterface)
    requires AllValid(registry)
    ensures AllValid(registry[k := si]) <==> Validate(si).None?
  {
    assert registry[k := si][k] == si;
  }

  /** A successful command leaves every entry valid exactly when the target port it gives, if it does, is a port. */
  lemma RunValid(env: Env, registry: Services, c: Command)
    requires AllValid(registry) && Run(env, registry, c).Ok?
    ensures AllValid(Run(env, registry, c).value) <==> GivesPort(c)
  {
    match c
    case Create(si) => StoredValid(registry, si.address, si.(origin := ""));
    case Bind(a, targetType, targetName, protocol, targetPort) =>
      BoundValid(env, registry, registry[a], targetType, targetName, protocol, targetPort);
    case Expose(a, port, targetType, targetName, protocol, targetPort) =>
      var si := Exposed(registry, a, port, protocol).value;
      BoundValid(env, registry, si, targetType, targetName, protocol, targetPort);
    case Unbind(a, _, targetName, _) =>
      var si := registry[a];
      var left := Unmatched(env, a, targetName, si.targets);
      forall t | t in left ensures t in si.targets { UnmatchedExactly(env, a, targetName, si.targets, t); }
      FewerTargetsValid(si, left);
      StoredValid(registry, a, si.(targets := left));
    case Remove(_) =>
  }

  lemma BoundValid(env: Env, registry: Services, si: ServiceInterface, targetType: string, targetName: string,
                   protocol: string, targetPort: int)
    requires AllValid(registry) && BoundIn(env, registry, si, targetType, targetName, protocol, targetPort).Ok?
    ensures AllValid(BoundIn(env, registry, si, targetType, targetName, protocol, targetPort).value) <==>
      IsPort(targetPort)
  {
    RebindValid(env, si, targetType, targetName, protocol, targetPort);
    StoredValid(registry, si.address, Bound(env, si, targetType, targetName, protocol, targetPort).value);
  }

  /**
   * Where every entry is valid, a bind or expose is refused for its service's ports exactly when it is an expose that
   * would make a new service with a port out of range.
   */
  lemma RefusedForPorts(env: Env, registry: Services, c: Command)
    requires AllValid(registry) && (c.Bind? || c.Expose?)
    ensures Run(env, registry, c) != Err(BadTargetPort)
    ensures Run(env, registry, c) == Err(BadPort) <==> c.Expose? && c.address !in registry && !IsPort(c.port)
  {
  }

  /**
   * Over every sequence of commands that give ports in range, on a registry of valid entries, every entry stays valid,
   * so no bind or expose is ever refused for the ports of a service that is there.
   */
  lemma {:induction false} CommandsValid(envs: seq<Env>, registries: seq<Services>, commands: seq<Command>, i: nat)
    requires |registries| == |commands| + 1 == |envs| + 1 && i <= |commands|
    requires forall j: nat :: j < |commands| ==> IsExecuted(envs, registries, commands, j) && GivesPort(commands[j])
    requires AllValid(registries[0])
    ensures AllValid(registries[i])
    ensures forall env, c: Command :: (c.Bind? || c.Expose?) && c.address in registries[i] ==>
      Run(env, registries[i], c) != Err(BadTargetPort) && Run(env, registries[i], c) != Err(BadPort)
  {
    if i > 0 {
      CommandsValid(envs, registries, commands, i - 1);
      assert IsExecuted(envs, registries, commands, i - 1);
      if Run(envs[i - 1], registries[i - 1], commands[i - 1]).Ok? {
        RunValid(envs[i - 1], registries[i - 1], commands[i - 1]);
      }
    }
    forall env, c: Command | (c.Bind? || c.Expose?) && c.address in registries[i]
      ensures Run(env, registries[i], c) != Err(BadTargetPort) && Run(env, registries[i], c) != Err(BadPort)
    {
      RefusedForPorts(env, registries[i], c);
    }
  }

  /**
   * A successful command is an edit that the sync protocol allows exactly when it does not delete another site's entry:
   * this is the hypothesis on local edits that the protocol's invariants need.
   */
  lemma RunIsCliEdit(env: Env, registry: Services, c: Command)
    requires Tidy(registry) && Reasonable(c) && Run(env, registry, c).Ok?
    ensures var after := Run(env, registry, c).value;
      CliEdit(registry, after) <==> forall n :: n in registry && n !in after ==> !IsRemote(registry[n])
  {
    var after, k := Run(env, registry, c).value, KeyOf(c);
    RunTidy(env, registry, c);
    if forall n :: n in registry && n !in after ==> !IsRemote(registry[n]) {
      assert CliEditAt(registry, after, k);
    }
    if CliEdit(registry, after) {
      var j :| CliEditAt(registry, after, j);
      forall n | n in registry && n !in after ensures !IsRemote(registry[n]) {
        assert !SameAt(registry, after, n);
      }
    }
  }

  // ---------------------------------------------------------------- the commands on the file

  class ServiceClient {
    var registry: Services  // the skupper-services file

    constructor (registry: Services)
      ensures this.registry == registry
    {
      this.registry := registry;
    }

    method UpdateServiceInterface(service: ServiceInterface, overwriteIfExists: bool)
      modifies this
      ensures registry == if overwriteIfExists || service.address !in old(registry)
        then old(registry)[service.address := service.(origin := "")] else old(registry)
    {
      if overwriteIfExists || service.address !in registry {
        registry := registry[service.address := service.(origin := "")];
      }
    }

    method ServiceInterfaceCreate(si: ServiceInterface) returns (fault: Option<Fault>)
      modifies this
      ensures match Created(old(registry), si)
        case Ok(after) => fault == None && registry == after
        case Err(f) => fault == Some(f) && registry == old(registry)
    {
      fault := Validate(si);
      if fault.None? {
        UpdateServiceInterface(si, false);
      }
    }

    method ServiceInterfaceBind(env: Env, si: ServiceInterface, targetType: string, targetName: string,
                                protocol: string,
                                targetPort: int) returns (fault: Option<Fault>)
      modifies this
      ensures match BoundIn(env, old(registry), si, targetType, targetName, protocol, targetPort)
        case Ok(after) => fault == None && registry == after
        case Err(f) => fault == Some(f) && registry == old(registry)
    {
      fault := Validate(si);
      if fault.Some? {
        return;
      }
      if protocol != "" && si.protocol != protocol {
        return Some(ProtocolMismatch);
      }
      var found := GetTarget(env, targetType, targetName);
      if found.Err? {
        return Some(found.error);
      }
      var service, target := si, found.value;
      if targetPort != 0 {
        if service.port == 0 {
          service := service.(port := targetPort);
        } else {
          target := target.(targetPort := targetPort);
        }
      }
      if service.port == 0 {
        if protocol == "http" {
          service := service.(port := 80);
        } else {
          return Some(PortUnknown);
        }
      }
      var targets := AddTargetToServiceInterface(service.targets, target);
      UpdateServiceInterface(service.(targets := targets), true);
    }

    method ServiceInterfaceUnbind(env: Env, targetType: string, targetName: string, address: string,
                                  deleteIfNoTargets: bool)
      returns (fault: Option<Fault>)
      modifies this
      ensures match Unbound(env, old(registry), targetType, targetName, address, deleteIfNoTargets)
        case Ok(after) => fault == None && registry == after
        case Err(f) => fault == Some(f) && registry == old(registry)
    {
      if targetType != "container" && targetType != "host-service" {
        return Some(UnsupportedTarget);
      }
      if address !in registry {
        return Some(NoSuchService);
      }
      var service := registry[address];
      var targets, modified := RemoveMatching(env, address, targetName, service.targets);
      if !modified {
        return Some(NoSuchTarget);
      }
      if |targets| == 0 && deleteIfNoTargets {
        registry := registry - {address};
      } else {
        registry := registry[address := service.(targets := targets)];
      }
      return None;
    }

    method ServiceInterfaceRemove(address: string) returns (fault: Option<Fault>)
      modifies this
      ensures match Removed(old(registry), address)
        case Ok(after) => fault == None && registry == after
        case Err(f) => fault == Some(f) && registry == old(registry)
    {
      if address !in registry {
        return Some(NoSuchService);
      }
      registry := registry - {address};
      return None;
    }

    /** The command line's front end: the bind and expose commands look the service up first. */
    method Execute(env: Env, c: Command) returns (fault: Option<Fault>)
      modifies this
      ensures match Run(env, old(registry), c)
        case Ok(after) => fault == None && registry == after
        case Err(f) => fault == Some(f) && registry == old(registry)
    {
      match c {
        case Create(si) => fault := ServiceInterfaceCreate(si);
        case Bind(address, targetType, targetName, protocol, targetPort) =>
          if address !in registry {
            return Some(NoSuchService);
          }
          fault := ServiceInterfaceBind(env, registry[address], targetType, targetName, protocol, targetPort);
        case Expose(address, port, targetType, targetName, protocol, targetPort) =>
          var service := Exposed(registry, address, port, protocol);
          if service.Err? {
            return Some(service.error);
          }
          fault := ServiceInterfaceBind(env, service.value, targetType, targetName, protocol, targetPort);
        case Unbind(address, targetType, targetName, deleteIfNoTargets) =>
          fault := ServiceInterfaceUnbind(env, targetType, targetName, address, deleteIfNoTargets);
        case Remove(address) => fault := ServiceInterfaceRemove(address);
      }
    }
  }
}
