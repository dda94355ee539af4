/** Compiling a service definition into the router configuration of its proxy. */
module ProxyConfigs {
  import opened ServiceTypes
  import opened Bindings
  import opened RouterConfigs

  const INTER_ROUTER_PROFILE := "skupper-internal"
  const EDGE_LISTENER_PORT := 45671
  const HTTP2_VERSION := "HTTP/2.0"
  const ANY_HOST := "0.0.0.0"

  /** The part of `s` before its first colon. */
  function BeforeColon(s: string): string {
    if s == "" || s[0] == ':' then "" else [s[0]] + BeforeColon(s[1..])
  }

  /** The host that a target's egress connects to, if its selector is a known one. */
  function EgressHost(t: Target): Option<string> {
    if t.selector == CONTAINER then Some(t.name)
    else if t.selector == HOST_SERVICE then Some(BeforeColon(t.name))
    else None
  }

  function EgressName(host: string): string {
    "egress-" + host
  }

  datatype HostPort = HostPort(host: string, port: int)

  /** The egresses of a list of targets: a later target takes the name of an earlier one. */
  function Egresses(servicePort: int, ts: seq<Target>): map<string, HostPort> {
    if ts == [] then map[]
    else
      var earlier, t := Egresses(servicePort, ts[..|ts| - 1]), ts[|ts| - 1];
      match EgressHost(t)
      case None => earlier
      case Some(host) => earlier[EgressName(host) := HostPort(host, PortOf(servicePort, t))]
  }

  function TcpBridge(name: string, host: string, port: int, address: string, siteId: string): TcpEndpoint {
    TcpEndpoint(name, host, Itoa(port), address, siteId)
  }

  function HttpBridge(name: string, host: string, port: int, address: string, version: string,
                      siteId: string): HttpEndpoint {
    HttpEndpoint(name, host, Itoa(port), address, siteId, version, "", false, "")
  }

  function TcpEgresses(egresses: map<string, HostPort>, address: string, siteId: string): map<string, TcpEndpoint> {
    map n | n in egresses :: TcpBridge(n, egresses[n].host, egresses[n].port, address, siteId)
  }

  function HttpEgresses(egresses: map<string, HostPort>, address: string, version: string, siteId: string)
    : map<string, HttpEndpoint>
  {
    map n | n in egresses :: HttpBridge(n, egresses[n].host, egresses[n].port, address, version, siteId)
  }

  /** The bridges of a definition. A local one has its targets' egresses; any other has its ingress alone. */
  function ProxyBridges(def: ServiceInterface, siteId: string): Bridges {
    var egresses := if def.origin == "" then Egresses(def.port, def.targets) else map[];
    var httpHost := if def.origin == "" then def.address else ANY_HOST;
    if def.protocol == "tcp" then
      NO_BRIDGES.(tcpListeners := map["ingress" := TcpBridge("ingress", ANY_HOST, def.port, def.address, siteId)],
                  tcpConnectors := TcpEgresses(egresses, def.address, siteId))
    else if def.protocol == "http" || def.protocol == "http2" then
      var version := if def.protocol == "http2" then HTTP2_VERSION else "";
      var ingress := HttpBridge("ingress", httpHost, def.port, def.address, version, siteId);
      NO_BRIDGES.(httpListeners := map["ingress" := ingress],
                  httpConnectors := HttpEgresses(egresses, def.address, version, siteId))
    else
      NO_BRIDGES
  }

  const UPLINK :=
    Connector("uplink", ROLE_EDGE, "skupper-router", Itoa(EDGE_LISTENER_PORT), false, 0, false, INTER_ROUTER_PROFILE, 0)
  const PROXY_AMQP :=
    Listener("amqp", "", "localhost", 5672, false, false, 0, "", "", false, 0, "", false, false, false)

  /** What every proxy has: a profile, the uplink to the router, and a local listener. */
  function ProxyBase(siteId: string): Config {
    var profile := SslProfile(INTER_ROUTER_PROFILE, "", "", "");
    var c := Edited(InitialConfig("$HOSTNAME", siteId, true), Edit.AddSslProfile(profile));
    Edited(Edited(c, Edit.AddConnector(UPLINK)), Edit.AddListener(PROXY_AMQP))
  }

  function ProxyConfig(def: ServiceInterface, siteId: string): Config {
    ProxyBase(siteId).(bridges := ProxyBridges(def, siteId))
  }

  lemma ProxyBaseKeyed(siteId: string)
    ensures Keyed(ProxyBase(siteId)) && ProxyBase(siteId).bridges == NO_BRIDGES
  {
  }

  lemma ProxyConfigKeyed(def: ServiceInterface, siteId: string)
    ensures Keyed(ProxyConfig(def, siteId))
  {
  }

  lemma ProxyDecoded(def: ServiceInterface, siteId: string, es: seq<Element>)
    requires Encodes(es, ProxyConfig(def, siteId))
    ensures Decode(es) == Some(ProxyConfig(def, siteId))
  {
    ProxyConfigKeyed(def, siteId);
    RoundTrip(ProxyConfig(def, siteId), es);
  }

  // ---------------------------------------------------------------- the compiler

  lemma OneMoreTcp(ts: seq<Target>, i: nat, port: int, address: string, siteId: string)
    requires i < |ts|
    ensures var before, t := TcpEgresses(Egresses(port, ts[..i]), address, siteId), ts[i];
      TcpEgresses(Egresses(port, ts[..i + 1]), address, siteId) ==
        match EgressHost(t)
        case None => before
        case Some(h) => before[EgressName(h) := TcpBridge(EgressName(h), h, PortOf(port, t), address, siteId)]
  {
    assert ts[..i + 1][..i] == ts[..i];
  }

  lemma OneMoreHttp(ts: seq<Target>, i: nat, port: int, address: string, version: string, siteId: string)
    requires i < |ts|
    ensures var before, t := HttpEgresses(Egresses(port, ts[..i]), address, version, siteId), ts[i];
      HttpEgresses(Egresses(port, ts[..i + 1]), address, version, siteId) ==
        match EgressHost(t)
        case None => before
        case Some(h) => before[EgressName(h) := HttpBridge(EgressName(h), h, PortOf(port, t), address, version, siteId)]
  {
    assert ts[..i + 1][..i] == ts[..i];
  }

  method AddTcpEgress(config: RouterConfig, t: Target, port: int, address: string, siteId: string)
    modifies config
    ensures var before := old(config.bridges.tcpConnectors);
      config.Value() == old(config.Value()).(bridges := old(config.bridges).(tcpConnectors :=
        match EgressHost(t)
        case None => before
        case Some(h) => before[EgressName(h) := TcpBridge(EgressName(h), h, PortOf(port, t), address, siteId)]))
  {
    var tport := port;
    if t.targetPort != 0 {
      tport := t.targetPort;
    }
    if t.selector == CONTAINER {
      config.AddTcpConnector(TcpBridge("egress-" + t.name, t.name, tport, address, siteId));
    } else if t.selector == HOST_SERVICE {
      var thost := BeforeColon(t.name);
      config.AddTcpConnector(TcpBridge("egress-" + thost, thost, tport, address, siteId));
    }
  }

  method AddHttpEgress(config: RouterConfig, t: Target, port: int, address: string, version: string, siteId: string)
    modifies config
    ensures var before := old(config.bridges.httpConnectors);
      config.Value() == old(config.Value()).(bridges := old(config.bridges).(httpConnectors :=
        match EgressHost(t)
        case None => before
        case Some(h) =>
          before[EgressName(h) := HttpBridge(EgressName(h), h, PortOf(port, t), address, version, siteId)]))
  {
    var tport := port;
    if t.targetPort != 0 {
      tport := t.targetPort;
    }
    if t.selector == CONTAINER {
      config.AddHttpConnector(HttpBridge("egress-" + t.name, t.name, tport, address, version, siteId));
    } else if t.selector == HOST_SERVICE {
      var thost := BeforeColon(t.name);
      config.AddHttpConnector(HttpBridge("egress-" + thost, thost, tport, address, version, siteId));
    }
  }

  method AddTcpEgresses(config: RouterConfig, def: ServiceInterface, siteId: string)
    requires config.bridges.tcpConnectors == map[]
    modifies config
    ensures config.Value() == old(config.Value()).(bridges := old(config.bridges).(
      tcpConnectors := TcpEgresses(Egresses(def.port, def.targets), def.address, siteId)))
  {
    for i := 0 to |def.targets|
      invariant config.bridges.tcpConnectors == TcpEgresses(Egresses(def.port, def.targets[..i]), def.address, siteId)
      invariant config.Value() ==
        old(config.Value()).(bridges := old(config.bridges).(tcpConnectors := config.bridges.tcpConnectors))
    {
      OneMoreTcp(def.targets, i, def.port, def.address, siteId);
      AddTcpEgress(config, def.targets[i], def.port, def.address, siteId);
    }
    assert def.targets[..|def.targets|] == def.targets;
  }

  method AddHttpEgresses(config: RouterConfig, def: ServiceInterface, version: string, siteId: string)
    requires config.bridges.httpConnectors == map[]
    modifies config
    ensures config.Value() == old(config.Value()).(bridges := old(config.bridges).(
      httpConnectors := HttpEgresses(Egresses(def.port, def.targets), def.address, version, siteId)))
  {
    for i := 0 to |def.targets|
      invariant config.bridges.httpConnectors ==
        HttpEgresses(Egresses(def.port, def.targets[..i]), def.address, version, siteId)
      invariant config.Value() ==
        old(config.Value()).(bridges := old(config.bridges).(httpConnectors := config.bridges.httpConnectors))
    {
      OneMoreHttp(def.targets, i, def.port, def.address, version, siteId);
      AddHttpEgress(config, def.targets[i], def.port, def.address, version, siteId);
    }
    assert def.targets[..|def.targets|] == def.targets;
  }

  method AddProxyBridges(config: RouterConfig, def: ServiceInterface, siteId: string)
    requires config.bridges == NO_BRIDGES
    modifies config
    ensures config.Value() == old(config.Value()).(bridges := ProxyBridges(def, siteId))
  {
    var port := def.port;
    if def.origin == "" {
      var host := def.address;
      match def.protocol {
        case "tcp" =>
          config.AddTcpListener(TcpBridge("ingress", "0.0.0.0", port, def.address, siteId));
          AddTcpEgresses(config, def, siteId);
        case "http" =>
          config.AddHttpListener(HttpBridge("ingress", host, port, def.address, "", siteId));
          AddHttpEgresses(config, def, "", siteId);
        case "http2" =>
          config.AddHttpListener(HttpBridge("ingress", host, port, def.address, "HTTP/2.0", siteId));
          AddHttpEgresses(config, def, "HTTP/2.0", siteId);
        case _ =>
      }
    } else {
      var host := "0.0.0.0";
      match def.protocol {
        case "tcp" =>
          config.AddTcpListener(TcpBridge("ingress", host, port, def.address, siteId));
        case "http" =>
          config.AddHttpListener(HttpBridge("ingress", host, port, def.address, "", siteId));
        case "http2" =>
          config.AddHttpListener(HttpBridge("ingress", host, port, def.address, "HTTP/2.0", siteId));
        case _ =>
      }
    }
  }

  method NewProxyBase(siteId: string) returns (config: RouterConfig)
    ensures fresh(config) && config.Value() == ProxyBase(siteId)
  {
    config := new RouterConfig.Initial("$HOSTNAME", siteId, true);
    config.AddSslProfile(SslProfile(INTER_ROUTER_PROFILE, "", "", ""));
    config.AddConnector(UPLINK);
    config.AddListener(PROXY_AMQP);
  }

  /** The printed configuration of a proxy; parsing it gives back what was compiled. */
  method GetRouterConfigForProxy(def: ServiceInterface, siteId: string) returns (es: seq<Element>)
    ensures Encodes(es, ProxyConfig(def, siteId)) && Decode(es) == Some(ProxyConfig(def, siteId))
  {
    var config := NewProxyBase(siteId);
    ProxyBaseKeyed(siteId);
    AddProxyBridges(config, def, siteId);
    es := MarshalRouterConfig(config.Value());
    ProxyDecoded(def, siteId, es);
  }

  // ---------------------------------------------------------------- what is compiled

  predicate Gives(t: Target, name: string) {
    EgressHost(t).Some? && EgressName(EgressHost(t).value) == name
  }

  /** The host and port of the last target whose egress is called `name`. */
  function LastEgress(servicePort: int, ts: seq<Target>, name: string): Option<HostPort> {
    if ts == [] then None
    else
      var t := ts[|ts| - 1];
      if Gives(t, name) then Some(HostPort(EgressHost(t).value, PortOf(servicePort, t)))
      else LastEgress(servicePort, ts[..|ts| - 1], name)
  }

  /** There is one egress for each name that some target gives, and the last such target decides it. */
  lemma {:induction false} EgressesExact(servicePort: int, ts: seq<Target>, name: string)
    ensures name in Egresses(servicePort, ts) <==> exists t :: t in ts && Gives(t, name)
    ensures name in Egresses(servicePort, ts) <==> LastEgress(servicePort, ts, name).Some?
    ensures name in Egresses(servicePort, ts) ==>
      LastEgress(servicePort, ts, name) == Some(Egresses(servicePort, ts)[name])
  {
    if ts != [] {
      EgressesExact(servicePort, ts[..|ts| - 1], name);
      assert ts == ts[..|ts| - 1] + [ts[|ts| - 1]];
      assert Gives(ts[|ts| - 1], name) ==> ts[|ts| - 1] in ts;
    }
  }

  predicate KnownProtocol(protocol: string) {
    protocol == "tcp" || protocol == "http" || protocol == "http2"
  }

  function HttpVersion(protocol: string): string {
    if protocol == "http2" then "HTTP/2.0" else ""
  }

  /** Exactly one ingress, which serves the service's address at the service's port. */
  ghost predicate OneIngress(b: Bridges, def: ServiceInterface, siteId: string) {
    if def.protocol == "tcp" then
      && b.httpListeners == map[]
      && b.tcpListeners == map["ingress" := TcpEndpoint("ingress", "0.0.0.0", Itoa(def.port), def.address, siteId)]
    else
      var host := if def.origin == "" then def.address else "0.0.0.0";
      && b.tcpListeners == map[]
      && b.httpListeners == map["ingress" := HttpEndpoint("ingress", host, Itoa(def.port), def.address, siteId,
                                                         HttpVersion(def.protocol), "", false, "")]
  }

  /**
   * `name` is an egress of the kind that the protocol calls for, to this host and port; and the only one of its name.
   */
  ghost predicate EgressIs(b: Bridges, def: ServiceInterface, siteId: string, name: string, end: HostPort) {
    if def.protocol == "tcp" then
      && name in b.tcpConnectors && name !in b.httpConnectors
      && b.tcpConnectors[name] == TcpEndpoint(name, end.host, Itoa(end.port), def.address, siteId)
    else
      && name in b.httpConnectors && name !in b.tcpConnectors
      && b.httpConnectors[name] ==
         HttpEndpoint(name, end.host, Itoa(end.port), def.address, siteId, HttpVersion(def.protocol), "", false, "")
  }

  /**
   * The decoded proxy configuration of a definition with a known protocol has exactly one ingress, no egress if the
   * definition has an origin, and otherwise exactly one for each egress name, which connects to the host and
   * port of the last target of that name.
   */
  lemma ProxyExact(def: ServiceInterface, siteId: string, es: seq<Element>, name: string)
    requires KnownProtocol(def.protocol) && Encodes(es, ProxyConfig(def, siteId))
    ensures Decode(es).Some?
    ensures var b, last := Decode(es).value.bridges, LastEgress(def.port, def.targets, name);
      && OneIngress(b, def, siteId)
      && if def.origin == "" && last.Some? then EgressIs(b, def, siteId, name, last.value)
         else name !in b.tcpConnectors && name !in b.httpConnectors
  {
    ProxyDecoded(def, siteId, es);
    EgressesExact(def.port, def.targets, name);
    BridgesExact(def, siteId, name);
  }

  /** `h` has no colon, and `s` is `h` or goes on with a colon after it. */
  ghost predicate StartsWith(s: string, h: string) {
    ':' !in h && (s == h || (|h| < |s| && s[..|h| + 1] == h + ":"))
  }

  lemma {:induction false} BeforeColonMeans(s: string)
    ensures StartsWith(s, BeforeColon(s))
  {
    if s != "" && s[0] != ':' {
      BeforeColonMeans(s[1..]);
      var h := BeforeColon(s[1..]);
      assert s == [s[0]] + s[1..];
      if s[1..] != h { assert s[..|h| + 2] == [s[0]] + s[1..][..|h| + 1]; }
    }
  }

  /**
   * Target `t` is reached at host `h`: a container at its name, and a host service at the part of its name before the
   * first colon. Other targets are reached nowhere.
   */
  ghost predicate ReachedAt(t: Target, h: string) {
    if t.selector == "internal.skupper.io/container" then h == t.name
    else t.selector == "internal.skupper.io/host-service" && StartsWith(t.name, h)
  }

  lemma StartsAt(s: string, h: string, k: nat)
    requires StartsWith(s, h) && k <= |h| && k < |s|
    ensures s[k] == if k < |h| then h[k] else ':'
  {
    if s != h { assert s[..|h| + 1][k] == (h + ":")[k]; }
  }

  lemma OneStart(s: string, g: string, h: string)
    requires StartsWith(s, g) && StartsWith(s, h)
    ensures |g| >= |h|
  {
    if |g| < |h| {
      StartsAt(s, g, |g|);
      StartsAt(s, h, |g|);
    }
  }

  lemma StartIsPrefix(s: string, h: string)
    requires StartsWith(s, h)
    ensures |h| <= |s| && h == s[..|h|]
  {
    if s != h { assert s[..|h|] == s[..|h| + 1][..|h|]; }
  }

  lemma ReachedAtHost(t: Target, h: string)
    ensures ReachedAt(t, h) <==> EgressHost(t) == Some(h)
  {
    var g := BeforeColon(t.name);
    BeforeColonMeans(t.name);
    if StartsWith(t.name, h) {
      OneStart(t.name, g, h);
      OneStart(t.name, h, g);
      StartIsPrefix(t.name, g);
      StartIsPrefix(t.name, h);
    }
  }

  /** The target at position `i` decides the egress to host `h`: no later target is reached at the same host. */
  ghost predicate Decides(ts: seq<Target>, i: nat, h: string) {
    && i < |ts| && ReachedAt(ts[i], h)
    && forall j :: i < j < |ts| ==> !ReachedAt(ts[j], h)
  }

  lemma {:induction false} DecidesLast(servicePort: int, ts: seq<Target>, i: nat, h: string)
    requires Decides(ts, i, h)
    ensures LastEgress(servicePort, ts, "egress-" + h) == Some(HostPort(h, PortOf(servicePort, ts[i])))
  {
    var k := |ts| - 1;
    ReachedAtHost(ts[i], h);
    if i < k {
      NotGiven(ts[k], h);
      DecidesLast(servicePort, ts[..k], i, h);
    }
  }

  lemma NotGiven(t: Target, h: string)
    requires !ReachedAt(t, h)
    ensures !Gives(t, "egress-" + h)
  {
    if g :| EgressHost(t) == Some(g) {
      ReachedAtHost(t, g);
      assert EgressName(g)[7..] == g && ("egress-" + h)[7..] == h;
    }
  }

  lemma {:induction false} SomeDecides(ts: seq<Target>, h: string) returns (i: nat)
    requires exists t :: t in ts && ReachedAt(t, h)
    ensures Decides(ts, i, h)
  {
    i := |ts| - 1;
    if !ReachedAt(ts[i], h) {
      var k := i;
      assert ts == ts[..k] + [ts[k]];
      i := SomeDecides(ts[..k], h);
    }
  }

  /**
   * The decoded proxy of a local definition has an egress called "egress-" and the host for exactly the hosts at
   * which its targets are reached, and it connects to that host at the port of the last such target, or else the
   * service's.
   */
  lemma EgressesReach(def: ServiceInterface, siteId: string, es: seq<Element>, name: string)
    requires def.protocol in {"tcp", "http", "http2"} && def.origin == "" && Encodes(es, ProxyConfig(def, siteId))
    ensures Decode(es).Some?
    ensures var b := Decode(es).value.bridges;
      && (name in b.tcpConnectors || name in b.httpConnectors <==>
            exists t, h :: t in def.targets && ReachedAt(t, h) && name == "egress-" + h)
      && forall i: nat, h :: Decides(def.targets, i, h) && name == "egress-" + h ==>
           var t := def.targets[i];
           EgressIs(b, def, siteId, name, HostPort(h, if t.targetPort != 0 then t.targetPort else def.port))
  {
    ProxyExact(def, siteId, es, name);
    EgressesExact(def.port, def.targets, name);
    forall t | t in def.targets ensures Gives(t, name) <==> exists h :: ReachedAt(t, h) && name == "egress-" + h {
      if Gives(t, name) {
        ReachedAtHost(t, EgressHost(t).value);
      }
      if h :| ReachedAt(t, h) && name == "egress-" + h {
        ReachedAtHost(t, h);
      }
    }
    forall i: nat, h | Decides(def.targets, i, h) && name == "egress-" + h
      ensures LastEgress(def.port, def.targets, name) == Some(HostPort(h, PortOf(def.port, def.targets[i])))
    {
      DecidesLast(def.port, def.targets, i, h);
    }
  }

  lemma BridgesExact(def: ServiceInterface, siteId: string, name: string)
    requires KnownProtocol(def.protocol)
    ensures var b, egresses := ProxyBridges(def, siteId), Egresses(def.port, def.targets);
      && OneIngress(b, def, siteId)
      && if def.origin == "" && name in egresses then EgressIs(b, def, siteId, name, egresses[name])
         else name !in b.tcpConnectors && name !in b.httpConnectors
  {
  }

  lemma EdgePortPrinted()
    ensures Itoa(EDGE_LISTENER_PORT) == "45671"
  {
    assert Decimal(4) == "4";
    assert Decimal(45) == Decimal(4) + "5" == "45";
    assert Decimal(456) == Decimal(45) + "6" == "456";
    assert Decimal(4567) == Decimal(456) + "7" == "4567";
    assert Decimal(45671) == Decimal(4567) + "1";
  }

  lemma ProxyBaseFrame(siteId: string)
    ensures var c := ProxyBase(siteId);
      && c.metadata == RouterMetadata("$HOSTNAME", "edge", siteId) && c.addresses == map[]
      && c.connectors == map["uplink" := UPLINK] && c.listeners == map["amqp" := PROXY_AMQP]
      && c.sslProfiles.Keys == {"skupper-internal"}
      && var dir := "/etc/qpid-dispatch-certs/skupper-internal";
         c.sslProfiles["skupper-internal"] ==
           SslProfile("skupper-internal", dir + "/tls.crt", dir + "/tls.key", dir + "/ca.crt")
  {
    assert "/etc/qpid-dispatch-certs/" + "skupper-internal" == "/etc/qpid-dispatch-certs/skupper-internal";
  }

  /** The one connector of a proxy: to the edge listener of the site's router, with the site's certificates. */
  ghost predicate IsUplink(x: Connector) {
    && x.name == "uplink" && x.role == "edge" && x.host == "skupper-router" && x.port == "45671" && x.cost == 0
    && x.sslProfile == "skupper-internal" && !x.routeContainer && !x.verifyHostname && x.linkCapacity == 0
  }

  /** The one listener of a proxy: for its own host, without TLS. */
  ghost predicate IsLocalAmqp(l: Listener) {
    && l.name == "amqp" && l.role == "" && l.host == "localhost" && l.port == 5672 && l.cost == 0
    && l.sslProfile == "" && l.saslMechanisms == "" && !l.authenticatePeer && l.linkCapacity == 0
    && !l.routeContainer && !l.http && l.httpRootDir == "" && !l.websockets && !l.healthz && !l.metrics
  }

  /**
   * Apart from its bridges, every decoded proxy configuration is an edge router with one uplink and one local
   * listener.
   */
  lemma ProxyFrame(def: ServiceInterface, siteId: string, es: seq<Element>)
    requires Encodes(es, ProxyConfig(def, siteId))
    ensures Decode(es).Some?
    ensures var c, dir := Decode(es).value, "/etc/qpid-dispatch-certs/skupper-internal";
      && c.metadata.id == "$HOSTNAME" && c.metadata.mode == "edge" && c.metadata.metadata == siteId
      && c.addresses == map[]
      && c.connectors.Keys == {"uplink"} && IsUplink(c.connectors["uplink"])
      && c.listeners.Keys == {"amqp"} && IsLocalAmqp(c.listeners["amqp"])
      && c.sslProfiles.Keys == {"skupper-internal"}
      && c.sslProfiles["skupper-internal"] ==
           SslProfile("skupper-internal", dir + "/tls.crt", dir + "/tls.key", dir + "/ca.crt")
  {
    ProxyDecoded(def, siteId, es);
    EdgePortPrinted();
    ProxyBaseFrame(siteId);
  }

  /** A definition with another protocol has no bridges at all. */
  lemma UnknownProtocolExact(def: ServiceInterface, siteId: string, es: seq<Element>)
    requires Encodes(es, ProxyConfig(def, siteId))
    ensures Decode(es).Some?
    ensures Decode(es).value.bridges == NO_BRIDGES <==> !KnownProtocol(def.protocol)
  {
    ProxyDecoded(def, siteId, es);
    var b := ProxyBridges(def, siteId);
    if KnownProtocol(def.protocol) { assert "ingress" in b.tcpListeners || "ingress" in b.httpListeners; }
  }

  // ---------------------------------------------------------------- two routes to a proxy

  ghost predicate TargetOffers(servicePort: int, t: Target, name: string, end: HostPort) {
    Gives(t, name) && end == HostPort(EgressHost(t).value, PortOf(servicePort, t))
  }

  /** Some target gives the egress `name` with this host and port. */
  ghost predicate Offers(servicePort: int, ts: seq<Target>, name: string, end: HostPort) {
    exists t :: t in ts && TargetOffers(servicePort, t, name, end)
  }

  /** Targets that give the same egress agree on its port. */
  ghost predicate PortsAgree(servicePort: int, ts: seq<Target>) {
    forall t, u :: t in ts && u in ts && EgressHost(t).Some? && EgressHost(t) == EgressHost(u) ==>
      PortOf(servicePort, t) == PortOf(servicePort, u)
  }

  lemma NameGivesHost(t: Target, u: Target, name: string)
    requires Gives(t, name) && Gives(u, name)
    ensures EgressHost(t) == EgressHost(u)
  {
    assert EgressName(EgressHost(t).value)[7..] == EgressHost(t).value;
    assert EgressName(EgressHost(u).value)[7..] == EgressHost(u).value;
  }

  lemma {:induction false} EgressOffered(servicePort: int, ts: seq<Target>, name: string)
    requires name in Egresses(servicePort, ts)
    ensures Offers(servicePort, ts, name, Egresses(servicePort, ts)[name])
  {
    var t := ts[|ts| - 1];
    assert ts == ts[..|ts| - 1] + [t];
    if Gives(t, name) {
      assert t in ts;
    } else {
      EgressOffered(servicePort, ts[..|ts| - 1], name);
      var u :| u in ts[..|ts| - 1] && Gives(u, name) &&
        Egresses(servicePort, ts)[name] == HostPort(EgressHost(u).value, PortOf(servicePort, u));
      assert u in ts;
    }
  }

  /** Some bound target gives the egress `name` with this host and port. */
  ghost predicate BoundOffers(b: Binding, name: string, end: HostPort) {
    exists k :: k in b.targets && TargetOffers(b.publicPort, AsTarget(b.targets[k]), name, end)
  }

  /** The bound targets offer exactly the egresses that the definition's list compiles to. */
  ghost predicate BoundAgrees(b: Binding, def: ServiceInterface) {
    forall name, end :: BoundOffers(b, name, end) <==>
      name in Egresses(def.port, def.targets) && Egresses(def.port, def.targets)[name] == end
  }

  lemma OffersRead(b: Binding, order: seq<string>, name: string, end: HostPort)
    requires Enumerates(order, b.targets.Keys)
    ensures Offers(b.publicPort, TargetsInOrder(b.targets, order), name, end) <==> BoundOffers(b, name, end)
  {
    var ts := TargetsInOrder(b.targets, order);
    if Offers(b.publicPort, ts, name, end) {
      var t :| t in ts && TargetOffers(b.publicPort, t, name, end);
      var i :| 0 <= i < |ts| && ts[i] == t;
      assert order[i] in order;
    }
    if BoundOffers(b, name, end) {
      var k :| k in b.targets && TargetOffers(b.publicPort, AsTarget(b.targets[k]), name, end);
      assert k in order;
      var i :| 0 <= i < |order| && order[i] == k;
      assert ts[i] in ts;
    }
  }

  lemma EnumerationEndingIn(keys: set<string>, last: string) returns (order: seq<string>)
    requires last in keys
    ensures Enumerates(order, keys) && order[|order| - 1] == last
  {
    if keys == {last} {
      order := [last];
    } else {
      var k :| k in keys && k != last;
      var rest := EnumerationEndingIn(keys - {k}, last);
      order := [k] + rest;
    }
  }

  lemma SomeEnumeration(keys: set<string>) returns (order: seq<string>)
    ensures Enumerates(order, keys)
  {
    if k :| k in keys { order := EnumerationEndingIn(keys, k); } else { order := []; }
  }

  lemma EgressPortShows(def: ServiceInterface, si: ServiceInterface, siteId: string, name: string)
    requires def.origin == "" && si.origin == "" && KnownProtocol(def.protocol)
    requires ProxyBridges(def, siteId) == ProxyBridges(si, siteId) && si.protocol == def.protocol
    requires name in Egresses(si.port, si.targets)
    ensures name in Egresses(def.port, def.targets)
    ensures Egresses(si.port, si.targets)[name].port == Egresses(def.port, def.targets)[name].port
  {
    BridgesExact(def, siteId, name);
    BridgesExact(si, siteId, name);
    ItoaInjective(Egresses(si.port, si.targets)[name].port, Egresses(def.port, def.targets)[name].port);
  }

  /** Equal bridges mean equal egresses. */
  lemma SameBridgesSameEgresses(def: ServiceInterface, si: ServiceInterface, siteId: string, name: string)
    requires def.origin == "" && si.origin == "" && KnownProtocol(def.protocol)
    requires ProxyBridges(def, siteId) == ProxyBridges(si, siteId) && si.protocol == def.protocol
    requires name in Egresses(si.port, si.targets)
    ensures name in Egresses(def.port, def.targets)
    ensures Egresses(si.port, si.targets)[name] == Egresses(def.port, def.targets)[name]
  {
    EgressPortShows(def, si, siteId, name);
    EgressOffered(si.port, si.targets, name);
    EgressOffered(def.port, def.targets, name);
    var t :| t in si.targets && Gives(t, name) &&
      Egresses(si.port, si.targets)[name] == HostPort(EgressHost(t).value, PortOf(si.port, t));
    var u :| u in def.targets && Gives(u, name) &&
      Egresses(def.port, def.targets)[name] == HostPort(EgressHost(u).value, PortOf(def.port, u));
    NameGivesHost(t, u, name);
  }

  lemma AgreeingEgresses(b: Binding, def: ServiceInterface, order: seq<string>)
    requires b.publicPort == def.port && Enumerates(order, b.targets.Keys) && BoundAgrees(b, def)
    ensures Egresses(b.publicPort, TargetsInOrder(b.targets, order)) == Egresses(def.port, def.targets)
  {
    var ts := TargetsInOrder(b.targets, order);
    var x, y := Egresses(b.publicPort, ts), Egresses(def.port, def.targets);
    forall name ensures (name in x <==> name in y) && (name in x && name in y ==> x[name] == y[name]) {
      if name in x {
        EgressOffered(b.publicPort, ts, name);
        OffersRead(b, order, name, x[name]);
      }
      if name in y {
        OffersRead(b, order, name, y[name]);
        EgressesExact(b.publicPort, ts, name);
      }
    }
  }

  /** A target that is read last decides its egress. */
  lemma LastReadDecides(b: Binding, k: string, name: string) returns (order: seq<string>)
    requires k in b.targets && Gives(AsTarget(b.targets[k]), name)
    ensures Enumerates(order, b.targets.Keys)
    ensures var e, t := Egresses(b.publicPort, TargetsInOrder(b.targets, order)), AsTarget(b.targets[k]);
      name in e && e[name] == HostPort(EgressHost(t).value, PortOf(b.publicPort, t))
  {
    order := EnumerationEndingIn(b.targets.Keys, k);
    var ts := TargetsInOrder(b.targets, order);
    assert ts[|ts| - 1] == AsTarget(b.targets[k]);
  }

  ghost predicate SameHeader(b: Binding, def: ServiceInterface) {
    b.publicPort == def.port && b.address == def.address && b.origin == def.origin && b.protocol == def.protocol
  }

  /**
   * Compiling a proxy from a binding gives the bridges of its definition, in every order in which the binding's
   * targets may be read, exactly when the definition has no egress at all or the bound targets, with whatever
   * selectors they have kept, offer just the egresses that the definition's list compiles to.
   */
  lemma RoutesAgreeExactly(b: Binding, def: ServiceInterface, siteId: string)
    requires SameHeader(b, def)
    ensures
      (forall order | Enumerates(order, b.targets.Keys) ::
         ProxyBridges(Presented(b, order), siteId) == ProxyBridges(def, siteId))
      <==> (def.origin == "" && KnownProtocol(def.protocol) ==> BoundAgrees(b, def))
  {
    if def.origin == "" && KnownProtocol(def.protocol) {
      if BoundAgrees(b, def) {
        forall order | Enumerates(order, b.targets.Keys)
          ensures ProxyBridges(Presented(b, order), siteId) == ProxyBridges(def, siteId)
        {
          AgreeingEgresses(b, def, order);
        }
      } else {
        RoutesDisagree(b, def, siteId);
      }
    }
  }

  lemma RoutesDisagree(b: Binding, def: ServiceInterface, siteId: string)
    requires SameHeader(b, def) && def.origin == "" && KnownProtocol(def.protocol) && !BoundAgrees(b, def)
    ensures exists order ::
      Enumerates(order, b.targets.Keys) && ProxyBridges(Presented(b, order), siteId) != ProxyBridges(def, siteId)
  {
    var name, end :| !(BoundOffers(b, name, end) <==>
      name in Egresses(def.port, def.targets) && Egresses(def.port, def.targets)[name] == end);
    if BoundOffers(b, name, end) {
      var k :| k in b.targets && TargetOffers(b.publicPort, AsTarget(b.targets[k]), name, end);
      var order := LastReadDecides(b, k, name);
      var si := Presented(b, order);
      if ProxyBridges(si, siteId) == ProxyBridges(def, siteId) { SameBridgesSameEgresses(def, si, siteId, name); }
    } else {
      var order := SomeEnumeration(b.targets.Keys);
      var si := Presented(b, order);
      if ProxyBridges(si, siteId) == ProxyBridges(def, siteId) {
        SameBridgesSameEgresses(si, def, siteId, name);
        EgressOffered(si.port, si.targets, name);
        OffersRead(b, order, name, end);
      }
    }
  }

  // ---------------------------------------------------------------- bindings over a history

  /** The targets `ts` offer exactly the egresses that the definition's list compiles to. */
  ghost predicate TargetsAgree(ts: iset<Target>, def: ServiceInterface) {
    forall name, end :: OffersAmong(def.port, ts, name, end) <==>
      name in Egresses(def.port, def.targets) && Egresses(def.port, def.targets)[name] == end
  }

  ghost predicate OffersAmong(servicePort: int, ts: iset<Target>, name: string, end: HostPort) {
    exists t :: t in ts && TargetOffers(servicePort, t, name, end)
  }

  lemma AlikeOffers(p: int, u: Target, port: int, t: Target, name: string, end: HostPort)
    requires u.name == t.name && u.selector == t.selector && PortOf(p, u) == PortOf(port, t)
    ensures TargetOffers(p, u, name, end) <==> TargetOffers(port, t, name, end)
  {
    assert EgressHost(u) == EgressHost(t);
  }

  lemma BoundAmong(b: Binding, ts: iset<Target>, servicePort: int, name: string, end: HostPort)
    requires TargetsFrom(b, ts, servicePort) && BoundOffers(b, name, end)
    ensures OffersAmong(servicePort, ts, name, end)
  {
    var key :| key in b.targets && TargetOffers(b.publicPort, AsTarget(b.targets[key]), name, end);
    var t :| t in ts && Alike(b, key, t, servicePort);
    AlikeOffers(b.publicPort, AsTarget(b.targets[key]), servicePort, t, name, end);
  }

  lemma AmongBound(b: Binding, ts: iset<Target>, servicePort: int, name: string, end: HostPort)
    requires TargetsOf(b, ts, servicePort) && OffersAmong(servicePort, ts, name, end)
    ensures BoundOffers(b, name, end)
  {
    var t :| t in ts && TargetOffers(servicePort, t, name, end);
    var key :| Alike(b, key, t, servicePort);
    AlikeOffers(b.publicPort, AsTarget(b.targets[key]), servicePort, t, name, end);
  }

  /**
   * After any history of registries, the proxy compiled from the live binding has the bridges of the last definition in
   * every target order exactly when that has no egress or the targets, with the selectors they were filed with, offer
   * just the egresses that the last definition's list compiles to.
   */
  lemma RoutesOverHistory(history: seq<Services>, a: string, siteId: string)
    requires history != [] && a in history[|history| - 1] && forall j :: 0 <= j < |history| ==> WellKeyed(history[j])
    ensures a in Replay(history)
    ensures var b, def := Replay(history)[a], history[|history| - 1][a];
      (forall order | Enumerates(order, b.targets.Keys) ::
         ProxyBridges(Presented(b, order), siteId) == ProxyBridges(def, siteId))
      <==> (def.origin == "" && KnownProtocol(def.protocol) ==> TargetsAgree(DatedTargets(history, a), def))
  {
    ReplayShows(history, a);
    ReplayDated(history, a);
    RoutesForTargets(Replay(history)[a], DatedTargets(history, a), history[|history| - 1][a], siteId);
  }

  lemma RoutesForTargets(b: Binding, ts: iset<Target>, def: ServiceInterface, siteId: string)
    requires ViewOf(b) == DefinitionView(def) && TargetsFrom(b, ts, def.port) && TargetsOf(b, ts, def.port)
    ensures
      (forall order | Enumerates(order, b.targets.Keys) ::
         ProxyBridges(Presented(b, order), siteId) == ProxyBridges(def, siteId))
      <==> (def.origin == "" && KnownProtocol(def.protocol) ==> TargetsAgree(ts, def))
  {
    RoutesAgreeExactly(b, def, siteId);
    forall name, end ensures BoundOffers(b, name, end) <==> OffersAmong(def.port, ts, name, end) {
      if BoundOffers(b, name, end) { BoundAmong(b, ts, def.port, name, end); }
      if OffersAmong(def.port, ts, name, end) { AmongBound(b, ts, def.port, name, end); }
    }
  }

  // ---------------------------------------------------------------- bindings that are up to date

  /** The binding shows what the definition says, and its targets' selectors are those of their last mentions. */
  ghost predicate UpToDate(b: Binding, def: ServiceInterface) {
    && ViewOf(b) == DefinitionView(def)
    && forall k :: k in b.targets ==>
         && LastTarget(def.address, def.targets, k).Some?
         && b.targets[k].selector == LastTarget(def.address, def.targets, k).value.selector
  }

  /**
   * A reconciled binding is up to date exactly when the selectors that its targets already had, or the first
   * mention's for new targets, are those of the last mentions.
   */
  lemma ReconciledUpToDate(b: Binding, def: ServiceInterface)
    requires b.address == def.address
    requires forall k :: k in b.targets ==> k == TargetKey(b.address, b.targets[k].name)
    ensures forall k :: HasTargetForName(def, k) ==>
      FirstTarget(def.address, def.targets, k).Some? && LastTarget(def.address, def.targets, k).Some?
    ensures UpToDate(Reconciled(b, def), def) <==>
      forall k :: HasTargetForName(def, k) ==>
        (if k in b.targets then b.targets[k].selector else FirstTarget(def.address, def.targets, k).value.selector) ==
          LastTarget(def.address, def.targets, k).value.selector
  {
    ReconciledView(b, def);
    NewBindingView(def);
    var r := Reconciled(b, def);
    forall k
      ensures k in r.targets <==> HasTargetForName(def, k)
      ensures k in r.targets ==> k in NewBinding(def).targets && LastTarget(def.address, def.targets, k).Some?
      ensures k in r.targets ==>
        NewBinding(def).targets[k].selector == LastTarget(def.address, def.targets, k).value.selector
    {
      LastTargetExists(def, def.targets, k);
      CreatedAt(def.address, def.targets, k);
      if HasTargetForName(def, k) { StaleTargetFields(b, def, k); }
    }
    forall k | HasTargetForName(def, k)
      ensures FirstTarget(def.address, def.targets, k).Some? && LastTarget(def.address, def.targets, k).Some?
      ensures r.targets[k].selector == NewBinding(def).targets[k].selector <==>
        (if k in b.targets then b.targets[k].selector else FirstTarget(def.address, def.targets, k).value.selector) ==
          LastTarget(def.address, def.targets, k).value.selector
    {
      StaleTargetFields(b, def, k);
    }
  }

  /** A target that decides what is bound under its name. */
  ghost predicate IsLastMention(def: ServiceInterface, t: Target) {
    t in def.targets && LastTarget(def.address, def.targets, TargetKey(def.address, t.name)) == Some(t)
  }

  ghost predicate LastMentionOffers(def: ServiceInterface, name: string, end: HostPort) {
    exists t :: IsLastMention(def, t) && TargetOffers(def.port, t, name, end)
  }

  /** The last mentions of the definition's targets offer exactly the egresses that its whole list compiles to. */
  ghost predicate MentionsAgree(def: ServiceInterface) {
    forall name, end :: LastMentionOffers(def, name, end) <==>
      name in Egresses(def.port, def.targets) && Egresses(def.port, def.targets)[name] == end
  }

  /** A last mention and the bound target under its key give the same egress at the same port. */
  lemma BoundLike(b: Binding, def: ServiceInterface, t: Target)
    requires UpToDate(b, def) && IsLastMention(def, t)
    ensures TargetKey(def.address, t.name) in b.targets
    ensures var u := AsTarget(b.targets[TargetKey(def.address, t.name)]);
      u.name == t.name && u.selector == t.selector && PortOf(b.publicPort, u) == PortOf(def.port, t)
  {
    var k := TargetKey(def.address, t.name);
    assert k in DefinitionView(def).targets;
    assert k in ViewOf(b).targets && ViewOf(b).targets[k] == DefinitionView(def).targets[k];
  }

  lemma DefinedLike(b: Binding, def: ServiceInterface, k: string) returns (t: Target)
    requires UpToDate(b, def) && k in b.targets
    ensures IsLastMention(def, t) && TargetKey(def.address, t.name) == k
  {
    LastTargetExists(def, def.targets, k);
    t := LastTarget(def.address, def.targets, k).value;
  }

  lemma BoundMentions(b: Binding, def: ServiceInterface, name: string, end: HostPort)
    requires UpToDate(b, def)
    ensures BoundOffers(b, name, end) <==> LastMentionOffers(def, name, end)
  {
    if BoundOffers(b, name, end) {
      var k :| k in b.targets && TargetOffers(b.publicPort, AsTarget(b.targets[k]), name, end);
      var t := DefinedLike(b, def, k);
      BoundLike(b, def, t);
    }
    if LastMentionOffers(def, name, end) {
      var t :| IsLastMention(def, t) && TargetOffers(def.port, t, name, end);
      BoundLike(b, def, t);
    }
  }

  /**
   * For a binding that is up to date, the condition speaks of the definition alone: of the last mentions of its
   * targets.
   */
  lemma RoutesAgree(b: Binding, def: ServiceInterface, siteId: string)
    requires UpToDate(b, def)
    ensures
      (forall order | Enumerates(order, b.targets.Keys) ::
         ProxyBridges(Presented(b, order), siteId) == ProxyBridges(def, siteId))
      <==> (def.origin == "" && KnownProtocol(def.protocol) ==> MentionsAgree(def))
  {
    assert ViewOf(b) == DefinitionView(def);
    RoutesAgreeExactly(b, def, siteId);
    forall name, end ensures BoundOffers(b, name, end) <==> LastMentionOffers(def, name, end) {
      BoundMentions(b, def, name, end);
    }
  }

  lemma UniqueOffers(def: ServiceInterface, name: string, end: HostPort)
    requires UniqueNames(def.targets)
    ensures LastMentionOffers(def, name, end) <==> Offers(def.port, def.targets, name, end)
  {
    forall t | t in def.targets ensures IsLastMention(def, t) {
      var i :| 0 <= i < |def.targets| && def.targets[i] == t;
      UniqueMention(def.address, def.targets, i);
    }
    if Offers(def.port, def.targets, name, end) {
      var t :| t in def.targets && TargetOffers(def.port, t, name, end);
      assert IsLastMention(def, t);
    }
  }

  /** For unique target names, that is so exactly when no two targets want the same egress at different ports. */
  lemma UniqueMentionsAgree(def: ServiceInterface)
    requires UniqueNames(def.targets)
    ensures MentionsAgree(def) <==> PortsAgree(def.port, def.targets)
  {
    var e := Egresses(def.port, def.targets);
    if PortsAgree(def.port, def.targets) {
      forall name, end ensures LastMentionOffers(def, name, end) <==> name in e && e[name] == end {
        UniqueOffers(def, name, end);
        EgressesExact(def.port, def.targets, name);
        if name in e { OfferedAtOnePort(def, name); }
      }
    } else {
      var t, u :| t in def.targets && u in def.targets && EgressHost(t).Some? && EgressHost(t) == EgressHost(u) &&
        PortOf(def.port, t) != PortOf(def.port, u);
      var name := EgressName(EgressHost(t).value);
      UniqueOffers(def, name, HostPort(EgressHost(t).value, PortOf(def.port, t)));
      UniqueOffers(def, name, HostPort(EgressHost(u).value, PortOf(def.port, u)));
    }
  }

  lemma OfferedAtOnePort(def: ServiceInterface, name: string)
    requires PortsAgree(def.port, def.targets) && name in Egresses(def.port, def.targets)
    ensures Offers(def.port, def.targets, name, Egresses(def.port, def.targets)[name])
    ensures forall end :: Offers(def.port, def.targets, name, end) ==> end == Egresses(def.port, def.targets)[name]
  {
    EgressOffered(def.port, def.targets, name);
    var t :| t in def.targets && Gives(t, name) &&
      Egresses(def.port, def.targets)[name] == HostPort(EgressHost(t).value, PortOf(def.port, t));
    forall u | u in def.targets && Gives(u, name) ensures EgressHost(u) == EgressHost(t) { NameGivesHost(t, u, name); }
  }
}
