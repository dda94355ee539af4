/** The router configuration: its builder, its printer to a list of typed tuples, and its parser. */
module RouterConfigs {
  import opened ServiceTypes

  datatype RouterMetadata = RouterMetadata(id: string, mode: string, metadata: string)

  datatype SslProfile = SslProfile(name: string, certFile: string, privateKeyFile: string, caCertFile: string)

  datatype Listener = Listener(
    name: string, role: string, host: string, port: int, routeContainer: bool, http: bool, cost: int,
    sslProfile: string,
    saslMechanisms: string, authenticatePeer: bool, linkCapacity: int, httpRootDir: string, websockets: bool,
    healthz: bool, metrics: bool)

  datatype Connector = Connector(
    name: string, role: string, host: string, port: string, routeContainer: bool, cost: int, verifyHostname: bool,
    sslProfile: string, linkCapacity: int)

  datatype Address = Address(prefix: string, distribution: string)

  datatype TcpEndpoint = TcpEndpoint(name: string, host: string, port: string, address: string, siteId: string)

  datatype HttpEndpoint = HttpEndpoint(
    name: string, host: string, port: string, address: string, siteId: string, protocolVersion: string,
    aggregation: string, eventChannel: bool, hostOverride: string)

  datatype Bridges = Bridges(
    tcpListeners: map<string, TcpEndpoint>,
    tcpConnectors: map<string, TcpEndpoint>,
    httpListeners: map<string, HttpEndpoint>,
    httpConnectors: map<string, HttpEndpoint>)

  datatype Config = Config(
    metadata: RouterMetadata,
    sslProfiles: map<string, SslProfile>,
    listeners: map<string, Listener>,
    connectors: map<string, Connector>,
    addresses: map<string, Address>,
    bridges: Bridges)

  const MODE_EDGE := "edge"
  const MODE_INTERIOR := "interior"
  const ROLE_EDGE := "edge"
  const ROLE_INTER_ROUTER := "inter-router"

  const NO_BRIDGES := Bridges(map[], map[], map[], map[])
  const NO_METADATA := RouterMetadata("", "", "")
  const EMPTY_CONFIG := Config(NO_METADATA, map[], map[], map[], map[], NO_BRIDGES)

  function InitialConfig(id: string, metadata: string, edge: bool): Config {
    EMPTY_CONFIG.(metadata := RouterMetadata(id, if edge then MODE_EDGE else MODE_INTERIOR, metadata))
  }

  predicate IsEdge(c: Config) {
    c.metadata.mode == MODE_EDGE
  }

  /** Every map files its elements under their own name or prefix. */
  ghost predicate Keyed(c: Config) {
    && (forall k :: k in c.sslProfiles ==> c.sslProfiles[k].name == k)
    && (forall k :: k in c.listeners ==> c.listeners[k].name == k)
    && (forall k :: k in c.connectors ==> c.connectors[k].name == k)
    && (forall k :: k in c.addresses ==> c.addresses[k].prefix == k)
    && BridgesKeyed(c.bridges)
  }

  ghost predicate BridgesKeyed(b: Bridges) {
    && (forall k :: k in b.tcpListeners ==> b.tcpListeners[k].name == k)
    && (forall k :: k in b.tcpConnectors ==> b.tcpConnectors[k].name == k)
    && (forall k :: k in b.httpListeners ==> b.httpListeners[k].name == k)
    && (forall k :: k in b.httpConnectors ==> b.httpConnectors[k].name == k)
  }

  // ---------------------------------------------------------------- decimal numerals

  function Digit(d: int): char
    requires 0 <= d < 10
  {
    "0123456789"[d]
  }

  function Decimal(n: nat): string {
    if n < 10 then [Digit(n)] else Decimal(n / 10) + [Digit(n % 10)]
  }

  function Itoa(n: int): string {
    if n < 0 then "-" + Decimal(-n) else Decimal(n)
  }

  lemma {:induction false} DecimalInjective(m: nat, n: nat)
    requires Decimal(m) == Decimal(n)
    ensures m == n
  {
    var s, t := Decimal(m), Decimal(n);
    assert s[|s| - 1] == Digit(m % 10) && t[|t| - 1] == Digit(n % 10);
    assert |Decimal(m / 10)| >= 1 && |Decimal(n / 10)| >= 1 by { DecimalNonempty(m / 10); DecimalNonempty(n / 10); }
    if m >= 10 && n >= 10 {
      assert s[..|s| - 1] == Decimal(m / 10) && t[..|t| - 1] == Decimal(n / 10);
      DecimalInjective(m / 10, n / 10);
    }
  }

  lemma DecimalNonempty(n: nat)
    ensures |Decimal(n)| >= 1 && '0' <= Decimal(n)[0] <= '9'
  {
  }

  /** The number that a string of digits stands for. */
  ghost function Numeral(s: string): int {
    if s == "" then 0 else 10 * Numeral(s[..|s| - 1]) + (s[|s| - 1] as int - '0' as int)
  }

  /** A printed number is its decimal numeral, without leading zeros. */
  lemma {:induction false} DecimalMeans(n: nat)
    ensures var s := Decimal(n);
      && Numeral(s) == n && s != "" && (forall i :: 0 <= i < |s| ==> '0' <= s[i] <= '9') && (n >= 10 ==> s[0] != '0')
      && (|s| == 1 <==> n < 10) && (n > 0 ==> s[0] != '0')
  {
    if n >= 10 {
      DecimalMeans(n / 10);
      var s := Decimal(n);
      assert s[..|s| - 1] == Decimal(n / 10);
    } else {
      assert Decimal(n)[..0] == "";
    }
  }

  lemma ItoaMeans(n: int)
    ensures if n < 0 then Itoa(n) != "" && Itoa(n)[0] == '-' && Numeral(Itoa(n)[1..]) == -n else Numeral(Itoa(n)) == n
  {
    DecimalMeans(if n < 0 then -n else n);
    if n < 0 { assert Itoa(n)[1..] == Decimal(-n); }
  }

  /** Different numbers have different numerals. */
  lemma ItoaInjective(m: int, n: int)
    requires Itoa(m) == Itoa(n)
    ensures m == n
  {
    var a, b := if m < 0 then -m else m, if n < 0 then -n else n;
    DecimalNonempty(a);
    DecimalNonempty(b);
    assert Itoa(m)[0] == Itoa(n)[0];
    assert (m < 0 ==> Itoa(m)[1..] == Decimal(a)) && (n < 0 ==> Itoa(n)[1..] == Decimal(b));
    DecimalInjective(a, b);
  }

  // ---------------------------------------------------------------- the builder

  function NamedListener(l: Listener): Listener {
    if l.name == "" then l.(name := l.host + "@" + Itoa(l.port)) else l
  }

  function TrimSuffix(s: string, suffix: string): string {
    if |s| >= |suffix| && s[|s| - |suffix|..] == suffix then s[..|s| - |suffix|] else s
  }

  /** The certificate files default to those of the directory `dir`. */
  function WithCertFiles(s: SslProfile, dir: string): SslProfile {
    if s.certFile == "" && s.caCertFile == "" && s.privateKeyFile == "" then
      SslProfile(s.name, dir + "/tls.crt", dir + "/tls.key", dir + "/ca.crt")
    else s
  }

  function SiteProfile(s: SslProfile): SslProfile {
    WithCertFiles(s, "/etc/qpid-dispatch-certs/" + s.name)
  }

  function ConnectionProfile(s: SslProfile): SslProfile {
    WithCertFiles(s, "/etc/qpid-dispatch/connections/" + TrimSuffix(s.name, "-profile"))
  }

  function ProfileName(connector: string): string {
    connector + "-profile"
  }

  datatype Edit =
    | AddListener(listener: Listener)
    | AddConnector(connector: Connector)
    | RemoveConnector(name: string)
    | AddSslProfile(profile: SslProfile)
    | AddConnSslProfile(profile: SslProfile)
    | RemoveConnSslProfile(name: string)
    | AddAddress(address: Address)
    | AddTcpConnector(tcp: TcpEndpoint)
    | AddTcpListener(tcp: TcpEndpoint)
    | AddHttpConnector(http: HttpEndpoint)
    | AddHttpListener(http: HttpEndpoint)

  function Edited(c: Config, e: Edit): Config {
    match e
    case AddListener(l) => c.(listeners := c.listeners[NamedListener(l).name := NamedListener(l)])
    case AddConnector(x) => c.(connectors := c.connectors[x.name := x])
    case RemoveConnector(name) => c.(connectors := c.connectors - {name})
    case AddSslProfile(s) => c.(sslProfiles := c.sslProfiles[s.name := SiteProfile(s)])
    case AddConnSslProfile(s) => c.(sslProfiles := c.sslProfiles[s.name := ConnectionProfile(s)])
    case RemoveConnSslProfile(name) => c.(sslProfiles := c.sslProfiles - {ProfileName(name)})
    case AddAddress(a) => c.(addresses := c.addresses[a.prefix := a])
    case AddTcpConnector(t) => c.(bridges := c.bridges.(tcpConnectors := c.bridges.tcpConnectors[t.name := t]))
    case AddTcpListener(t) => c.(bridges := c.bridges.(tcpListeners := c.bridges.tcpListeners[t.name := t]))
    case AddHttpConnector(h) => c.(bridges := c.bridges.(httpConnectors := c.bridges.httpConnectors[h.name := h]))
    case AddHttpListener(h) => c.(bridges := c.bridges.(httpListeners := c.bridges.httpListeners[h.name := h]))
  }

  function EditedAll(c: Config, es: seq<Edit>): Config {
    if es == [] then c else Edited(EditedAll(c, es[..|es| - 1]), es[|es| - 1])
  }

  lemma EditKeyed(c: Config, e: Edit)
    requires Keyed(c)
    ensures Keyed(Edited(c, e))
  {
  }

  lemma {:induction false} EditsKeyed(c: Config, es: seq<Edit>)
    requires Keyed(c)
    ensures Keyed(EditedAll(c, es))
  {
    if es != [] {
      EditsKeyed(c, es[..|es| - 1]);
      EditKeyed(EditedAll(c, es[..|es| - 1]), es[|es| - 1]);
    }
  }

  // ---------------------------------------------------------------- the codec

  /**
   * An item of the decoded JSON list. A tuple of a known type whose value does not fit it, and an item that is not a
   * tuple with a type name, are malformed; a tuple of another type is unknown.
   */
  datatype Element =
    | RouterElement(metadata: RouterMetadata)
    | SslProfileElement(profile: SslProfile)
    | ConnectorElement(connector: Connector)
    | ListenerElement(listener: Listener)
    | AddressElement(address: Address)
    | TcpConnectorElement(tcp: TcpEndpoint)
    | TcpListenerElement(tcp: TcpEndpoint)
    | HttpConnectorElement(http: HttpEndpoint)
    | HttpListenerElement(http: HttpEndpoint)
    | UnknownElement(entityType: string)
    | MalformedElement

  function Insert(c: Config, e: Element): Config {
    match e
    case RouterElement(m) => c.(metadata := m)
    case SslProfileElement(s) => c.(sslProfiles := c.sslProfiles[s.name := s])
    case ConnectorElement(x) => c.(connectors := c.connectors[x.name := x])
    case ListenerElement(l) => c.(listeners := c.listeners[l.name := l])
    case AddressElement(a) => c.(addresses := c.addresses[a.prefix := a])
    case TcpConnectorElement(t) => c.(bridges := c.bridges.(tcpConnectors := c.bridges.tcpConnectors[t.name := t]))
    case TcpListenerElement(t) => c.(bridges := c.bridges.(tcpListeners := c.bridges.tcpListeners[t.name := t]))
    case HttpConnectorElement(h) => c.(bridges := c.bridges.(httpConnectors := c.bridges.httpConnectors[h.name := h]))
    case HttpListenerElement(h) => c.(bridges := c.bridges.(httpListeners := c.bridges.httpListeners[h.name := h]))
    case UnknownElement(_) => c
    case MalformedElement => c
  }

  /** The parser on the decoded list: it fails at the first malformed item. */
  function Decode(es: seq<Element>): Option<Config> {
    if es == [] then Some(EMPTY_CONFIG)
    else
      match Decode(es[..|es| - 1])
      case None => None
      case Some(c) => if es[|es| - 1].MalformedElement? then None else Some(Insert(c, es[|es| - 1]))
  }

  ghost predicate EmitsBridge(b: Bridges, e: Element) {
    match e
    case TcpConnectorElement(t) => t in b.tcpConnectors.Values
    case TcpListenerElement(t) => t in b.tcpListeners.Values
    case HttpConnectorElement(h) => h in b.httpConnectors.Values
    case HttpListenerElement(h) => h in b.httpListeners.Values
    case _ => false
  }

  /** The printer emits `e`: the metadata, or a value of one of the maps. */
  ghost predicate Emits(c: Config, e: Element) {
    match e
    case RouterElement(m) => m == c.metadata
    case SslProfileElement(s) => s in c.sslProfiles.Values
    case ConnectorElement(x) => x in c.connectors.Values
    case ListenerElement(l) => l in c.listeners.Values
    case AddressElement(a) => a in c.addresses.Values
    case _ => EmitsBridge(c.bridges, e)
  }

  /** `es` lists the printer's tuples in some order. */
  ghost predicate Encodes(es: seq<Element>, c: Config) {
    forall e :: e in es <==> Emits(c, e)
  }

  /** Where the parser puts an element. */
  datatype Slot = Nowhere | AtRouter | At(entityType: string, key: string)

  function SlotOf(e: Element): Slot {
    match e
    case RouterElement(_) => AtRouter
    case SslProfileElement(s) => At("sslProfile", s.name)
    case ConnectorElement(x) => At("connector", x.name)
    case ListenerElement(l) => At("listener", l.name)
    case AddressElement(a) => At("address", a.prefix)
    case TcpConnectorElement(t) => At("tcpConnector", t.name)
    case TcpListenerElement(t) => At("tcpListener", t.name)
    case HttpConnectorElement(h) => At("httpConnector", h.name)
    case HttpListenerElement(h) => At("httpListener", h.name)
    case UnknownElement(_) => Nowhere
    case MalformedElement => Nowhere
  }

  /** `e` is what configuration `c` has at `e`'s slot. */
  predicate Holds(c: Config, e: Element) {
    match e
    case RouterElement(m) => c.metadata == m
    case SslProfileElement(s) => s.name in c.sslProfiles && c.sslProfiles[s.name] == s
    case ConnectorElement(x) => x.name in c.connectors && c.connectors[x.name] == x
    case ListenerElement(l) => l.name in c.listeners && c.listeners[l.name] == l
    case AddressElement(a) => a.prefix in c.addresses && c.addresses[a.prefix] == a
    case TcpConnectorElement(t) => t.name in c.bridges.tcpConnectors && c.bridges.tcpConnectors[t.name] == t
    case TcpListenerElement(t) => t.name in c.bridges.tcpListeners && c.bridges.tcpListeners[t.name] == t
    case HttpConnectorElement(h) => h.name in c.bridges.httpConnectors && c.bridges.httpConnectors[h.name] == h
    case HttpListenerElement(h) => h.name in c.bridges.httpListeners && c.bridges.httpListeners[h.name] == h
    case UnknownElement(_) => false
    case MalformedElement => false
  }

  lemma EmitsHeld(c: Config, e: Element)
    requires Keyed(c)
    ensures Emits(c, e) <==> Holds(c, e)
  {
  }

  lemma InsertOther(c: Config, e: Element, t: Element)
    requires SlotOf(e) != SlotOf(t) || SlotOf(e) == Nowhere
    ensures Holds(Insert(c, e), t) <==> Holds(c, t)
  {
  }

  lemma InsertSame(c: Config, e: Element, t: Element)
    requires SlotOf(e) == SlotOf(t) != Nowhere
    ensures Holds(Insert(c, e), t) <==> t == e
  {
  }

  /** An inserted element takes its slot, and every other slot stays. */
  lemma InsertHolds(c: Config, e: Element, t: Element)
    ensures Holds(Insert(c, e), t) <==>
      if SlotOf(e) == Nowhere then Holds(c, t) else t == e || (Holds(c, t) && SlotOf(t) != SlotOf(e))
  {
    if SlotOf(e) == SlotOf(t) != Nowhere { InsertSame(c, e, t); } else { InsertOther(c, e, t); }
  }

  /** What an Add edit puts into the configuration, with the defaults it fills in. */
  function Added(e: Edit): Option<Element> {
    match e
    case AddListener(l) =>
      Some(ListenerElement(if l.name == "" then l.(name := l.host + "@" + Itoa(l.port)) else l))
    case AddConnector(x) => Some(ConnectorElement(x))
    case AddSslProfile(s) =>
      var dir := "/etc/qpid-dispatch-certs/" + s.name;
      Some(SslProfileElement(
        if s.certFile == s.caCertFile == s.privateKeyFile == "" then
          SslProfile(s.name, dir + "/tls.crt", dir + "/tls.key", dir + "/ca.crt") else s))
    case AddConnSslProfile(s) =>
      var cut := |s.name| - |"-profile"|;
      var connection := if cut >= 0 && s.name[cut..] == "-profile" then s.name[..cut] else s.name;
      var dir := "/etc/qpid-dispatch/connections/" + connection;
      Some(SslProfileElement(
        if s.certFile == s.caCertFile == s.privateKeyFile == "" then
          SslProfile(s.name, dir + "/tls.crt", dir + "/tls.key", dir + "/ca.crt") else s))
    case AddAddress(a) => Some(AddressElement(a))
    case AddTcpConnector(t) => Some(TcpConnectorElement(t))
    case AddTcpListener(t) => Some(TcpListenerElement(t))
    case AddHttpConnector(h) => Some(HttpConnectorElement(h))
    case AddHttpListener(h) => Some(HttpListenerElement(h))
    case RemoveConnector(_) => None
    case RemoveConnSslProfile(_) => None
  }

  function ClearedSlot(e: Edit): Slot {
    match e
    case RemoveConnector(name) => At("connector", name)
    case RemoveConnSslProfile(name) => At("sslProfile", name + "-profile")
    case _ => Nowhere
  }

  /** An Add method fills one slot and a Remove method clears one; no other slot changes. */
  lemma EditHolds(c: Config, e: Edit, t: Element)
    ensures Holds(Edited(c, e), t) <==>
      match Added(e)
      case Some(x) => t == x || (Holds(c, t) && SlotOf(t) != SlotOf(x))
      case None => Holds(c, t) && SlotOf(t) != ClearedSlot(e)
  {
    match Added(e)
    case Some(x) =>
      assert Edited(c, e) == Insert(c, x);
      InsertHolds(c, x, t);
    case None =>
  }

  /** `e` is the last item of its slot; with no router item at all, that slot has empty metadata. */
  ghost predicate LastOfSlot(es: seq<Element>, e: Element) {
    if es == [] then e == RouterElement(NO_METADATA)
    else
      var last := es[|es| - 1];
      if SlotOf(last) == Nowhere then LastOfSlot(es[..|es| - 1], e)
      else e == last || (SlotOf(e) != SlotOf(last) && LastOfSlot(es[..|es| - 1], e))
  }

  /** Decoding accepts exactly the lists without malformed items, and keeps exactly the last item of every slot. */
  lemma {:induction false} DecodeKeepsLast(es: seq<Element>)
    ensures Decode(es).Some? <==> MalformedElement !in es
    ensures Decode(es).Some? ==>
      Keyed(Decode(es).value) && forall e :: Holds(Decode(es).value, e) <==> LastOfSlot(es, e)
  {
    if es != [] {
      var init, last := es[..|es| - 1], es[|es| - 1];
      DecodeKeepsLast(init);
      assert es == init + [last];
      if Decode(es).Some? {
        var c := Decode(init).value;
        InsertKeyed(c, last);
        forall e ensures Holds(Insert(c, last), e) <==> LastOfSlot(es, e) { InsertHolds(c, last, e); }
      }
    }
  }

  lemma InsertKeyed(c: Config, e: Element)
    requires Keyed(c)
    ensures Keyed(Insert(c, e))
  {
  }

  lemma SameMap<T>(a: map<string, T>, b: map<string, T>)
    requires forall k :: k in a ==> k in b && b[k] == a[k]
    requires forall k :: k in b ==> k in a
    ensures a == b
  {
  }

  ghost predicate HoldsWithin(c: Config, d: Config) {
    forall e :: Holds(c, e) ==> Holds(d, e)
  }

  lemma WithinMaps(c: Config, d: Config)
    requires Keyed(c) && HoldsWithin(c, d)
    ensures c.metadata == d.metadata
    ensures forall k :: k in c.sslProfiles ==> k in d.sslProfiles && d.sslProfiles[k] == c.sslProfiles[k]
    ensures forall k :: k in c.listeners ==> k in d.listeners && d.listeners[k] == c.listeners[k]
    ensures forall k :: k in c.connectors ==> k in d.connectors && d.connectors[k] == c.connectors[k]
    ensures forall k :: k in c.addresses ==> k in d.addresses && d.addresses[k] == c.addresses[k]
  {
    assert Holds(c, RouterElement(c.metadata));
    forall k | k in c.sslProfiles ensures Holds(d, SslProfileElement(c.sslProfiles[k])) {
      assert Holds(c, SslProfileElement(c.sslProfiles[k]));
    }
    forall k | k in c.listeners ensures Holds(d, ListenerElement(c.listeners[k])) {
      assert Holds(c, ListenerElement(c.listeners[k]));
    }
    forall k | k in c.connectors ensures Holds(d, ConnectorElement(c.connectors[k])) {
      assert Holds(c, ConnectorElement(c.connectors[k]));
    }
    forall k | k in c.addresses ensures Holds(d, AddressElement(c.addresses[k])) {
      assert Holds(c, AddressElement(c.addresses[k]));
    }
  }

  lemma WithinBridges(c: Config, d: Config)
    requires Keyed(c) && HoldsWithin(c, d)
    ensures var a, b := c.bridges, d.bridges;
      && (forall k :: k in a.tcpListeners ==> k in b.tcpListeners && b.tcpListeners[k] == a.tcpListeners[k])
      && (forall k :: k in a.tcpConnectors ==> k in b.tcpConnectors && b.tcpConnectors[k] == a.tcpConnectors[k])
      && (forall k :: k in a.httpListeners ==> k in b.httpListeners && b.httpListeners[k] == a.httpListeners[k])
      && (forall k :: k in a.httpConnectors ==> k in b.httpConnectors && b.httpConnectors[k] == a.httpConnectors[k])
  {
    var a := c.bridges;
    forall k | k in a.tcpListeners ensures Holds(d, TcpListenerElement(a.tcpListeners[k])) {
      assert Holds(c, TcpListenerElement(a.tcpListeners[k]));
    }
    forall k | k in a.tcpConnectors ensures Holds(d, TcpConnectorElement(a.tcpConnectors[k])) {
      assert Holds(c, TcpConnectorElement(a.tcpConnectors[k]));
    }
    forall k | k in a.httpListeners ensures Holds(d, HttpListenerElement(a.httpListeners[k])) {
      assert Holds(c, HttpListenerElement(a.httpListeners[k]));
    }
    forall k | k in a.httpConnectors ensures Holds(d, HttpConnectorElement(a.httpConnectors[k])) {
      assert Holds(c, HttpConnectorElement(a.httpConnectors[k]));
    }
  }

  /** Keyed configurations with the same contents are the same. */
  lemma SameContents(c: Config, d: Config)
    requires Keyed(c) && Keyed(d) && HoldsWithin(c, d) && HoldsWithin(d, c)
    ensures c == d
  {
    WithinMaps(c, d);
    WithinMaps(d, c);
    WithinBridges(c, d);
    WithinBridges(d, c);
    SameMap(c.sslProfiles, d.sslProfiles);
    SameMap(c.listeners, d.listeners);
    SameMap(c.connectors, d.connectors);
    SameMap(c.addresses, d.addresses);
    SameMap(c.bridges.tcpListeners, d.bridges.tcpListeners);
    SameMap(c.bridges.tcpConnectors, d.bridges.tcpConnectors);
    SameMap(c.bridges.httpListeners, d.bridges.httpListeners);
    SameMap(c.bridges.httpConnectors, d.bridges.httpConnectors);
  }

  lemma HoldsFunctional(c: Config, e: Element, f: Element)
    requires Holds(c, e) && Holds(c, f) && SlotOf(e) == SlotOf(f)
    ensures e == f
  {
  }

  lemma {:induction false} LastOfSlotInOrder(es: seq<Element>, c: Config, e: Element)
    requires forall x :: x in es ==> Holds(c, x)
    ensures e in es ==> LastOfSlot(es, e)
    ensures LastOfSlot(es, e) ==>
      e in es || (e == RouterElement(NO_METADATA) && forall x :: x in es ==> !x.RouterElement?)
  {
    if es != [] {
      var init, last := es[..|es| - 1], es[|es| - 1];
      assert es == init + [last];
      LastOfSlotInOrder(init, c, e);
      assert Holds(c, last);
      if e in init && SlotOf(e) == SlotOf(last) { HoldsFunctional(c, e, last); }
    }
  }

  /** Whatever order the tuples of a keyed configuration are printed in, and even repeated, parsing gives it back. */
  lemma RoundTrip(c: Config, es: seq<Element>)
    requires Keyed(c) && Encodes(es, c)
    ensures Decode(es) == Some(c)
  {
    forall e ensures e in es <==> Holds(c, e) { EmitsHeld(c, e); }
    assert !Holds(c, MalformedElement);
    DecodeKeepsLast(es);
    var d := Decode(es).value;
    assert RouterElement(c.metadata) in es;
    forall e ensures Holds(d, e) <==> Holds(c, e) { LastOfSlotInOrder(es, c, e); }
    SameContents(c, d);
  }

  /** Every configuration built from an initial one by the Add and Remove methods survives printing and parsing. */
  lemma BuiltRoundTrip(id: string, metadata: string, edge: bool, edits: seq<Edit>, es: seq<Element>)
    requires Encodes(es, EditedAll(InitialConfig(id, metadata, edge), edits))
    ensures Decode(es) == Some(EditedAll(InitialConfig(id, metadata, edge), edits))
  {
    EditsKeyed(InitialConfig(id, metadata, edge), edits);
    RoundTrip(EditedAll(InitialConfig(id, metadata, edge), edits), es);
  }

  /** Printing what was parsed and parsing it again changes nothing. */
  lemma DecodeIdempotent(es: seq<Element>, again: seq<Element>)
    requires Decode(es).Some? && Encodes(again, Decode(es).value)
    ensures Decode(again) == Decode(es)
    ensures forall e :: e in again <==> LastOfSlot(es, e)
  {
    DecodeKeepsLast(es);
    RoundTrip(Decode(es).value, again);
    forall e ensures e in again <==> LastOfSlot(es, e) { EmitsHeld(Decode(es).value, e); }
  }

  // ---------------------------------------------------------------- the mutable configuration

  class RouterConfig {
    var metadata: RouterMetadata
    var sslProfiles: map<string, SslProfile>
    var listeners: map<string, Listener>
    var connectors: map<string, Connector>
    var addresses: map<string, Address>
    var bridges: Bridges  // a struct held by value

    function Value(): Config
      reads this
    {
      Config(metadata, sslProfiles, listeners, connectors, addresses, bridges)
    }

    constructor Empty()
      ensures Value() == EMPTY_CONFIG
    {
      metadata, bridges := NO_METADATA, NO_BRIDGES;
      sslProfiles, listeners, connectors, addresses := map[], map[], map[], map[];
    }

    constructor Initial(id: string, metadata: string, edge: bool)
      ensures Value() == InitialConfig(id, metadata, edge)
    {
      this.metadata := RouterMetadata(id, if edge then MODE_EDGE else MODE_INTERIOR, metadata);
      bridges := NO_BRIDGES;
      sslProfiles, listeners, connectors, addresses := map[], map[], map[], map[];
    }

    method AddListener(l: Listener)
      modifies this
      ensures Value() == Edited(old(Value()), Edit.AddListener(l))
    {
      var named := l;
      if l.name == "" {
        named := l.(name := l.host + "@" + Itoa(l.port));
      }
      listeners := listeners[named.name := named];
    }

    method AddConnector(c: Connector)
      modifies this
      ensures Value() == Edited(old(Value()), Edit.AddConnector(c))
    {
      connectors := connectors[c.name := c];
    }

    method RemoveConnector(name: string) returns (found: bool)
      modifies this
      ensures found == (name in old(connectors))
      ensures Value() == Edited(old(Value()), Edit.RemoveConnector(name))
    {
      found := name in connectors;
      if found {
        connectors := connectors - {name};
      } else {
        assert connectors - {name} == connectors;
      }
    }

    method AddSslProfile(s: SslProfile)
      modifies this
      ensures Value() == Edited(old(Value()), Edit.AddSslProfile(s))
    {
      sslProfiles := sslProfiles[s.name := WithCertFiles(s, "/etc/qpid-dispatch-certs/" + s.name)];
    }

    method AddConnSslProfile(s: SslProfile)
      modifies this
      ensures Value() == Edited(old(Value()), Edit.AddConnSslProfile(s))
    {
      var dir := TrimSuffix(s.name, "-profile");
      sslProfiles := sslProfiles[s.name := WithCertFiles(s, "/etc/qpid-dispatch/connections/" + dir)];
    }

    method RemoveConnSslProfile(name: string) returns (found: bool)
      modifies this
      ensures found == (ProfileName(name) in old(sslProfiles))
      ensures Value() == Edited(old(Value()), Edit.RemoveConnSslProfile(name))
    {
      var profileName := name + "-profile";
      found := profileName in sslProfiles;
      if found {
        sslProfiles := sslProfiles - {profileName};
      } else {
        assert sslProfiles - {profileName} == sslProfiles;
      }
    }

    method AddAddress(a: Address)
      modifies this
      ensures Value() == Edited(old(Value()), Edit.AddAddress(a))
    {
      addresses := addresses[a.prefix := a];
    }

    method AddTcpConnector(t: TcpEndpoint)
      modifies this
      ensures Value() == Edited(old(Value()), Edit.AddTcpConnector(t))
    {
      bridges := bridges.(tcpConnectors := bridges.tcpConnectors[t.name := t]);
    }

    method AddTcpListener(t: TcpEndpoint)
      modifies this
      ensures Value() == Edited(old(Value()), Edit.AddTcpListener(t))
    {
      bridges := bridges.(tcpListeners := bridges.tcpListeners[t.name := t]);
    }

    method AddHttpConnector(h: HttpEndpoint)
      modifies this
      ensures Value() == Edited(old(Value()), Edit.AddHttpConnector(h))
    {
      bridges := bridges.(httpConnectors := bridges.httpConnectors[h.name := h]);
    }

    method AddHttpListener(h: HttpEndpoint)
      modifies this
      ensures Value() == Edited(old(Value()), Edit.AddHttpListener(h))
    {
      bridges := bridges.(httpListeners := bridges.httpListeners[h.name := h]);
    }

    /** One well-formed item of the list goes to its map; an unknown one is skipped. */
    method Put(e: Element)
      modifies this
      ensures Value() == Insert(old(Value()), e)
    {
      match e {
        case RouterElement(m) => metadata := m;
        case SslProfileElement(s) => sslProfiles := sslProfiles[s.name := s];
        case ConnectorElement(c) => connectors := connectors[c.name := c];
        case ListenerElement(l) => listeners := listeners[l.name := l];
        case AddressElement(a) => addresses := addresses[a.prefix := a];
        case TcpConnectorElement(t) => bridges := bridges.(tcpConnectors := bridges.tcpConnectors[t.name := t]);
        case TcpListenerElement(t) => bridges := bridges.(tcpListeners := bridges.tcpListeners[t.name := t]);
        case HttpConnectorElement(h) => bridges := bridges.(httpConnectors := bridges.httpConnectors[h.name := h]);
        case HttpListenerElement(h) => bridges := bridges.(httpListeners := bridges.httpListeners[h.name := h]);
        case UnknownElement(_) =>
        case MalformedElement =>
      }
    }
  }

  method UnmarshalRouterConfig(es: seq<Element>) returns (ok: bool, result: RouterConfig)
    ensures fresh(result)
    ensures ok == Decode(es).Some?
    ensures ok ==> result.Value() == Decode(es).value
  {
    result := new RouterConfig.Empty();
    for i := 0 to |es|
      invariant Decode(es[..i]) == Some(result.Value())
    {
      assert es[..i + 1][..i] == es[..i];
      if es[i].MalformedElement? {
        DecodeFailsEarly(es, i + 1);
        return false, result;
      }
      result.Put(es[i]);
    }
    assert es[..|es|] == es;
    return true, result;
  }

  lemma {:induction false} DecodeFailsEarly(es: seq<Element>, i: nat)
    requires i <= |es| && Decode(es[..i]).None?
    ensures Decode(es).None?
    decreases |es| - i
  {
    if i < |es| {
      assert es[..i + 1][..i] == es[..i];
      DecodeFailsEarly(es, i + 1);
    } else {
      assert es[..i] == es;
    }
  }

  ghost predicate FromMap<T>(m: map<string, T>, tuple: T -> Element, e: Element) {
    exists k :: k in m && tuple(m[k]) == e
  }

  /** The printer's loop over one map, in whatever order its keys come. */
  method AppendTuples<T>(es: seq<Element>, m: map<string, T>, tuple: T -> Element) returns (more: seq<Element>)
    ensures forall e :: e in more <==> e in es || FromMap(m, tuple, e)
    ensures |more| == |es| + |m|
  {
    more := es;
    var todo := m.Keys;
    while todo != {}
      invariant todo <= m.Keys && |more| + |todo| == |es| + |m.Keys|
      invariant forall e :: e in more <==> e in es || exists k :: k in m && k !in todo && tuple(m[k]) == e
      decreases todo
    {
      var k :| k in todo;
      todo := todo - {k};
      more := more + [tuple(m[k])];
    }
  }

  method AppendBridges(es: seq<Element>, b: Bridges) returns (more: seq<Element>)
    ensures forall e :: e in more <==> e in es || EmitsBridge(b, e)
    ensures |more| ==
      |es| + |b.tcpConnectors| + |b.tcpListeners| + |b.httpConnectors| + |b.httpListeners|
  {
    more := AppendTuples(es, b.tcpConnectors, t => TcpConnectorElement(t));
    more := AppendTuples(more, b.tcpListeners, t => TcpListenerElement(t));
    more := AppendTuples(more, b.httpConnectors, h => HttpConnectorElement(h));
    more := AppendTuples(more, b.httpListeners, h => HttpListenerElement(h));
  }

  /** One tuple for the metadata and one for every map entry. */
  method MarshalRouterConfig(config: Config) returns (es: seq<Element>)
    ensures Encodes(es, config)
    ensures |es| == 1 + |config.sslProfiles| + |config.connectors| + |config.listeners| + |config.addresses| +
      |config.bridges.tcpConnectors| + |config.bridges.tcpListeners| +
      |config.bridges.httpConnectors| + |config.bridges.httpListeners|
  {
    es := [RouterElement(config.metadata)];
    es := AppendTuples(es, config.sslProfiles, s => SslProfileElement(s));
    es := AppendTuples(es, config.connectors, c => ConnectorElement(c));
    es := AppendTuples(es, config.listeners, l => ListenerElement(l));
    es := AppendTuples(es, config.addresses, a => AddressElement(a));
    es := AppendBridges(es, config.bridges);
  }
}
