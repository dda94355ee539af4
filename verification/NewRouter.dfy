/** The configuration that a new router starts with. */
module NewRouters {
  import opened ServiceTypes
  import opened RouterConfigs
  import opened Connectors

  datatype Console = NoConsole | InternalConsole | UnsecuredConsole

  function SiteListener(name: string, role: string, host: string, port: int, profile: string): Listener {
    Listener(name, role, host, port, false, false, 0, profile,
             if profile == "" then "" else "EXTERNAL", profile != "", 0, "",
             false, false, false)
  }

  const HEALTH :=
    Listener("", "normal", "0.0.0.0", 9090, false, true, 0, "", "", false, 0, "disabled", false, true, true)

  function ConsoleListener(authenticate: bool): Listener {
    Listener("console", "", "0.0.0.0", 8080, false, true, 0, "", "", authenticate, 0, "", false, false, false)
  }

  function CommonEdits(): seq<Edit> {
    [Edit.AddAddress(Address("mc", "multicast")),
     Edit.AddListener(HEALTH),
     Edit.AddListener(SiteListener("amqp", "", "localhost", 5672, "")),
     Edit.AddSslProfile(SslProfile("skupper-amqps", "", "", "")),
     Edit.AddListener(SiteListener("amqps", "", "0.0.0.0", 5671, "skupper-amqps"))]
  }

  function ConsoleEdits(console: Console): seq<Edit> {
    match console
    case NoConsole => []
    case InternalConsole => [Edit.AddListener(ConsoleListener(true))]
    case UnsecuredConsole => [Edit.AddListener(ConsoleListener(false))]
  }

  function InteriorEdits(): seq<Edit> {
    [Edit.AddSslProfile(SslProfile("skupper-internal", "", "", "")),
     Edit.AddListener(SiteListener("interior-listener", ROLE_INTER_ROUTER, "0.0.0.0", 55671, "skupper-internal")),
     Edit.AddListener(SiteListener("edge-listener", ROLE_EDGE, "0.0.0.0", 45671, "skupper-internal"))]
  }

  function NewRouterEdits(edge: bool, console: Console): seq<Edit> {
    CommonEdits() + ConsoleEdits(console) + if edge then [] else InteriorEdits()
  }

  function NewRouter(id: string, siteId: string, edge: bool, console: Console): Config {
    EditedAll(InitialConfig(id, siteId, edge), NewRouterEdits(edge, console))
  }

  /** Edits that add no connector and no profile with a connector's kind of name. */
  ghost predicate NotConnecting(es: seq<Edit>) {
    forall e :: e in es ==>
      !e.AddConnector? && !e.AddConnSslProfile? && (e.AddSslProfile? ==> !IsProfileName(e.profile.name))
  }

  lemma {:induction false} StaysUnconnected(c: Config, es: seq<Edit>)
    requires Unconnected(c) && NotConnecting(es)
    ensures Unconnected(EditedAll(c, es)) && EditedAll(c, es).metadata == c.metadata
  {
    if es != [] {
      StaysUnconnected(c, es[..|es| - 1]);
      assert es[|es| - 1] in es;
    }
  }

  lemma NewRouterNotConnecting(edge: bool, console: Console)
    ensures NotConnecting(NewRouterEdits(edge, console))
  {
  }

  lemma InitialUnconnected(c: Config, dirs: set<string>)
    requires Keyed(c) && Unconnected(c)
    ensures Sound(Store(dirs, Some(c)), c)
  {
  }

  /** A new router's file is a sound start for any session, in either mode. */
  lemma NewRouterSound(id: string, siteId: string, edge: bool, console: Console, dirs: set<string>, es: seq<Element>)
    requires Encodes(es, NewRouter(id, siteId, edge, console))
    ensures var c := NewRouter(id, siteId, edge, console);
      && Unconnected(c) && Sound(Store(dirs, Decode(es)), c)
      && c.metadata == RouterMetadata(id, if edge then "edge" else "interior", siteId)
  {
    var initial, edits := InitialConfig(id, siteId, edge), NewRouterEdits(edge, console);
    NewRouterNotConnecting(edge, console);
    SoundStart(initial, edits, dirs, es);
  }

  /** What a listener of the site's own has beside its name, role, host, port and profile. */
  ghost predicate PlainListener(l: Listener) {
    !l.routeContainer && l.cost == 0 && l.linkCapacity == 0 && !l.websockets
  }

  /** A listener for the given host and port, with mutual TLS if it has a profile. */
  ghost predicate ListensAt(l: Listener, name: string, role: string, host: string, port: int, profile: string) {
    && PlainListener(l) && l.name == name && l.role == role && l.host == host && l.port == port
    && l.sslProfile == profile && l.authenticatePeer == (profile != "")
    && l.saslMechanisms == (if profile == "" then "" else "EXTERNAL")
    && !l.http && l.httpRootDir == "" && !l.healthz && !l.metrics
  }

  ghost predicate CommonListeners(ls: map<string, Listener>) {
    && "amqp" in ls && ListensAt(ls["amqp"], "amqp", "", "localhost", 5672, "")
    && "amqps" in ls && ListensAt(ls["amqps"], "amqps", "", "0.0.0.0", 5671, "skupper-amqps")
    && "0.0.0.0@9090" in ls
    && var l := ls["0.0.0.0@9090"];
       && PlainListener(l) && l.name == "0.0.0.0@9090" && l.role == "normal" && l.host == "0.0.0.0" && l.port == 9090
       && l.http && l.httpRootDir == "disabled" && l.healthz && l.metrics
       && l.sslProfile == "" && l.saslMechanisms == "" && !l.authenticatePeer
  }

  /** A console listens unless there is none, and asks for a password if it is the internal one. */
  ghost predicate ConsoleListens(ls: map<string, Listener>, console: Console) {
    && ("console" in ls <==> !console.NoConsole?)
    && ("console" in ls ==>
          var l := ls["console"];
          && PlainListener(l) && l.name == "console" && l.role == "" && l.host == "0.0.0.0" && l.port == 8080
          && l.http && l.httpRootDir == "" && !l.healthz && !l.metrics
          && l.sslProfile == "" && l.saslMechanisms == "" && l.authenticatePeer == console.InternalConsole?)
  }

  ghost predicate InteriorListeners(ls: map<string, Listener>) {
    && "interior-listener" in ls
    && ListensAt(ls["interior-listener"], "interior-listener", "inter-router", "0.0.0.0", 55671, "skupper-internal")
    && "edge-listener" in ls
    && ListensAt(ls["edge-listener"], "edge-listener", "edge", "0.0.0.0", 45671, "skupper-internal")
  }

  ghost predicate SiteFiles(p: SslProfile, name: string) {
    var dir := "/etc/qpid-dispatch-certs/" + name;
    p == SslProfile(name, dir + "/tls.crt", dir + "/tls.key", dir + "/ca.crt")
  }

  lemma HealthName()
    ensures Itoa(9090) == "9090"
  {
    assert Decimal(9) == "9";
    assert Decimal(90) == Decimal(9) + "0";
    assert Decimal(909) == Decimal(90) + "9";
    assert Decimal(9090) == Decimal(909) + "0" == "9090";
  }

  lemma {:induction false} EditedOnward(c: Config, es: seq<Edit>, more: seq<Edit>)
    ensures EditedAll(c, es + more) == EditedAll(EditedAll(c, es), more)
  {
    if more == [] {
      assert es + more == es;
    } else {
      var k := |more| - 1;
      EditedOnward(c, es, more[..k]);
      assert (es + more)[..|es + more| - 1] == es + more[..k];
    }
  }

  lemma EditedOne(c: Config, e: Edit)
    ensures EditedAll(c, [e]) == Edited(c, e)
  {
    assert [e][..0] == [];
    assert EditedAll(c, [e][..0]) == c;
  }

  lemma EditedThree(c: Config, a: Edit, b: Edit, d: Edit)
    ensures EditedAll(c, [a, b, d]) == Edited(Edited(Edited(c, a), b), d)
  {
    EditedOnward(c, [a], [b, d]);
    EditedOnward(Edited(c, a), [b], [d]);
    assert [a, b, d] == [a] + [b, d] && [b, d] == [b] + [d];
    EditedOne(c, a);
    EditedOne(Edited(c, a), b);
    EditedOne(Edited(Edited(c, a), b), d);
  }

  /** The configuration has these listeners and profiles, and nothing else but what `c` has. */
  ghost predicate Listens(c: Config, d: Config, listeners: set<string>, profiles: set<string>) {
    && d == c.(addresses := d.addresses, listeners := d.listeners, sslProfiles := d.sslProfiles)
    && d.addresses == map["mc" := Address("mc", "multicast")]
    && d.listeners.Keys == listeners && d.sslProfiles.Keys == profiles
    && forall n :: n in d.sslProfiles ==> SiteFiles(d.sslProfiles[n], n)
  }

  lemma AmqpExact(c: Config)
    requires c == EMPTY_CONFIG.(metadata := c.metadata)
    ensures var es := CommonEdits();
      var d := Edited(Edited(Edited(c, es[0]), es[1]), es[2]);
      && d == c.(addresses := map["mc" := Address("mc", "multicast")], listeners := d.listeners)
      && d.listeners == map["0.0.0.0@9090" := HEALTH.(name := "0.0.0.0@9090"),
                            "amqp" := SiteListener("amqp", "", "localhost", 5672, "")]
  {
    HealthName();
    assert NamedListener(HEALTH).name == "0.0.0.0@9090";
  }

  lemma AmqpsExact(c: Config, d: Config)
    requires c == EMPTY_CONFIG.(metadata := c.metadata)
    requires d == c.(addresses := map["mc" := Address("mc", "multicast")], listeners := d.listeners)
    requires d.listeners == map["0.0.0.0@9090" := HEALTH.(name := "0.0.0.0@9090"),
                                "amqp" := SiteListener("amqp", "", "localhost", 5672, "")]
    ensures var es := CommonEdits();
      var e := Edited(Edited(d, es[3]), es[4]);
      Listens(c, e, {"0.0.0.0@9090", "amqp", "amqps"}, {"skupper-amqps"}) && CommonListeners(e.listeners)
  {
    var es := CommonEdits();
    var e := Edited(Edited(d, es[3]), es[4]);
    assert e.listeners == d.listeners["amqps" := SiteListener("amqps", "", "0.0.0.0", 5671, "skupper-amqps")];
    assert SiteFiles(e.sslProfiles["skupper-amqps"], "skupper-amqps");
  }

  lemma CommonExact(c: Config)
    requires c == EMPTY_CONFIG.(metadata := c.metadata)
    ensures var d := EditedAll(c, CommonEdits());
      Listens(c, d, {"0.0.0.0@9090", "amqp", "amqps"}, {"skupper-amqps"}) && CommonListeners(d.listeners)
  {
    var es := CommonEdits();
    assert es == [es[0], es[1], es[2]] + ([es[3]] + [es[4]]);
    EditedOnward(c, [es[0], es[1], es[2]], [es[3]] + [es[4]]);
    EditedThree(c, es[0], es[1], es[2]);
    var d := EditedAll(c, [es[0], es[1], es[2]]);
    EditedOnward(d, [es[3]], [es[4]]);
    EditedOne(d, es[3]);
    EditedOne(Edited(d, es[3]), es[4]);
    AmqpExact(c);
    AmqpsExact(c, d);
  }

  lemma ConsoleExact(c: Config, console: Console)
    requires "console" !in c.listeners
    ensures var d := EditedAll(c, ConsoleEdits(console));
      && d == c.(listeners := d.listeners) && ConsoleListens(d.listeners, console)
      && d.listeners.Keys == c.listeners.Keys + (if console.NoConsole? then {} else {"console"})
      && forall n :: n in c.listeners ==> n in d.listeners && d.listeners[n] == c.listeners[n]
  {
    match console
    case NoConsole =>
    case InternalConsole => EditedOne(c, Edit.AddListener(ConsoleListener(true)));
    case UnsecuredConsole => EditedOne(c, Edit.AddListener(ConsoleListener(false)));
  }

  lemma InteriorExact(c: Config, d: Config, listeners: set<string>, console: Console)
    requires Listens(c, d, listeners, {"skupper-amqps"}) && CommonListeners(d.listeners)
    requires ConsoleListens(d.listeners, console)
    requires "interior-listener" !in listeners && "edge-listener" !in listeners
    ensures var e := EditedAll(d, InteriorEdits());
      && Listens(c, e, listeners + {"interior-listener", "edge-listener"}, {"skupper-amqps", "skupper-internal"})
      && InteriorListeners(e.listeners)
      && CommonListeners(e.listeners) && ConsoleListens(e.listeners, console)
  {
    var es := InteriorEdits();
    assert es == [es[0], es[1], es[2]];
    EditedThree(d, es[0], es[1], es[2]);
    var e := EditedAll(d, es);
    assert e.sslProfiles == d.sslProfiles["skupper-internal" := e.sslProfiles["skupper-internal"]];
    assert SiteFiles(e.sslProfiles["skupper-internal"], "skupper-internal");
    assert e.listeners == d.listeners["interior-listener" := e.listeners["interior-listener"]]
      ["edge-listener" := e.listeners["edge-listener"]];
  }

  function ListenerNames(edge: bool, console: Console): set<string> {
    {"0.0.0.0@9090", "amqp", "amqps"} + (if console.NoConsole? then {} else {"console"}) +
    (if edge then {} else {"interior-listener", "edge-listener"})
  }

  /**
   * What the decoded file of a new router says, listener by listener; only an interior router accepts other routers.
   */
  lemma NewRouterExact(id: string, siteId: string, edge: bool, console: Console, es: seq<Element>)
    requires Encodes(es, NewRouter(id, siteId, edge, console))
    ensures Decode(es).Some?
    ensures var c := Decode(es).value;
      && c.metadata == RouterMetadata(id, if edge then "edge" else "interior", siteId)
      && c.addresses == map["mc" := Address("mc", "multicast")]
      && c.connectors == map[] && c.bridges == Bridges(map[], map[], map[], map[])
      && c.listeners.Keys == ListenerNames(edge, console)
      && CommonListeners(c.listeners) && ConsoleListens(c.listeners, console)
      && (!edge ==> InteriorListeners(c.listeners))
      && c.sslProfiles.Keys == (if edge then {"skupper-amqps"} else {"skupper-amqps", "skupper-internal"})
      && forall n :: n in c.sslProfiles ==> SiteFiles(c.sslProfiles[n], n)
  {
    NewRouterDecoded(id, siteId, edge, console, es);
    var c0 := InitialConfig(id, siteId, edge);
    CommonExact(c0);
    var c1 := EditedAll(c0, CommonEdits());
    ConsoleAdded(c0, c1, console);
    if !edge { InteriorExact(c0, EditedAll(c1, ConsoleEdits(console)), ListenerNames(true, console), console); }
  }

  lemma ConsoleAdded(c: Config, d: Config, console: Console)
    requires Listens(c, d, {"0.0.0.0@9090", "amqp", "amqps"}, {"skupper-amqps"}) && CommonListeners(d.listeners)
    ensures var e := EditedAll(d, ConsoleEdits(console));
      && Listens(c, e, ListenerNames(true, console), {"skupper-amqps"})
      && CommonListeners(e.listeners) && ConsoleListens(e.listeners, console)
  {
    ConsoleExact(d, console);
  }

  lemma NewRouterDecoded(id: string, siteId: string, edge: bool, console: Console, es: seq<Element>)
    requires Encodes(es, NewRouter(id, siteId, edge, console))
    ensures var c := EditedAll(EditedAll(InitialConfig(id, siteId, edge), CommonEdits()), ConsoleEdits(console));
      Decode(es) == Some(if edge then c else EditedAll(c, InteriorEdits()))
  {
    var c0, rest := InitialConfig(id, siteId, edge), if edge then [] else InteriorEdits();
    EditsKeyed(c0, NewRouterEdits(edge, console));
    RoundTrip(NewRouter(id, siteId, edge, console), es);
    EditedOnward(c0, CommonEdits() + ConsoleEdits(console), rest);
    EditedOnward(c0, CommonEdits(), ConsoleEdits(console));
  }

  lemma SoundStart(initial: Config, edits: seq<Edit>, dirs: set<string>, es: seq<Element>)
    requires Keyed(initial) && Unconnected(initial) && NotConnecting(edits) && Encodes(es, EditedAll(initial, edits))
    ensures var c := EditedAll(initial, edits);
      Unconnected(c) && c.metadata == initial.metadata && Sound(Store(dirs, Decode(es)), c)
  {
    StaysUnconnected(initial, edits);
    EditsKeyed(initial, edits);
    RoundTrip(EditedAll(initial, edits), es);
    InitialUnconnected(EditedAll(initial, edits), dirs);
  }
}
