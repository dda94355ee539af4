/** Creating and removing connectors: edits of the router configuration file, and of the directories of certificates. */
module Connectors {
  import opened ServiceTypes
  import opened RouterConfigs

  // ---------------------------------------------------------------- generated names

  predicate IsDigit(c: char) {
    '0' <= c <= '9'
  }

  function ValueOf(c: char): nat
    requires IsDigit(c)
  {
    (c - '0') as nat
  }

  /** What a repeated one-digit group captures: the last digit of the run that `s` starts with. */
  function LastDigitOfRun(s: string): (d: nat)
    requires s != "" && IsDigit(s[0])
    ensures d <= 9
  {
    if |s| > 1 && IsDigit(s[1]) then LastDigitOfRun(s[1..]) else ValueOf(s[0])
  }

  /** The first match of "conn" followed by digits, and what its group captures. */
  function Captured(s: string): (d: Option<nat>)
    ensures d.Some? ==> d.value <= 9
  {
    if |s| < 5 then None
    else if s[..4] == "conn" && IsDigit(s[4]) then Some(LastDigitOfRun(s[4..]))
    else Captured(s[1..])
  }

  ghost predicate MatchAt(s: string, i: nat) {
    i + 5 <= |s| && s[i..i + 4] == "conn" && IsDigit(s[i + 4])
  }

  /** The run of digits at `i` ends before `j`. */
  ghost predicate RunEnds(s: string, i: nat, j: nat) {
    i < j <= |s| && (forall k :: i <= k < j ==> IsDigit(s[k])) && (j < |s| ==> !IsDigit(s[j]))
  }

  lemma {:induction false} LastDigitMeans(s: string) returns (j: nat)
    requires s != "" && IsDigit(s[0])
    ensures RunEnds(s, 0, j) && LastDigitOfRun(s) == ValueOf(s[j - 1])
  {
    if |s| > 1 && IsDigit(s[1]) {
      var k := LastDigitMeans(s[1..]);
      j := k + 1;
      assert forall m :: 1 <= m < j ==> s[m] == s[1..][m - 1];
    } else {
      j := 1;
    }
  }

  lemma RunShifts(s: string, d: nat, i: nat, j: nat)
    requires d <= |s| && RunEnds(s[d..], i, j)
    ensures RunEnds(s, i + d, j + d) && s[j + d - 1] == s[d..][j - 1]
  {
    assert forall k :: d <= k < |s| ==> s[k] == s[d..][k - d];
  }

  /**
   * The pattern captures nothing exactly where "conn" is never followed by a digit; otherwise it captures the last
   * digit of the run that follows the first such "conn".
   */
  lemma {:induction false} CapturedMeans(s: string) returns (i: nat, j: nat)
    ensures Captured(s).None? <==> forall k :: !MatchAt(s, k)
    ensures Captured(s).Some? ==>
      && MatchAt(s, i) && (forall k :: 0 <= k < i ==> !MatchAt(s, k))
      && RunEnds(s, i + 4, j) && Captured(s).value == ValueOf(s[j - 1])
  {
    i, j := 0, 0;
    if |s| >= 5 {
      assert MatchAt(s, 0) <==> s[..4] == "conn" && IsDigit(s[4]);
      if MatchAt(s, 0) {
        var e := LastDigitMeans(s[4..]);
        j := e + 4;
        RunShifts(s, 4, 0, e);
      } else {
        var i', j' := CapturedMeans(s[1..]);
        i, j := i' + 1, j' + 1;
        ShiftedMatches(s);
        if Captured(s).Some? { RunShifts(s, 1, i' + 4, j'); }
      }
    }
  }

  lemma ShiftedMatches(s: string)
    requires s != ""
    ensures forall k: nat :: MatchAt(s[1..], k) <==> MatchAt(s, k + 1)
    ensures forall k: nat :: k >= 1 ==> (MatchAt(s, k) <==> MatchAt(s[1..], k - 1))
  {
    forall k: nat ensures MatchAt(s[1..], k) <==> MatchAt(s, k + 1) { ShiftedMatch(s, k); }
    forall k: nat | k >= 1 ensures MatchAt(s, k) <==> MatchAt(s[1..], k - 1) { ShiftedMatch(s, k - 1); }
  }

  lemma ShiftedMatch(s: string, k: nat)
    requires s != ""
    ensures MatchAt(s[1..], k) <==> MatchAt(s, k + 1)
  {
    if k + 6 <= |s| { assert s[1..][k..k + 4] == s[k + 1..k + 5]; }
  }

  /** `max` is one more than the largest captured digit of a listing, and at least 1. */
  ghost predicate IsNext(files: set<string>, max: nat) {
    && 1 <= max <= 10
    && (forall f :: f in files && Captured(f).Some? ==> Captured(f).value < max)
    && (max > 1 ==> exists f :: f in files && Captured(f) == Some(max - 1))
  }

  function NumberedName(n: nat): string {
    "conn" + Itoa(n)
  }

  ghost predicate Generated(files: set<string>, name: string) {
    exists max :: IsNext(files, max) && name == NumberedName(max)
  }

  method GenerateConnectorName(files: set<string>) returns (name: string)
    ensures Generated(files, name)
  {
    var next := 1;
    var todo := files;
    while todo != {}
      invariant todo <= files && IsNext(files - todo, next)
      decreases todo
    {
      var f :| f in todo;
      todo := todo - {f};
      var count := Captured(f);
      if count.Some? && count.value >= next {
        assert f in files - todo;
        next := count.value + 1;
      } else if next > 1 {
        var g :| g in files - todo - {f} && Captured(g) == Some(next - 1);
        assert g in files - todo;
      }
    }
    assert files - todo == files;
    name := "conn" + Itoa(next);
    assert name == NumberedName(next);
  }

  lemma NumberedCaptured(n: nat)
    requires 1 <= n <= 9
    ensures Captured(NumberedName(n)) == Some(n)
  {
  }

  lemma NumberTaken(files: set<string>, max: nat)
    requires IsNext(files, max)
    ensures NumberedName(max) in files <==>
      NumberedName(10) in files && exists f :: f in files && Captured(f) == Some(9)
    ensures NumberedName(max) in files ==> max == 10
  {
    if max <= 9 { NumberedCaptured(max); }
  }

  /**
   * The generated name is taken exactly when "conn10" is listed together with some name that captures 9: conn1 to conn9
   * are always fresh, and there is no conn11.
   */
  lemma GeneratedNameTaken(files: set<string>, name: string)
    requires Generated(files, name)
    ensures name in files <==> "conn10" in files && exists f :: f in files && Captured(f) == Some(9)
    ensures name in files ==> name == "conn10"
  {
    var max :| IsNext(files, max) && name == NumberedName(max);
    NumberTaken(files, max);
    ConnTen();
  }

  lemma ConnTen()
    ensures NumberedName(10) == "conn10"
  {
    assert Decimal(10) == Decimal(1) + [Digit(0)] == "10";
  }

  // ---------------------------------------------------------------- the configuration edits

  const GENERATED_BY := "skupper.io/generated-by"

  function Content(secret: map<string, string>, key: string): string {
    if key in secret then secret[key] else ""
  }

  /** A new connector: its role and its end of the connection follow the mode of the router. */
  function NewConnector(c: Config, name: string, cost: int, secret: map<string, string>): Connector {
    if IsEdge(c) then
      Connector(name, ROLE_EDGE, Content(secret, "edge-host"), Content(secret, "edge-port"), false, cost, false,
                ProfileName(name), 0)
    else
      Connector(name, ROLE_INTER_ROUTER, Content(secret, "inter-router-host"), Content(secret, "inter-router-port"),
                false, cost, false, ProfileName(name), 0)
  }

  function Connected(c: Config, name: string, cost: int, secret: map<string, string>): Config {
    var profiled := Edited(c, Edit.AddConnSslProfile(SslProfile(ProfileName(name), "", "", "")));
    Edited(profiled, Edit.AddConnector(NewConnector(profiled, name, cost, secret)))
  }

  function Disconnected(c: Config, name: string): Config {
    if name in c.connectors then Edited(Edited(c, Edit.RemoveConnector(name)), Edit.RemoveConnSslProfile(name)) else c
  }

  /** The profile that a connector needs, with the files of its own directory. */
  function OwnProfile(name: string): SslProfile {
    var dir := "/etc/qpid-dispatch/connections/" + name;
    SslProfile(ProfileName(name), dir + "/tls.crt", dir + "/tls.key", dir + "/ca.crt")
  }

  lemma ConnectionProfileOwn(name: string)
    ensures ConnectionProfile(SslProfile(ProfileName(name), "", "", "")) == OwnProfile(name)
  {
  }

  lemma ProfileNameInjective(a: string, b: string)
    requires ProfileName(a) == ProfileName(b)
    ensures a == b
  {
    assert ProfileName(a)[..|ProfileName(a)| - 8] == a;
    assert ProfileName(b)[..|ProfileName(b)| - 8] == b;
  }

  predicate IsProfileName(s: string) {
    |s| >= 8 && s[|s| - 8..] == "-profile"
  }

  lemma ProfileNameIs(a: string)
    ensures IsProfileName(ProfileName(a))
  {
  }

  /** A configuration as it was before any connector was created. */
  ghost predicate Unconnected(c: Config) {
    c.connectors == map[] && forall p :: p in c.sslProfiles ==> !IsProfileName(p)
  }

  /** The profiles are the initial ones and exactly one for each connector name, with the files of its own directory. */
  ghost predicate ProfilesMatch(profiles: map<string, SslProfile>, names: set<string>,
                                initial: map<string, SslProfile>) {
    && (forall p :: p in profiles <==> p in initial || exists n :: n in names && p == ProfileName(n))
    && (forall p :: p in initial ==> profiles[p] == initial[p])
    && (forall n :: n in names ==> ProfileName(n) in profiles && profiles[ProfileName(n)] == OwnProfile(n))
  }

  /** Every connector refers to its own profile and has the role of the router's mode. */
  ghost predicate ConnectorsMatch(connectors: map<string, Connector>, edge: bool) {
    forall n :: n in connectors ==>
      connectors[n].sslProfile == n + "-profile" && connectors[n].role == if edge then "edge" else "inter-router"
  }

  /** Nothing but profiles and connectors differs from the initial configuration, and those two match. */
  ghost predicate Consistent(c: Config, initial: Config) {
    && c == initial.(sslProfiles := c.sslProfiles, connectors := c.connectors)
    && PartsMatch(c.sslProfiles, c.connectors, initial)
  }

  ghost predicate PartsMatch(profiles: map<string, SslProfile>, connectors: map<string, Connector>, initial: Config) {
    ProfilesMatch(profiles, connectors.Keys, initial.sslProfiles) && ConnectorsMatch(connectors, IsEdge(initial))
  }

  lemma ProfileAdded(profiles: map<string, SslProfile>, names: set<string>, initial: map<string, SslProfile>,
                     name: string)
    requires ProfilesMatch(profiles, names, initial) && forall p :: p in initial ==> !IsProfileName(p)
    ensures ProfilesMatch(profiles[ProfileName(name) := OwnProfile(name)], names + {name}, initial)
  {
    ProfileNameIs(name);
    forall n | n in names && ProfileName(n) == ProfileName(name) ensures n == name { ProfileNameInjective(n, name); }
    forall p | p in profiles && p !in initial ensures exists n :: n in names + {name} && p == ProfileName(n) {
      var n :| n in names && p == ProfileName(n);
      assert n in names + {name};
    }
    assert name in names + {name};
  }

  lemma ProfileRemoved(profiles: map<string, SslProfile>, names: set<string>, initial: map<string, SslProfile>,
                       name: string)
    requires ProfilesMatch(profiles, names, initial) && forall p :: p in initial ==> !IsProfileName(p)
    ensures ProfilesMatch(profiles - {ProfileName(name)}, names - {name}, initial)
  {
    ProfileNameIs(name);
    forall n | n in names && ProfileName(n) == ProfileName(name) ensures n == name { ProfileNameInjective(n, name); }
    forall p | p in profiles - {ProfileName(name)} && p !in initial
      ensures exists n :: n in names - {name} && p == ProfileName(n)
    {
      var n :| n in names && p == ProfileName(n);
      assert n in names - {name};
    }
  }

  lemma ConnectedKeyed(c: Config, name: string, cost: int, secret: map<string, string>)
    requires Keyed(c)
    ensures Keyed(Connected(c, name, cost, secret))
  {
  }

  lemma DisconnectedKeyed(c: Config, name: string)
    requires Keyed(c)
    ensures Keyed(Disconnected(c, name))
  {
  }

  lemma ConnectedForm(c: Config, name: string, cost: int, secret: map<string, string>)
    ensures Connected(c, name, cost, secret) ==
      c.(sslProfiles := c.sslProfiles[ProfileName(name) := OwnProfile(name)],
         connectors := c.connectors[name := NewConnector(c, name, cost, secret)])
  {
  }

  lemma DisconnectedForm(c: Config, name: string)
    requires name in c.connectors
    ensures Disconnected(c, name) ==
      c.(sslProfiles := c.sslProfiles - {ProfileName(name)}, connectors := c.connectors - {name})
  {
  }

  lemma PartsAdded(profiles: map<string, SslProfile>, connectors: map<string, Connector>, initial: Config,
                   name: string, x: Connector)
    requires PartsMatch(profiles, connectors, initial) && Unconnected(initial)
    requires x.sslProfile == ProfileName(name) && x.role == if IsEdge(initial) then ROLE_EDGE else ROLE_INTER_ROUTER
    ensures PartsMatch(profiles[ProfileName(name) := OwnProfile(name)], connectors[name := x], initial)
  {
    ProfileAdded(profiles, connectors.Keys, initial.sslProfiles, name);
    assert connectors[name := x].Keys == connectors.Keys + {name};
  }

  lemma PartsRemoved(profiles: map<string, SslProfile>, connectors: map<string, Connector>, initial: Config,
                     name: string)
    requires PartsMatch(profiles, connectors, initial) && Unconnected(initial)
    ensures PartsMatch(profiles - {ProfileName(name)}, connectors - {name}, initial)
  {
    ProfileRemoved(profiles, connectors.Keys, initial.sslProfiles, name);
    assert (connectors - {name}).Keys == connectors.Keys - {name};
  }

  lemma ConnectedConsistent(c: Config, initial: Config, name: string, cost: int, secret: map<string, string>)
    requires Unconnected(initial) && Consistent(c, initial)
    ensures Consistent(Connected(c, name, cost, secret), initial)
  {
    ConnectedForm(c, name, cost, secret);
    PartsAdded(c.sslProfiles, c.connectors, initial, name, NewConnector(c, name, cost, secret));
  }

  lemma DisconnectedConsistent(c: Config, initial: Config, name: string)
    requires Unconnected(initial) && Consistent(c, initial)
    ensures Consistent(Disconnected(c, name), initial)
  {
    if name in c.connectors {
      DisconnectedForm(c, name);
      PartsRemoved(c.sslProfiles, c.connectors, initial, name);
    }
  }

  /**
   * Creating and then removing a connector restores the configuration exactly when neither its name nor its profile
   * was there.
   */
  lemma CreateRemoveRestores(c: Config, name: string, cost: int, secret: map<string, string>)
    ensures Disconnected(Connected(c, name, cost, secret), name) == c <==>
      name !in c.connectors && ProfileName(name) !in c.sslProfiles
  {
  }

  /**
   * The same through the file: the first write can be read back, whatever order the two writes print their tuples in.
   */
  lemma CreateRemoveThroughFile(c: Config, name: string, cost: int, secret: map<string, string>,
                                created: seq<Element>, removed: seq<Element>)
    requires Keyed(c) && Encodes(created, Connected(c, name, cost, secret))
    ensures Decode(created).Some?
    ensures Encodes(removed, Disconnected(Decode(created).value, name)) ==>
      (Decode(removed) == Some(c) <==> name !in c.connectors && ProfileName(name) !in c.sslProfiles)
  {
    var connected := Connected(c, name, cost, secret);
    ConnectedKeyed(c, name, cost, secret);
    RoundTrip(connected, created);
    CreateRemoveRestores(c, name, cost, secret);
    DisconnectedKeyed(connected, name);
    if Encodes(removed, Disconnected(connected, name)) { RoundTrip(Disconnected(connected, name), removed); }
  }

  // ---------------------------------------------------------------- sessions

  /** The directories under the connections path, and the configuration that the router's file decodes to. */
  datatype Store = Store(dirs: set<string>, config: Option<Config>)

  datatype Refusal = NoTokenOrigin | OwnToken | DirectoryExists | UnreadableConfig

  datatype Outcome = Done(name: string) | Refused(why: Refusal)

  datatype Command =
    | Create(secret: map<string, string>, name: string, cost: int)
    | Remove(name: string)

  /** Creating a connector whose name is settled. A directory made before an unreadable file is found stays behind. */
  function CreateNamed(s: Store, secret: map<string, string>, n: string, cost: int): (Outcome, Store) {
    if n in s.dirs then (Refused(DirectoryExists), s)
    else
      match s.config
      case None => (Refused(UnreadableConfig), s.(dirs := s.dirs + {n}))
      case Some(c) => (Done(n), Store(s.dirs + {n}, Some(Connected(c, n, cost, secret))))
  }

  /** `n` is the name asked for, or the generated one if none was. */
  ghost predicate Settles(dirs: set<string>, name: string, n: string) {
    if name != "" then n == name else Generated(dirs, n)
  }

  ghost predicate CreateStep(uid: string, s: Store, secret: map<string, string>, name: string, cost: int, o: Outcome,
                             t: Store) {
    if GENERATED_BY !in secret then o == Refused(NoTokenOrigin) && t == s
    else if secret[GENERATED_BY] == uid then o == Refused(OwnToken) && t == s
    else exists n :: Settles(s.dirs, name, n) && (o, t) == CreateNamed(s, secret, n, cost)
  }

  function RemoveStep(s: Store, name: string): (Outcome, Store) {
    match s.config
    case None => (Refused(UnreadableConfig), s)
    case Some(c) =>
      (Done(name), if name in c.connectors then Store(s.dirs - {name}, Some(Disconnected(c, name))) else s)
  }

  ghost predicate CommandStep(uid: string, s: Store, c: Command, o: Outcome, t: Store) {
    match c
    case Create(secret, name, cost) => CreateStep(uid, s, secret, name, cost, o, t)
    case Remove(name) => (o, t) == RemoveStep(s, name)
  }

  ghost predicate IsCommand(uid: string, ss: seq<Store>, cs: seq<Command>, os: seq<Outcome>, i: nat)
    requires |ss| == |cs| + 1 == |os| + 1 && i < |cs|
  {
    CommandStep(uid, ss[i], cs[i], os[i], ss[i + 1])
  }

  ghost predicate IsSession(uid: string, ss: seq<Store>, cs: seq<Command>, os: seq<Outcome>) {
    |ss| == |cs| + 1 == |os| + 1 && forall i: nat :: i < |cs| ==> IsCommand(uid, ss, cs, os, i)
  }

  /** The configuration can be read, is consistent with the initial one, and each connector has its directory. */
  ghost predicate Sound(s: Store, initial: Config) {
    && s.config.Some? && Keyed(s.config.value) && Consistent(s.config.value, initial)
    && s.config.value.connectors.Keys <= s.dirs
  }

  lemma CreateSound(s: Store, initial: Config, secret: map<string, string>, n: string, cost: int)
    requires Unconnected(initial) && Sound(s, initial)
    ensures Sound(CreateNamed(s, secret, n, cost).1, initial)
  {
    if n !in s.dirs {
      ConnectedKeyed(s.config.value, n, cost, secret);
      ConnectedConsistent(s.config.value, initial, n, cost, secret);
      ConnectedForm(s.config.value, n, cost, secret);
    }
  }

  lemma RemoveSound(s: Store, initial: Config, name: string)
    requires Unconnected(initial) && Sound(s, initial)
    ensures Sound(RemoveStep(s, name).1, initial)
  {
    if name in s.config.value.connectors {
      DisconnectedKeyed(s.config.value, name);
      DisconnectedConsistent(s.config.value, initial, name);
      DisconnectedForm(s.config.value, name);
    }
  }

  /** Over every sequence of connector creations and removals, connectors and profiles stay consistent. */
  lemma {:induction false} SessionSound(uid: string, ss: seq<Store>, cs: seq<Command>, os: seq<Outcome>,
                                        initial: Config, i: nat)
    requires IsSession(uid, ss, cs, os) && i <= |cs|
    requires Unconnected(initial) && Sound(ss[0], initial)
    ensures Sound(ss[i], initial)
  {
    if i > 0 {
      SessionSound(uid, ss, cs, os, initial, i - 1);
      assert IsCommand(uid, ss, cs, os, i - 1);
      StepSound(uid, ss[i - 1], cs[i - 1], os[i - 1], ss[i], initial);
    }
  }

  lemma StepSound(uid: string, s: Store, c: Command, o: Outcome, t: Store, initial: Config)
    requires Unconnected(initial) && Sound(s, initial) && CommandStep(uid, s, c, o, t)
    ensures Sound(t, initial)
  {
    match c
    case Create(secret, name, cost) =>
      if t != s {
        var n :| Settles(s.dirs, name, n) && (o, t) == CreateNamed(s, secret, n, cost);
        CreateSound(s, initial, secret, n, cost);
      }
    case Remove(name) => RemoveSound(s, initial, name);
  }

  /** In a sound store, a successful creation is undone by removing the connector it reports. */
  lemma CreateUndone(uid: string, s: Store, secret: map<string, string>, name: string, cost: int, o: Outcome,
                     t: Store, initial: Config)
    requires Unconnected(initial) && Sound(s, initial) && CreateStep(uid, s, secret, name, cost, o, t) && o.Done?
    ensures RemoveStep(t, o.name) == (o, s)
  {
    var n :| Settles(s.dirs, name, n) && (o, t) == CreateNamed(s, secret, n, cost);
    var c := s.config.value;
    assert ProfileName(n) !in c.sslProfiles by {
      ProfileNameIs(n);
      if ProfileName(n) in c.sslProfiles {
        var m :| m in c.connectors && ProfileName(n) == ProfileName(m);
        ProfileNameInjective(m, n);
      }
    }
    CreateRemoveRestores(c, n, cost, secret);
    ConnectedForm(c, n, cost, secret);
    assert (s.dirs + {n}) - {n} == s.dirs;
  }

  /**
   * With a valid token and no name given, creation is refused for its directory exactly when conn10 and a 9 are both
   * listed.
   */
  lemma UnnamedRefused(uid: string, s: Store, secret: map<string, string>, cost: int, o: Outcome, t: Store)
    requires CreateStep(uid, s, secret, "", cost, o, t) && GENERATED_BY in secret && secret[GENERATED_BY] != uid
    ensures o == Refused(DirectoryExists) <==> "conn10" in s.dirs && exists f :: f in s.dirs && Captured(f) == Some(9)
  {
    var n :| Settles(s.dirs, "", n) && (o, t) == CreateNamed(s, secret, n, cost);
    GeneratedNameTaken(s.dirs, n);
  }

  // ---------------------------------------------------------------- what the commands do

  /** An entry of a token, or "" if it has none of that name. */
  ghost predicate Entry(secret: map<string, string>, key: string, value: string) {
    value == if key in secret then secret[key] else ""
  }

  /**
   * The connector that a token asks for: an edge router connects to the token's edge end, any other to the other one.
   */
  ghost predicate ConnectsTo(x: Connector, edge: bool, n: string, secret: map<string, string>, cost: int) {
    && x.name == n && x.sslProfile == n + "-profile" && x.cost == cost
    && x.role == (if edge then "edge" else "inter-router")
    && Entry(secret, if edge then "edge-host" else "inter-router-host", x.host)
    && Entry(secret, if edge then "edge-port" else "inter-router-port", x.port)
    && !x.routeContainer && !x.verifyHostname && x.linkCapacity == 0
  }

  /** Profile `p` has the certificate files of connector `n`'s own directory. */
  ghost predicate OwnFiles(p: SslProfile, n: string) {
    var dir := "/etc/qpid-dispatch/connections/" + n;
    && p.name == n + "-profile"
    && p.certFile == dir + "/tls.crt" && p.privateKeyFile == dir + "/tls.key" && p.caCertFile == dir + "/ca.crt"
  }

  /** Configuration `d` is `c` with connector `n` and its profile, and without any other change. */
  ghost predicate Adds(c: Config, d: Config, n: string, secret: map<string, string>, cost: int) {
    && d == c.(connectors := d.connectors, sslProfiles := d.sslProfiles)
    && n in d.connectors && ConnectsTo(d.connectors[n], c.metadata.mode == "edge", n, secret, cost)
    && n + "-profile" in d.sslProfiles && OwnFiles(d.sslProfiles[n + "-profile"], n)
    && d.connectors == c.connectors[n := d.connectors[n]]
    && d.sslProfiles == c.sslProfiles[n + "-profile" := d.sslProfiles[n + "-profile"]]
  }

  lemma ConnectedAdds(c: Config, n: string, secret: map<string, string>, cost: int)
    ensures Adds(c, Connected(c, n, cost, secret), n, secret, cost)
  {
    ConnectedForm(c, n, cost, secret);
  }

  /**
   * A token is refused for having no origin or this site's, in that order. With any other, creation takes the name it
   * was given or generates one; it is refused if the directory exists, fails after making it if the file cannot be
   * read, and else adds the connector that the token asks for.
   */
  lemma CreateMeans(uid: string, s: Store, secret: map<string, string>, name: string, cost: int, o: Outcome, t: Store)
    requires CreateStep(uid, s, secret, name, cost, o, t)
    ensures o == Refused(NoTokenOrigin) <==> "skupper.io/generated-by" !in secret
    ensures o == Refused(OwnToken) <==>
      "skupper.io/generated-by" in secret && secret["skupper.io/generated-by"] == uid
    ensures o.Refused? && o.why != UnreadableConfig ==> t == s
    ensures o == Refused(DirectoryExists) && name != "" ==> name in s.dirs
    ensures o == Refused(UnreadableConfig) ==>
      s.config.None? && exists n :: n !in s.dirs && (name != "" ==> n == name) && t == s.(dirs := s.dirs + {n})
    ensures o.Done? ==>
      && (name != "" ==> o.name == name) && o.name !in s.dirs && t.dirs == s.dirs + {o.name}
      && s.config.Some? && t.config.Some? && Adds(s.config.value, t.config.value, o.name, secret, cost)
    ensures (name != "" && "skupper.io/generated-by" in secret && secret["skupper.io/generated-by"] != uid) ==>
      (o.Done? <==> name !in s.dirs && s.config.Some?)
  {
    if GENERATED_BY in secret && secret[GENERATED_BY] != uid {
      var n :| Settles(s.dirs, name, n) && (o, t) == CreateNamed(s, secret, n, cost);
      if o.Done? { ConnectedAdds(s.config.value, n, secret, cost); }
    }
  }

  /**
   * Removal fails only on an unreadable file. It takes the connector, its profile and its directory, if it is there.
   */
  lemma RemoveMeans(s: Store, name: string)
    ensures var (o, t) := RemoveStep(s, name);
      && (s.config.None? <==> o == Refused(UnreadableConfig)) && (s.config.Some? <==> o == Done(name))
      && (s.config.None? || name !in s.config.value.connectors ==> t == s)
      && (s.config.Some? && name in s.config.value.connectors ==>
            var c := s.config.value;
            && t.dirs == s.dirs - {name}
            && t.config == Some(c.(connectors := c.connectors - {name},
                                   sslProfiles := c.sslProfiles - {name + "-profile"})))
  {
  }

  /** Connector `x` is as a creation's token asked for that reported `n`, and no command has reported `n` since. */
  ghost predicate FromToken(cs: seq<Command>, os: seq<Outcome>, i: nat, x: Connector, edge: bool, n: string)
    requires i <= |cs| == |os|
  {
    exists j ::
      && 0 <= j < i && cs[j].Create? && os[j] == Done(n) && ConnectsTo(x, edge, n, cs[j].secret, cs[j].cost)
      && forall k :: j < k < i ==> os[k] != Done(n)
  }

  /**
   * Over every session from a router without connectors, each connector is as the last creation of its name asked
   * for.
   */
  lemma {:induction false} SessionConnects(uid: string, ss: seq<Store>, cs: seq<Command>, os: seq<Outcome>,
                                           initial: Config, i: nat, n: string)
    requires IsSession(uid, ss, cs, os) && i <= |cs| && Unconnected(initial) && ss[0].config == Some(initial)
    ensures ss[i].config.Some? && ss[i].config.value.metadata == initial.metadata
    ensures n in ss[i].config.value.connectors ==>
      FromToken(cs, os, i, ss[i].config.value.connectors[n], initial.metadata.mode == "edge", n)
  {
    if i > 0 {
      SessionConnects(uid, ss, cs, os, initial, i - 1, n);
      assert IsCommand(uid, ss, cs, os, i - 1);
      CommandConnects(uid, ss[i - 1], cs[i - 1], os[i - 1], ss[i], n);
      if n in ss[i].config.value.connectors {
        FromTokenNext(cs, os, i, ss[i].config.value.connectors[n], initial.metadata.mode == "edge", n);
      }
    }
  }

  lemma CommandConnects(uid: string, s: Store, c: Command, o: Outcome, t: Store, n: string)
    requires CommandStep(uid, s, c, o, t) && s.config.Some?
    ensures t.config.Some? && t.config.value.metadata == s.config.value.metadata
    ensures var before, after := s.config.value.connectors, t.config.value.connectors;
      n in after ==>
        if o == Done(n) then
          c.Create? && ConnectsTo(after[n], s.config.value.metadata.mode == "edge", n, c.secret, c.cost)
        else n in before && after[n] == before[n]
  {
    match c
    case Create(secret, name, cost) => CreateMeans(uid, s, secret, name, cost, o, t);
    case Remove(name) => RemoveMeans(s, name);
  }

  lemma FromTokenNext(cs: seq<Command>, os: seq<Outcome>, i: nat, x: Connector, edge: bool, n: string)
    requires 0 < i <= |cs| == |os|
    requires if os[i - 1] == Done(n) then cs[i - 1].Create? && ConnectsTo(x, edge, n, cs[i - 1].secret, cs[i - 1].cost)
             else FromToken(cs, os, i - 1, x, edge, n)
    ensures FromToken(cs, os, i, x, edge, n)
  {
  }

  // ---------------------------------------------------------------- the commands

  class ConnectorClient {
    const uid: string         // the site's own id
    var dirs: set<string>     // the connections directory
    var file: seq<Element>    // qdrouterd.json

    function Value(): Store
      reads this
    {
      Store(dirs, Decode(file))
    }

    constructor (uid: string, dirs: set<string>, file: seq<Element>)
      ensures this.uid == uid && Value() == Store(dirs, Decode(file))
    {
      this.uid, this.dirs, this.file := uid, dirs, file;
    }

    /** The read-modify-write of the router's file that adds a connector and its profile. */
    method AddToFile(name: string, secret: map<string, string>, cost: int) returns (ok: bool)
      modifies this`file
      ensures ok == Decode(old(file)).Some?
      ensures ok ==> Decode(file) == Some(Connected(Decode(old(file)).value, name, cost, secret))
      ensures !ok ==> file == old(file)
    {
      var current: RouterConfig;
      ok, current := UnmarshalRouterConfig(file);
      if ok {
        ghost var c := current.Value();
        DecodeKeepsLast(file);
        ConnectedKeyed(c, name, cost, secret);
        var profileName := name + "-profile";
        current.AddConnSslProfile(SslProfile(profileName, "", "", ""));
        var role := ROLE_INTER_ROUTER;
        var host, port := Content(secret, "inter-router-host"), Content(secret, "inter-router-port");
        if current.metadata.mode == MODE_EDGE {
          role, host, port := ROLE_EDGE, Content(secret, "edge-host"), Content(secret, "edge-port");
        }
        current.AddConnector(Connector(name, role, host, port, false, cost, false, profileName, 0));
        assert current.Value() == Connected(c, name, cost, secret);
        file := MarshalRouterConfig(current.Value());
        RoundTrip(current.Value(), file);
      }
    }

    method ConnectorCreate(secret: map<string, string>, name: string, cost: int) returns (o: Outcome)
      modifies this
      ensures CreateStep(uid, old(Value()), secret, name, cost, o, Value())
    {
      if GENERATED_BY !in secret {
        return Refused(NoTokenOrigin);
      }
      if secret[GENERATED_BY] == uid {
        return Refused(OwnToken);
      }
      var n := name;
      if n == "" {
        n := GenerateConnectorName(dirs);
      }
      assert Settles(dirs, name, n);
      ghost var s := Value();
      if n in dirs {
        o := Refused(DirectoryExists);
      } else {
        dirs := dirs + {n};
        var ok := AddToFile(n, secret, cost);
        o := if ok then Done(n) else Refused(UnreadableConfig);
      }
      assert (o, Value()) == CreateNamed(s, secret, n, cost);
    }

    method ConnectorRemove(name: string) returns (o: Outcome)
      modifies this
      ensures (o, Value()) == RemoveStep(old(Value()), name)
    {
      var ok, current := UnmarshalRouterConfig(file);
      if !ok {
        return Refused(UnreadableConfig);
      }
      ghost var c := current.Value();
      DecodeKeepsLast(file);
      DisconnectedKeyed(c, name);
      var found := current.RemoveConnector(name);
      if found {
        var _ := current.RemoveConnSslProfile(name);
        assert current.Value() == Disconnected(c, name);
        dirs := dirs - {name};
        file := MarshalRouterConfig(current.Value());
        RoundTrip(current.Value(), file);
      }
      o := Done(name);
    }
  }
}
