/**
 * One site's half of the service-sync protocol, as functions on the site's state. The class in
 * Controller.dfy is proved to compute these functions; the theorems about the protocol are here
 * and in the modules that build runs out of these steps.
 */
module SiteSync {
  import opened ServiceTypes

  /** Times are in nanoseconds, as Go's durations are. */
  const SECOND := 1_000_000_000
  const AGE_LIMIT := 60 * SECOND

  /**
   * `registry` is the `skupper-services` file; `pending` says that it was written and the watcher has not run yet.
   * The other maps are the controller's fields of the same names.
   */
  datatype SiteState = SiteState(
    self: string,
    registry: Services,
    pending: bool,
    byOrigin: map<string, Services>,
    localServices: Services,
    byName: Services,
    heardFrom: map<string, int>)

  // ---------------------------------------------------------------- the indexes

  function LocalView(defs: Services): Services {
    map n | n in defs && !IsRemote(defs[n]) :: Strip(defs[n])
  }

  function NameView(defs: Services): Services {
    map n | n in defs :: Strip(defs[n])
  }

  function OriginView(defs: Services, origin: string): Services {
    map n | n in defs && IsRemote(defs[n]) && defs[n].origin == origin :: Strip(defs[n])
  }

  function RemoteOrigins(defs: Services): set<string> {
    set n | n in defs && IsRemote(defs[n]) :: defs[n].origin
  }

  function HeldBy(byOrigin: map<string, Services>, origin: string): Services {
    if origin in byOrigin then byOrigin[origin] else map[]
  }

  /** The names of one origin after a watcher step: those that are local now leave, remote ones are added. */
  function ReindexedAt(byOrigin: map<string, Services>, defs: Services, o: string): Services {
    (HeldBy(byOrigin, o) - LocalView(defs).Keys) + OriginView(defs, o)
  }

  function Reindex(byOrigin: map<string, Services>, defs: Services): map<string, Services> {
    map o | o in byOrigin.Keys + RemoteOrigins(defs) :: ReindexedAt(byOrigin, defs, o)
  }

  /** The four indexes are exact projections of the registry. */
  ghost predicate InSync(s: SiteState) {
    && WellKeyed(s.registry)
    && s.localServices == LocalView(s.registry)
    && s.byName == NameView(s.registry)
    && (forall n :: n in s.registry && IsRemote(s.registry[n]) ==> s.registry[n].origin in s.byOrigin)
    && (forall o :: o in s.byOrigin ==> s.byOrigin[o] == OriginView(s.registry, o))
  }

  /** Every indexed name is still in the registry, and still its origin's unless it became local. */
  ghost predicate IndexCovered(s: SiteState) {
    forall o, n :: o in s.byOrigin && n in s.byOrigin[o] ==>
      n in s.registry && (IsRemote(s.registry[n]) ==> s.registry[n].origin == o)
  }

  /** The sets of names that the origins hold are pairwise disjoint. */
  ghost predicate OriginsDisjoint(byOrigin: map<string, Services>) {
    forall o, p, n :: o in byOrigin && p in byOrigin && n in byOrigin[o] && n in byOrigin[p] ==> o == p
  }

  // ---------------------------------------------------------------- the handlers

  function Watch(s: SiteState): SiteState {
    s.(pending := false,
       byOrigin := Reindex(s.byOrigin, s.registry),
       localServices := LocalView(s.registry),
       byName := NameView(s.registry))
  }

  predicate EquivalentServiceDefinition(a: ServiceInterface, b: ServiceInterface) {
    a.protocol == b.protocol && a.port == b.port && a.eventChannel == b.eventChannel &&
    a.aggregate == b.aggregate && a.headless == b.headless
  }

  function Changed(byName: Services, from: string, defs: Services): Services {
    map n | n in defs &&
      (n !in byName || (byName[n].origin == from && !EquivalentServiceDefinition(defs[n], byName[n]))) ::
      defs[n]
  }

  function Withdrawn(byOrigin: map<string, Services>, from: string, defs: Services): set<string> {
    HeldBy(byOrigin, from).Keys - defs.Keys
  }

  /** Reconciling the definitions `defs` that site `from` advertises. */
  function Merge(s: SiteState, from: string, defs: Services, now: int): SiteState {
    var changed := Changed(s.byName, from, defs);
    var withdrawn := Withdrawn(s.byOrigin, from, defs);
    s.(registry := s.registry + changed - withdrawn,
       pending := s.pending || changed != map[] || withdrawn != {},
       byOrigin := s.byOrigin[from := HeldBy(s.byOrigin, from) - withdrawn],
       heardFrom := s.heardFrom[from := now])
  }

  /** The content of an update message, tagged with its sender and keyed by address; later entries win. */
  function Index(msg: seq<ServiceInterface>, from: string): Services {
    if msg == [] then map[]
    else
      var last := msg[|msg| - 1];
      Index(msg[..|msg| - 1], from)[last.address := last.(origin := from)]
  }

  function Receive(s: SiteState, from: string, msg: seq<ServiceInterface>, now: int): SiteState {
    if from == s.self then s else Merge(s, from, Index(msg, from), now)
  }

  /** `msg` lists the advertised services in some order. */
  ghost predicate Lists(msg: seq<ServiceInterface>, defs: Services) {
    forall si :: si in msg <==> exists n :: n in defs && defs[n] == si
  }

  predicate Silent(s: SiteState, origin: string, now: int) {
    origin in s.byOrigin && origin in s.heardFrom && now - s.heardFrom[origin] >= AGE_LIMIT
  }

  function AgedOrigins(s: SiteState, now: int): set<string> {
    set o | o in s.byOrigin && Silent(s, o, now)
  }

  function AgedNames(s: SiteState, now: int): set<string> {
    set o, n | o in s.byOrigin && Silent(s, o, now) && n in s.byOrigin[o] :: n
  }

  /** The age tick. */
  function Age(s: SiteState, now: int): SiteState {
    s.(registry := s.registry - AgedNames(s, now),
       pending := s.pending || AgedNames(s, now) != {},
       byOrigin := s.byOrigin - AgedOrigins(s, now),
       heardFrom := s.heardFrom - AgedOrigins(s, now))
  }

  /** A registry edit made by the command line, in its own process. */
  function Edit(s: SiteState, after: Services): SiteState {
    s.(registry := after, pending := true)
  }

  /** A controller that starts on the registry `initial`, up to the loop of the definitions watcher. */
  function Start(self: string, initial: Services, now: int): SiteState {
    var s := Watch(SiteState(self, initial, true, map[], map[], map[], map[]));
    s.(heardFrom := map o | o in s.byOrigin && o != self :: now)
  }

  // ---------------------------------------------------------------- atomic steps

  datatype Event =
    | Update(from: string, msg: seq<ServiceInterface>, at: int)
    | Tick(at: int)
    | Local(after: Services, at: int)

  function Handle(s: SiteState, e: Event): SiteState {
    match e
    case Update(from, msg, now) => Receive(s, from, msg, now)
    case Tick(now) => Age(s, now)
    case Local(after, _) => Edit(s, after)
  }

  function Settle(s: SiteState): SiteState {
    if s.pending then Watch(s) else s
  }

  /** A handler, followed by the watcher's step if the handler wrote the registry. */
  function Step(s: SiteState, e: Event): SiteState {
    Settle(Handle(s, e))
  }

  ghost predicate Enabled(s: SiteState, e: Event) {
    e.Local? ==> CliEdit(s.registry, e.after)
  }

  // ---------------------------------------------------------------- index agreement

  lemma ReindexAt(byOrigin: map<string, Services>, defs: Services, o: string)
    requires o in byOrigin
    requires forall n :: n in byOrigin[o] ==> n in defs && (IsRemote(defs[n]) ==> defs[n].origin == o)
    ensures Reindex(byOrigin, defs)[o] == OriginView(defs, o)
  {
  }

  lemma ReindexNew(byOrigin: map<string, Services>, defs: Services, o: string)
    requires o !in byOrigin && o in RemoteOrigins(defs)
    ensures Reindex(byOrigin, defs)[o] == OriginView(defs, o)
  {
  }

  /** A watcher step yields exact indexes exactly when no indexed name is stale. */
  lemma WatchSyncs(s: SiteState)
    ensures InSync(Watch(s)) <==> WellKeyed(s.registry) && IndexCovered(s)
  {
    var t := Watch(s);
    if WellKeyed(s.registry) && IndexCovered(s) {
      forall o | o in t.byOrigin
        ensures t.byOrigin[o] == OriginView(t.registry, o)
      {
        if o in s.byOrigin { ReindexAt(s.byOrigin, s.registry, o); } else { ReindexNew(s.byOrigin, s.registry, o); }
      }
    }
    if InSync(t) {
      forall o, n | o in s.byOrigin && n in s.byOrigin[o]
        ensures n in s.registry && (IsRemote(s.registry[n]) ==> s.registry[n].origin == o)
      {
        assert t.byOrigin[o] == OriginView(s.registry, o);
        if n !in LocalView(s.registry) {
          assert n in (HeldBy(s.byOrigin, o) - LocalView(s.registry).Keys) + OriginView(s.registry, o);
          assert n in t.byOrigin[o];
        }
      }
    }
  }

  /**
   * What the indexes of a synchronised site are: local names are those without another site's tag, each origin has
   * the names that carry its tag, and each name stands for the address, protocol, port, headless values and tag of
   * its entry, without event channel, aggregation, targets and alias.
   */
  lemma IndexesMean(s: SiteState)
    requires InSync(s)
    ensures forall n :: n in s.localServices <==>
      n in s.registry && (s.registry[n].origin == "" || s.registry[n].origin == "annotation")
    ensures forall n :: n in s.byName <==> n in s.registry
    ensures forall n :: n in s.registry && s.registry[n].origin != "" && s.registry[n].origin != "annotation" ==>
      s.registry[n].origin in s.byOrigin && n in s.byOrigin[s.registry[n].origin]
    ensures forall o, n :: o in s.byOrigin && n in s.byOrigin[o] ==>
      n in s.registry && s.registry[n].origin == o && o != "" && o != "annotation"
    ensures forall n :: n in s.registry ==>
      var r := s.registry[n];
      var bare := ServiceInterface(r.address, r.protocol, r.port, false, "", r.headless, [], r.origin, "");
      && s.byName[n] == bare
      && (n in s.localServices ==> s.localServices[n] == bare)
      && forall o :: o in s.byOrigin && n in s.byOrigin[o] ==> s.byOrigin[o][n] == bare
  {
  }

  lemma InSyncDisjoint(s: SiteState)
    requires InSync(s)
    ensures OriginsDisjoint(s.byOrigin) && IndexCovered(s)
  {
  }

  // ---------------------------------------------------------------- merging an update

  lemma IndexTags(msg: seq<ServiceInterface>, from: string)
    ensures WellKeyed(Index(msg, from))
    ensures forall n :: n in Index(msg, from) ==> Index(msg, from)[n].origin == from
  {
  }

  lemma MergeAt(s: SiteState, from: string, defs: Services, now: int, n: string)
    requires InSync(s)
    ensures var r := Merge(s, from, defs, now).registry;
      var owned := n in s.registry && s.registry[n].origin == from;
      && (n in s.registry && !owned ==> n in r && r[n] == s.registry[n])
      && (n !in s.registry ==> (n in r <==> n in defs) && (n in r ==> r[n] == defs[n]))
      && (owned && n in defs ==>
            n in r &&
            r[n] == if EquivalentServiceDefinition(defs[n], Strip(s.registry[n])) then s.registry[n] else defs[n])
      && (owned && IsSiteTag(from) ==> (n in r <==> n in defs))
  {
  }

  lemma MergeKeyed(s: SiteState, from: string, defs: Services, now: int)
    requires InSync(s) && WellKeyed(defs)
    ensures WellKeyed(Merge(s, from, defs, now).registry)
  {
  }

  /** Merging leaves no stale name in the origin index, whatever the message says. */
  lemma MergeCovered(s: SiteState, from: string, defs: Services, now: int)
    requires InSync(s) && forall n :: n in defs ==> defs[n].origin == from
    ensures IndexCovered(Merge(s, from, defs, now))
  {
    var m := Merge(s, from, defs, now);
    forall o, n | o in m.byOrigin && n in m.byOrigin[o]
      ensures n in m.registry && (IsRemote(m.registry[n]) ==> m.registry[n].origin == o)
    {
      assert o in s.byOrigin && n in s.byOrigin[o];
      assert n in OriginView(s.registry, o);
      MergeAt(s, from, defs, now, n);
    }
  }

  lemma IdleMerge(s: SiteState, from: string, defs: Services, now: int)
    requires Changed(s.byName, from, defs) == map[] && Withdrawn(s.byOrigin, from, defs) == {}
    ensures Merge(s, from, defs, now) ==
      s.(byOrigin := s.byOrigin[from := HeldBy(s.byOrigin, from)], heardFrom := s.heardFrom[from := now])
  {
    assert s.registry + map[] - {} == s.registry;
    assert HeldBy(s.byOrigin, from) - {} == HeldBy(s.byOrigin, from);
  }

  lemma IdleInSync(s: SiteState, from: string, heard: map<string, int>)
    requires InSync(s)
    ensures InSync(s.(byOrigin := s.byOrigin[from := HeldBy(s.byOrigin, from)], heardFrom := heard))
  {
  }

  // ---------------------------------------------------------------- ageing and local edits

  lemma AgeAt(s: SiteState, now: int, n: string)
    requires InSync(s)
    ensures var r := Age(s, now).registry;
      && (n in r <==> n in s.registry && !(IsRemote(s.registry[n]) && Silent(s, s.registry[n].origin, now)))
      && (n in r ==> r[n] == s.registry[n])
  {
    if n in s.registry && IsRemote(s.registry[n]) {
      var o := s.registry[n].origin;
      assert n in OriginView(s.registry, o);
      assert n in AgedNames(s, now) <==> Silent(s, o, now);
    }
  }

  lemma AgeCovered(s: SiteState, now: int)
    requires InSync(s)
    ensures WellKeyed(Age(s, now).registry) && IndexCovered(Age(s, now))
  {
  }

  lemma IdleAgeInSync(s: SiteState, now: int)
    requires InSync(s) && AgedNames(s, now) == {}
    ensures InSync(Age(s, now))
  {
    var t := Age(s, now);
    assert t.registry == s.registry;
    forall n | n in t.registry && IsRemote(t.registry[n])
      ensures t.registry[n].origin in t.byOrigin
    {
      var o := s.registry[n].origin;
      assert n in OriginView(s.registry, o);
      assert Silent(s, o, now) ==> n in AgedNames(s, now);
    }
  }

  lemma EditCovered(s: SiteState, after: Services)
    requires InSync(s) && CliEdit(s.registry, after)
    ensures WellKeyed(after) && IndexCovered(Edit(s, after))
  {
    var k :| CliEditAt(s.registry, after, k);
    forall n | n in after ensures after[n].address == n {
      if n != k { assert SameAt(s.registry, after, n); }
    }
    forall o, n | o in s.byOrigin && n in s.byOrigin[o]
      ensures n in after && (IsRemote(after[n]) ==> after[n].origin == o)
    {
      assert n in OriginView(s.registry, o);
      if n != k { assert SameAt(s.registry, after, n); }
    }
  }

  /** Between a handler and its watcher step no name is held by two origins, so pruning by the first holder is sound. */
  lemma HandledDisjoint(s: SiteState, e: Event)
    requires InSync(s)
    ensures OriginsDisjoint(Handle(s, e).byOrigin)
  {
    InSyncDisjoint(s);
    var t := Handle(s, e);
    forall o, n | o in t.byOrigin && n in t.byOrigin[o] ensures o in s.byOrigin && n in s.byOrigin[o] { }
  }

  // ---------------------------------------------------------------- theorems about one step

  /** Every atomic step leaves the indexes exact projections of the registry. */
  lemma StepInSync(s: SiteState, e: Event)
    requires InSync(s) && !s.pending && Enabled(s, e)
    ensures InSync(Step(s, e)) && !Step(s, e).pending && Step(s, e).self == s.self
  {
    match e
    case Update(from, msg, now) =>
      if from != s.self {
        var defs := Index(msg, from);
        IndexTags(msg, from);
        if Changed(s.byName, from, defs) == map[] && Withdrawn(s.byOrigin, from, defs) == {} {
          IdleMerge(s, from, defs, now);
          IdleInSync(s, from, s.heardFrom[from := now]);
        } else {
          MergeKeyed(s, from, defs, now);
          MergeCovered(s, from, defs, now);
          WatchSyncs(Merge(s, from, defs, now));
        }
      }
    case Tick(now) =>
      if AgedNames(s, now) == {} {
        IdleAgeInSync(s, now);
      } else {
        AgeCovered(s, now);
        WatchSyncs(Age(s, now));
      }
    case Local(after, _) =>
      EditCovered(s, after);
      WatchSyncs(Edit(s, after));
  }

  /** A freshly started controller is in sync, and has heard of every origin except its own tag. */
  lemma StartInSync(self: string, initial: Services, now: int)
    requires WellKeyed(initial)
    ensures var s := Start(self, initial, now);
      && InSync(s) && !s.pending && s.registry == initial
      && s.heardFrom.Keys == RemoteOrigins(initial) - {self}
  {
    var s0 := SiteState(self, initial, true, map[], map[], map[], map[]);
    WatchSyncs(s0);
    assert s0.byOrigin.Keys + RemoteOrigins(initial) == RemoteOrigins(initial);
  }

  lemma RemoveIsEdit(before: Services, name: string)
    requires name in before && !IsRemote(before[name])
    ensures CliEdit(before, before - {name})
  {
    assert CliEditAt(before, before - {name}, name);
  }

  lemma RemoveRemoteStale(s: SiteState, name: string)
    requires InSync(s) && name in s.registry && IsRemote(s.registry[name])
    ensures !IndexCovered(Edit(s, s.registry - {name}))
  {
    var o := s.registry[name].origin;
    assert name in OriginView(s.registry, o);
    assert o in s.byOrigin && name in s.byOrigin[o];
  }

  /**
   * Deleting an entry behind the protocol's back keeps the indexes repairable exactly when the entry is
   * local: a remote one leaves its name behind under its origin.
   */
  lemma RemoveKeepsSync(s: SiteState, name: string)
    requires InSync(s) && name in s.registry
    ensures InSync(Watch(Edit(s, s.registry - {name}))) <==> !IsRemote(s.registry[name])
  {
    if IsRemote(s.registry[name]) {
      RemoveRemoteStale(s, name);
    } else {
      RemoveIsEdit(s.registry, name);
      EditCovered(s, s.registry - {name});
    }
    WatchSyncs(Edit(s, s.registry - {name}));
  }

  predicate Plain(si: ServiceInterface) {
    !si.eventChannel && si.aggregate == ""
  }

  /**
   * The entry for `n` after hearing `def` from its owner: the name index has forgotten event channel and aggregation,
   * so a plain definition does not replace an entry that agrees with it on everything else.
   */
  function Absorbed(r: Services, from: string, n: string, def: ServiceInterface): ServiceInterface {
    if n in r && Agrees(r[n], def) && Plain(def) then r[n] else def.(origin := from)
  }

  /**
   * Registry `r` becomes `r'` by reconciling the definitions `defs` of `from`: the entries of that origin become
   * exactly the names that were absent or already its own, each with its absorbed definition, and nothing else moves.
   */
  ghost predicate Absorbs(r: Services, r': Services, from: string, defs: Services) {
    && (forall n :: (n in r' && r'[n].origin == from) <==> (n in defs && (n !in r || r[n].origin == from)))
    && (forall n :: n in r' && r'[n].origin == from ==> r'[n] == Absorbed(r, from, n, defs[n]))
    && (forall n :: n in r && r[n].origin != from ==> n in r' && r'[n] == r[n])
    && (forall n :: n in r' && r'[n].origin != from ==> n in r && r'[n] == r[n])
  }

  lemma EquivalentStripped(e: ServiceInterface, def: ServiceInterface)
    requires e.address == def.address
    ensures EquivalentServiceDefinition(def, Strip(e)) <==> Agrees(e, def) && Plain(def)
  {
  }

  lemma AbsorbsAgrees(r: Services, r': Services, from: string, defs: Services)
    requires Absorbs(r, r', from, defs)
    ensures forall n :: n in r' && r'[n].origin == from ==> Agrees(r'[n], defs[n])
  {
  }

  lemma MergeAbsorbs(s: SiteState, from: string, defs: Services, now: int, n: string)
    requires InSync(s) && IsSiteTag(from) && WellKeyed(defs) && forall k :: k in defs ==> defs[k].origin == from
    ensures var r, r' := s.registry, Merge(s, from, defs, now).registry;
      && ((n in r' && r'[n].origin == from) <==> (n in defs && (n !in r || r[n].origin == from)))
      && (n in r' && r'[n].origin == from ==> r'[n] == Absorbed(r, from, n, defs[n]))
      && (n in r && r[n].origin != from ==> n in r' && r'[n] == r[n])
      && (n in r' && r'[n].origin != from ==> n in r && r'[n] == r[n])
  {
    MergeAt(s, from, defs, now, n);
    if n in s.registry && n in defs { EquivalentStripped(s.registry[n], defs[n]); }
  }

  /** What an update does to the registry, whatever it says. */
  lemma ExactMerge(s: SiteState, from: string, msg: seq<ServiceInterface>, now: int)
    requires InSync(s) && from != s.self && IsSiteTag(from)
    ensures Absorbs(s.registry, Step(s, Update(from, msg, now)).registry, from, Index(msg, from))
  {
    var defs := Index(msg, from);
    IndexTags(msg, from);
    forall n { MergeAbsorbs(s, from, defs, now, n); }
  }

  /**
   * The sender's entry is equivalent to the definition it has just advertised, except exactly where a plain
   * definition meets an entry that is not plain and agrees on address, protocol, port and headless values: that one
   * stays as it was.
   */
  lemma EquivalentExactly(s: SiteState, from: string, msg: seq<ServiceInterface>, now: int, n: string)
    requires InSync(s) && from != s.self && IsSiteTag(from)
    requires n in Index(msg, from) && (n !in s.registry || s.registry[n].origin == from)
    ensures var def, r := Index(msg, from)[n], Step(s, Update(from, msg, now)).registry;
      && n in r
      && (r[n].protocol == def.protocol && r[n].port == def.port && r[n].headless == def.headless &&
          r[n].eventChannel == def.eventChannel && r[n].aggregate == def.aggregate <==>
            !(n in s.registry && Agrees(s.registry[n], def) && Plain(def) && !Plain(s.registry[n])))
      && (r[n] == def || (n in s.registry && r[n] == s.registry[n] && Plain(def) && Agrees(r[n], def)))
  {
    var def := Index(msg, from)[n];
    IndexTags(msg, from);
    MergeAbsorbs(s, from, Index(msg, from), now, n);
    AbsorbedEquivalent(s.registry, from, n, def);
  }

  lemma AbsorbedEquivalent(r: Services, from: string, n: string, def: ServiceInterface)
    requires WellKeyed(r) && def.address == n && def.origin == from
    ensures EquivalentServiceDefinition(Absorbed(r, from, n, def), def) <==>
      !(n in r && Agrees(r[n], def) && Plain(def) && !Plain(r[n]))
  {
  }

  /** Such entries exist for every sender: one whose event channel the sender has dropped keeps it. */
  lemma DroppedEventChannel(self: string, from: string) returns (s: SiteState, msg: seq<ServiceInterface>, n: string)
    requires from != self && IsSiteTag(from)
    ensures InSync(s) && !s.pending && s.self == self && n in Index(msg, from)
    ensures var r := Step(s, Update(from, msg, 0)).registry;
      n in r && r[n].origin == from && r[n].eventChannel && !Index(msg, from)[n].eventChannel
  {
    n := "db";
    var def := ServiceInterface(n, "http", 80, false, "", None, [], from, "");
    s, msg := Start(self, map[n := def.(eventChannel := true)], 0), [def];
    StartInSync(self, map[n := def.(eventChannel := true)], 0);
    assert msg[..0] == [];
    assert Index(msg, from) == map[n := def];
    EquivalentExactly(s, from, msg, 0, n);
  }

  /** The two halves of a registry update touch different names, so their order does not matter. */
  lemma WriteOrderIrrelevant(s: SiteState, from: string, defs: Services)
    ensures Changed(s.byName, from, defs).Keys !! Withdrawn(s.byOrigin, from, defs)
    ensures s.registry + Changed(s.byName, from, defs) - Withdrawn(s.byOrigin, from, defs) ==
            (s.registry - Withdrawn(s.byOrigin, from, defs)) + Changed(s.byName, from, defs)
  {
  }

  /** Updates leave all local entries alone, whatever they say, exactly when their sender is a proper site tag. */
  lemma LocalEntriesSafe(from: string, self: string)
    requires from != self
    ensures from != "" && from != "annotation" <==>
      forall s: SiteState, msg, now, n |
        InSync(s) && s.self == self && n in s.registry && !IsRemote(s.registry[n]) ::
        SameAt(s.registry, Step(s, Update(from, msg, now)).registry, n)
  {
    if IsSiteTag(from) {
      forall s: SiteState, msg, now, n | InSync(s) && s.self == self && n in s.registry && !IsRemote(s.registry[n])
        ensures SameAt(s.registry, Step(s, Update(from, msg, now)).registry, n)
      {
        ExactMerge(s, from, msg, now);
      }
    } else {
      var mine := ServiceInterface("db", "tcp", 1, false, "", None, [], from, "");
      var s := Start(self, map["db" := mine], 0);
      StartInSync(self, map["db" := mine], 0);
      var msg := [mine.(port := 2)];
      assert msg[..0] == [];
      assert Index(msg, from) == map["db" := mine.(port := 2)];
      MergeAt(s, from, Index(msg, from), 0, "db");
      assert !SameAt(s.registry, Step(s, Update(from, msg, 0)).registry, "db");
    }
  }

  /** The age tick removes exactly the remote entries whose origin was last heard 60 seconds ago or earlier. */
  lemma ExactAge(s: SiteState, now: int)
    requires InSync(s)
    ensures var r := Step(s, Tick(now)).registry;
      && (forall n :: n in r ==> n in s.registry && r[n] == s.registry[n])
      && (forall n :: n in s.registry ==>
            var o := s.registry[n].origin;
            (n in r <==> !(IsRemote(s.registry[n]) && o in s.heardFrom && now - s.heardFrom[o] >= 60_000_000_000)))
  {
    forall n { AgeAt(s, now, n); }
  }

  // ---------------------------------------------------------------- quiescence

  lemma SecondMerge(t: SiteState, from: string, defs: Services)
    requires InSync(t) && IsSiteTag(from)
    requires forall n :: n in t.registry && t.registry[n].origin == from ==> n in defs && Agrees(t.registry[n], defs[n])
    requires forall n :: n in defs ==> n in t.registry
    ensures Withdrawn(t.byOrigin, from, defs) == {}
    ensures forall n :: n in Changed(t.byName, from, defs) <==>
      n in defs && t.registry[n].origin == from && !Plain(defs[n])
  {
  }

  lemma SecondUpdate(t: SiteState, from: string, msg: seq<ServiceInterface>, later: int)
    requires InSync(t) && !t.pending && IsSiteTag(from) && from != t.self
    requires var defs := Index(msg, from);
      && (forall n :: n in t.registry && t.registry[n].origin == from ==> n in defs && Agrees(t.registry[n], defs[n]))
      && (forall n :: n in defs ==> n in t.registry)
    ensures !Handle(t, Update(from, msg, later)).pending <==>
      forall n :: n in Index(msg, from) && t.registry[n].origin == from ==> Plain(Index(msg, from)[n])
  {
    var defs := Index(msg, from);
    SecondMerge(t, from, defs);
    var changed := Changed(t.byName, from, defs);
    assert changed != map[] <==> exists n :: n in changed;
  }

  /**
   * Hearing the same update again writes nothing exactly when every definition that the sender owns here is plain:
   * the name index forgets the event-channel and aggregate fields that the comparison looks at.
   */
  lemma Quiescence(s: SiteState, from: string, msg: seq<ServiceInterface>, now: int, later: int)
    requires InSync(s) && !s.pending && from != s.self && IsSiteTag(from)
    ensures var t, defs := Step(s, Update(from, msg, now)), Index(msg, from);
      !Handle(t, Update(from, msg, later)).pending <==>
      forall n :: n in defs && n in t.registry && t.registry[n].origin == from ==> Plain(defs[n])
  {
    var t, defs := Step(s, Update(from, msg, now)), Index(msg, from);
    StepInSync(s, Update(from, msg, now));
    ExactMerge(s, from, msg, now);
    AbsorbsAgrees(s.registry, t.registry, from, defs);
    SecondUpdate(t, from, msg, later);
  }

  /** What a site advertises, as its peers index it. */
  function Advertised(local: Services, from: string): Services {
    map n | n in local :: local[n].(origin := from)
  }

  lemma IndexOf(msg: seq<ServiceInterface>, from: string, si: ServiceInterface)
    requires si in msg
    ensures si.address in Index(msg, from)
  {
  }

  lemma IndexFrom(msg: seq<ServiceInterface>, from: string, n: string)
    requires n in Index(msg, from)
    ensures exists si :: si in msg && si.address == n && Index(msg, from)[n] == si.(origin := from)
  {
  }

  /** A message is indexed by address, and the last definition of an address counts, with the sender's tag. */
  lemma {:induction false} IndexMeans(msg: seq<ServiceInterface>, from: string, n: string)
    ensures n in Index(msg, from) <==> exists si :: si in msg && si.address == n
    ensures forall i :: 0 <= i < |msg| && msg[i].address == n && (forall j :: i < j < |msg| ==> msg[j].address != n) ==>
      n in Index(msg, from) && Index(msg, from)[n] == msg[i].(origin := from)
  {
    if msg != [] {
      var init, last := msg[..|msg| - 1], msg[|msg| - 1];
      assert msg == init + [last];
      IndexMeans(init, from, n);
      forall i | 0 <= i < |msg| && msg[i].address == n && forall j :: i < j < |msg| ==> msg[j].address != n
        ensures n in Index(msg, from) && Index(msg, from)[n] == msg[i].(origin := from)
      {
        if i < |init| {
          assert msg[|msg| - 1].address != n && init[i] == msg[i];
          forall j | i < j < |init| ensures init[j].address != n { assert init[j] == msg[j]; }
        }
      }
    }
  }

  /** Whatever order the sender lists its services in, the receiver indexes the same definitions. */
  lemma IndexAdvertised(msg: seq<ServiceInterface>, local: Services, from: string)
    requires WellKeyed(local) && Lists(msg, local)
    ensures Index(msg, from) == Advertised(local, from)
  {
    var defs, adv := Index(msg, from), Advertised(local, from);
    forall n | n in defs ensures n in adv && defs[n] == adv[n] {
      IndexFrom(msg, from, n);
    }
    forall n | n in adv ensures n in defs {
      assert local[n] in msg;
      IndexOf(msg, from, local[n]);
    }
  }

  /** An update built from a synchronised sender's local services is absorbed once and then writes nothing. */
  lemma SentUpdatesQuiesce(sender: SiteState, msg: seq<ServiceInterface>, s: SiteState, now: int, later: int)
    requires InSync(sender) && Lists(msg, sender.localServices)
    requires InSync(s) && !s.pending && sender.self != s.self && IsSiteTag(sender.self)
    ensures var t := Step(s, Update(sender.self, msg, now));
      !Handle(t, Update(sender.self, msg, later)).pending
  {
    IndexAdvertised(msg, sender.localServices, sender.self);
    Quiescence(s, sender.self, msg, now, later);
  }
}
