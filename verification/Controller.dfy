/**
 * The service controller: the handlers of its goroutines as methods that update its fields, each
 * proved to compute the step of SiteSync.dfy. Go's map iteration is a loop that takes the keys in an arbitrary order.
 */
module Controllers {
  import opened ServiceTypes
  import opened SiteSync
  import BindingTables
  import Bindings

  /** Every local name is held by at most one origin, so the order in which origins are visited cannot matter. */
  ghost predicate PareSafe(byOrigin: map<string, Services>, defs: Services) {
    forall n :: n in defs && !IsRemote(defs[n]) ==> AtMostOneHolder(byOrigin, n)
  }

  ghost predicate AtMostOneHolder(byOrigin: map<string, Services>, n: string) {
    forall o, p :: o in byOrigin && p in byOrigin && n in byOrigin[o] && n in byOrigin[p] ==> o == p
  }

  /** `service` has left the origin that held it, if one did. */
  ghost predicate Pared(before: map<string, Services>, after: map<string, Services>, service: string) {
    || ((forall o :: o in before ==> service !in before[o]) && after == before)
    || exists o :: o in before && service in before[o] && after == before[o := before[o] - {service}]
  }

  lemma ViewsAfterLocal(done: Services, n: string, si: ServiceInterface, o: string)
    requires n !in done && !IsRemote(si)
    ensures LocalView(done[n := si]) == LocalView(done)[n := Strip(si)]
    ensures OriginView(done[n := si], o) == OriginView(done, o)
  {
  }

  lemma ViewsAfterRemote(done: Services, n: string, si: ServiceInterface, o: string)
    requires n !in done && IsRemote(si)
    ensures LocalView(done[n := si]) == LocalView(done)
    ensures OriginView(done[n := si], o) ==
      if o == si.origin then OriginView(done, o)[n := Strip(si)] else OriginView(done, o)
  {
  }

  lemma LocalReindexedAt(byOrigin: map<string, Services>, done: Services, n: string, si: ServiceInterface, o: string)
    requires n !in done && !IsRemote(si)
    ensures ReindexedAt(byOrigin, done[n := si], o) == ReindexedAt(byOrigin, done, o) - {n}
  {
    ViewsAfterLocal(done, n, si, o);
    assert n !in OriginView(done, o);
    LessOne(HeldBy(byOrigin, o), LocalView(done).Keys, OriginView(done, o), n);
  }

  lemma LessOne(held: Services, local: set<string>, remote: Services, n: string)
    requires n !in remote
    ensures (held - (local + {n})) + remote == ((held - local) + remote) - {n}
  {
  }

  lemma RemoteReindexedAt(byOrigin: map<string, Services>, done: Services, n: string, si: ServiceInterface, o: string)
    requires n !in done && IsRemote(si)
    ensures ReindexedAt(byOrigin, done[n := si], o) ==
      if o == si.origin then ReindexedAt(byOrigin, done, o)[n := Strip(si)] else ReindexedAt(byOrigin, done, o)
  {
    ViewsAfterRemote(done, n, si, o);
    PlusOne(HeldBy(byOrigin, o) - LocalView(done).Keys, OriginView(done, o), n, Strip(si));
  }

  lemma PlusOne(kept: Services, remote: Services, n: string, si: ServiceInterface)
    ensures kept + remote[n := si] == (kept + remote)[n := si]
  {
  }

  lemma RemoteOriginsAfter(done: Services, n: string, si: ServiceInterface)
    requires n !in done
    ensures RemoteOrigins(done[n := si]) == RemoteOrigins(done) + if IsRemote(si) then {si.origin} else {}
  {
    var more := done[n := si];
    forall o | o in RemoteOrigins(done) ensures o in RemoteOrigins(more) {
      var m :| m in done && IsRemote(done[m]) && done[m].origin == o;
      assert more[m] == done[m];
    }
    if IsRemote(si) { assert more[n].origin in RemoteOrigins(more); }
  }

  lemma LocalReindex(byOrigin: map<string, Services>, done: Services, n: string, si: ServiceInterface)
    requires n !in done && !IsRemote(si)
    ensures var b, r := Reindex(byOrigin, done), Reindex(byOrigin, done[n := si]);
      r.Keys == b.Keys && forall o :: o in r ==> r[o] == b[o] - {n}
  {
    RemoteOriginsAfter(done, n, si);
    forall o | o in Reindex(byOrigin, done) { LocalReindexedAt(byOrigin, done, n, si, o); }
  }

  lemma RemoteReindex(byOrigin: map<string, Services>, done: Services, n: string, si: ServiceInterface)
    requires n !in done && IsRemote(si)
    ensures var b, r := Reindex(byOrigin, done), Reindex(byOrigin, done[n := si]);
      && r.Keys == b.Keys + {si.origin}
      && r[si.origin] == HeldBy(b, si.origin)[n := Strip(si)]
      && forall o :: o in b && o != si.origin ==> r[o] == b[o]
  {
    var b, r := Reindex(byOrigin, done), Reindex(byOrigin, done[n := si]);
    RemoteOriginsAfter(done, n, si);
    assert r.Keys == b.Keys + {si.origin};
    NewOriginEmpty(byOrigin, done, si.origin);
    RemoteReindexedAt(byOrigin, done, n, si, si.origin);
    forall o | o in b && o != si.origin ensures r[o] == b[o] {
      RemoteReindexedAt(byOrigin, done, n, si, o);
    }
  }

  lemma NewOriginEmpty(byOrigin: map<string, Services>, done: Services, o: string)
    ensures HeldBy(Reindex(byOrigin, done), o) == ReindexedAt(byOrigin, done, o)
  {
  }

  /** Where at most one origin can hold `n`, taking it from the first holder found is taking it from all. */
  lemma ParedEverywhere(b: map<string, Services>, after: map<string, Services>, n: string)
    requires Pared(b, after, n) && AtMostOneHolder(b, n)
    ensures after.Keys == b.Keys && forall o :: o in b ==> after[o] == b[o] - {n}
  {
  }

  /** The entries of `changed` put into the registry one after the other. */
  function PutAll(registry: Services, changed: seq<ServiceInterface>): Services {
    if changed == [] then registry
    else var last := changed[|changed| - 1]; PutAll(registry, changed[..|changed| - 1])[last.address := last]
  }

  ghost predicate Mentions(changed: seq<ServiceInterface>, n: string) {
    exists si :: si in changed && si.address == n
  }

  lemma {:induction false} PutAllAt(registry: Services, changed: seq<ServiceInterface>, defs: Services, n: string)
    requires forall si :: si in changed && si.address == n ==> n in defs && defs[n] == si
    ensures !Mentions(changed, n) ==> SameAt(registry, PutAll(registry, changed), n)
    ensures Mentions(changed, n) ==> n in PutAll(registry, changed) && PutAll(registry, changed)[n] == defs[n]
  {
    if changed != [] {
      var last, init := changed[|changed| - 1], changed[..|changed| - 1];
      PutAllAt(registry, init, defs, n);
      assert last in changed;
      if last.address != n && Mentions(changed, n) {
        var si :| si in changed && si.address == n;
        assert si in init;
      }
    }
  }

  lemma PutAllListed(registry: Services, changed: seq<ServiceInterface>, defs: Services)
    requires WellKeyed(defs) && Lists(changed, defs)
    ensures PutAll(registry, changed) == registry + defs
  {
    var r, goal := PutAll(registry, changed), registry + defs;
    forall n ensures SameAt(r, goal, n) {
      PutAllAt(registry, changed, defs, n);
      if n in defs { assert defs[n] in changed; }
    }
    assert r.Keys == goal.Keys by { forall n ensures n in r <==> n in goal { assert SameAt(r, goal, n); } }
    forall n | n in r ensures r[n] == goal[n] { assert SameAt(r, goal, n); }
  }

  /** Every remote definition is filed under its origin. */
  ghost predicate Filed(byOrigin: map<string, Services>, defs: Services) {
    forall n :: n in defs && IsRemote(defs[n]) ==> defs[n].origin in byOrigin && n in byOrigin[defs[n].origin]
  }

  lemma StillAtMostOne(b0: map<string, Services>, done: Services, n: string)
    requires n !in done && AtMostOneHolder(b0, n)
    ensures AtMostOneHolder(Reindex(b0, done), n)
  {
  }

  /** Visiting a local definition brings the index a step further. */
  lemma VisitLocal(b0: map<string, Services>, done: Services, n: string, si: ServiceInterface,
                   b: map<string, Services>, after: map<string, Services>)
    requires n !in done && !IsRemote(si) && b == Reindex(b0, done) && Pared(b, after, n) && AtMostOneHolder(b0, n)
    ensures after == Reindex(b0, done[n := si])
  {
    LocalReindex(b0, done, n, si);
    StillAtMostOne(b0, done, n);
    ParedEverywhere(b, after, n);
    SameMaps(after, Reindex(b0, done[n := si]));
  }

  lemma SameMaps(a: map<string, Services>, b: map<string, Services>)
    requires a.Keys == b.Keys && forall o :: o in a ==> a[o] == b[o]
    ensures a == b
  {
  }

  lemma FiledLocal(b: map<string, Services>, after: map<string, Services>, done: Services, n: string,
                   si: ServiceInterface)
    requires n !in done && !IsRemote(si) && Pared(b, after, n) && Filed(b, done)
    ensures Filed(after, done[n := si])
  {
  }

  lemma FiledRemote(b: map<string, Services>, done: Services, n: string, si: ServiceInterface)
    requires n !in done && IsRemote(si) && Filed(b, done)
    ensures Filed(b[si.origin := HeldBy(b, si.origin)[n := Strip(si)]], done[n := si])
  {
  }

  /** Visiting a remote definition does too. */
  lemma VisitRemote(b0: map<string, Services>, done: Services, n: string, si: ServiceInterface,
                    b: map<string, Services>)
    requires n !in done && IsRemote(si) && b == Reindex(b0, done)
    ensures b[si.origin := HeldBy(b, si.origin)[n := Strip(si)]] == Reindex(b0, done[n := si])
  {
    RemoteReindex(b0, done, n, si);
  }

  lemma VisitViews(done: Services, n: string, si: ServiceInterface)
    requires n !in done
    ensures LocalView(done[n := si]) == if IsRemote(si) then LocalView(done) else LocalView(done)[n := Strip(si)]
    ensures NameView(done[n := si]) == NameView(done)[n := Strip(si)]
  {
  }

  function Names(deleted: seq<string>): set<string> {
    set n | n in deleted
  }

  lemma NamesUpTo(deleted: seq<string>, i: nat)
    requires i < |deleted|
    ensures Names(deleted[..i + 1]) == Names(deleted[..i]) + {deleted[i]}
  {
  }

  /** The names of the silent origins among `visited`. */
  ghost function AgedAmong(s: SiteState, now: int, visited: set<string>): set<string> {
    set o, n | o in s.byOrigin && o in visited && Silent(s, o, now) && n in s.byOrigin[o] :: n
  }

  lemma AgedAmongOneMore(s: SiteState, now: int, visited: set<string>, o: string)
    requires o in s.byOrigin
    ensures AgedAmong(s, now, visited + {o}) ==
      AgedAmong(s, now, visited) + if Silent(s, o, now) then s.byOrigin[o].Keys else {}
  {
  }

  lemma AgedAmongAll(s: SiteState, now: int)
    ensures AgedAmong(s, now, s.byOrigin.Keys) == AgedNames(s, now)
    ensures AgedAmong(s, now, {}) == {}
  {
  }

  lemma OriginUpdated(b: map<string, Services>, from: string, gone: set<string>)
    ensures var b' := if from in b then b else b[from := map[]];
      b'[from := b'[from] - gone] == b[from := HeldBy(b, from) - gone]
  {
  }

  lemma NamesEmpty(deleted: seq<string>)
    ensures deleted == [] <==> Names(deleted) == {}
  {
    if deleted != [] { assert deleted[0] in Names(deleted); }
  }

  lemma ListsEmpty(msg: seq<ServiceInterface>, defs: Services)
    requires Lists(msg, defs)
    ensures msg == [] <==> defs == map[]
  {
    if msg != [] { assert msg[0] in msg; }
    if n :| n in defs { assert defs[n] in msg; }
  }

  lemma SameServices(a: Services, b: Services)
    requires a.Keys == b.Keys && forall n :: n in a ==> a[n] == b[n]
    ensures a == b
  {
  }

  lemma ReindexNothing(b: map<string, Services>)
    ensures Reindex(b, map[]) == b
  {
    forall o | o in b ensures ReindexedAt(b, map[], o) == b[o] {
      assert LocalView(map[]) == map[] && OriginView(map[], o) == map[];
    }
  }

  lemma MinusMinus(defs: Services, a: set<string>, b: set<string>)
    ensures defs - a - b == defs - (a + b)
  {
  }

  lemma ReadyForWatcher(s: SiteState, e: Event)
    requires InSync(s) && !s.pending && Enabled(s, e)
    ensures var t := Handle(s, e); WellKeyed(t.registry) && PareSafe(t.byOrigin, t.registry)
  {
    StepInSync(s, e);
    HandledDisjoint(s, e);
  }

  class Controller {
    const self: string
    var registry: Services                // the skupper-services file
    var pending: bool                     // it was written and the watcher has not run yet
    var byOrigin: map<string, Services>
    var localServices: Services
    var byName: Services
    var heardFrom: map<string, int>
    const table: BindingTables.BindingTable

    ghost function State(): SiteState
      reads this
    {
      SiteState(self, registry, pending, byOrigin, localServices, byName, heardFrom)
    }

    /** The bindings are apart from the protocol's state. */
    ghost predicate Ready()
      reads table, table.Repr
    {
      table.Valid() && this !in table.Repr
    }

    constructor (self: string, initial: Services)
      ensures State() == SiteState(self, initial, true, map[], map[], map[], map[])
      ensures Ready() && table.Value() == map[] && fresh(table.Repr)
    {
      this.self, registry, pending := self, initial, true;
      byOrigin, localServices, byName, heardFrom := map[], map[], map[], map[];
      table := new BindingTables.BindingTable();
    }

    method FileUnderOrigin(name: string, service: ServiceInterface)
      modifies this`byOrigin
      ensures byOrigin == old(byOrigin)[service.origin := HeldBy(old(byOrigin), service.origin)[name := service]]
    {
      if service.origin !in byOrigin {
        byOrigin := byOrigin[service.origin := map[]];
      }
      byOrigin := byOrigin[service.origin := byOrigin[service.origin][name := service]];
    }

    method PareByOrigin(service: string)
      modifies this`byOrigin
      ensures Pared(old(byOrigin), byOrigin, service)
    {
      var todo := byOrigin.Keys;
      while todo != {}
        invariant byOrigin == old(byOrigin) && todo <= byOrigin.Keys
        invariant forall o :: o in byOrigin && o !in todo ==> service !in byOrigin[o]
        decreases todo
      {
        var origin :| origin in todo;
        todo := todo - {origin};
        if service in byOrigin[origin] {
          byOrigin := byOrigin[origin := byOrigin[origin] - {service}];
          return;
        }
      }
    }

    /**
     * The indexes `latest` and `names` are the projections of the definitions `done` and every remote name is filed
     * under its origin; if pruning was safe, the origin index is the one that SiteSync computes from `b0`.
     */
    ghost predicate Built(latest: Services, names: Services, done: Services, b0: map<string, Services>, safe: bool)
      reads this
    {
      && latest == LocalView(done) && names == NameView(done)
      && Filed(byOrigin, done)
      && (safe ==> byOrigin == Reindex(b0, done))
    }

    /** The visit of one definition. */
    method IndexDefinition(name: string, original: ServiceInterface, latest: Services, names: Services,
                           ghost done: Services, ghost b0: map<string, Services>, ghost safe: bool)
      returns (latest': Services, names': Services)
      requires name !in done && original.address == name && Built(latest, names, done, b0, safe)
      requires safe && !IsRemote(original) ==> AtMostOneHolder(b0, name)
      modifies this`byOrigin
      ensures Built(latest', names', done[name := original], b0, safe)
    {
      latest' := latest;
      var service := Strip(original);
      VisitViews(done, name, original);
      if IsRemote(service) {
        if safe { VisitRemote(b0, done, name, original, byOrigin); }
        FiledRemote(byOrigin, done, name, original);
        FileUnderOrigin(name, service);
      } else {
        latest' := latest'[service.address := service];
        ghost var b := byOrigin;
        PareByOrigin(service.address);
        FiledLocal(b, byOrigin, done, name, original);
        if safe { VisitLocal(b0, done, name, original, b, byOrigin); }
      }
      names' := names[service.address := service];
    }

    /**
     * Rebuilding the indexes from a registry. The two projections and the filing of remote names hold for every order
     * of iteration; where no local name is held twice, the origin index does not depend on it either.
     */
    method ServiceSyncDefinitionsUpdated(definitions: Services)
      requires WellKeyed(definitions)
      modifies this`byOrigin, this`localServices, this`byName
      ensures Built(localServices, byName, definitions, old(byOrigin), PareSafe(old(byOrigin), definitions))
    {
      var latest, names := IndexDefinitions(definitions);
      localServices := latest;
      byName := names;
    }

    method IndexDefinitions(definitions: Services) returns (latest: Services, names: Services)
      requires WellKeyed(definitions)
      modifies this`byOrigin
      ensures Built(latest, names, definitions, old(byOrigin), PareSafe(old(byOrigin), definitions))
    {
      ghost var b0, safe := byOrigin, PareSafe(byOrigin, definitions);
      ghost var done: Services := map[];
      latest, names := map[], map[];
      var todo := definitions.Keys;
      BuiltNothing();
      while todo != {}
        invariant todo <= definitions.Keys && done.Keys == definitions.Keys - todo
        invariant forall n :: n in done ==> done[n] == definitions[n]
        invariant Built(latest, names, done, b0, safe)
        decreases todo
      {
        var name :| name in todo;
        todo := todo - {name};
        latest, names := IndexDefinition(name, definitions[name], latest, names, done, b0, safe);
        done := done[name := definitions[name]];
      }
      SameServices(done, definitions);
    }

    /** Reads, edits and rewrites the registry file, unless there is nothing to do. */
    method UpdateSkupperServices(changed: seq<ServiceInterface>, deleted: seq<string>)
      modifies this`registry, this`pending
      ensures registry == PutAll(old(registry), changed) - Names(deleted)
      ensures pending == (old(pending) || changed != [] || deleted != [])
    {
      if changed == [] && deleted == [] {
        return;
      }
      var current := registry;
      for i := 0 to |changed|
        invariant current == PutAll(old(registry), changed[..i])
      {
        assert changed[..i + 1][..i] == changed[..i];
        current := current[changed[i].address := changed[i]];
      }
      assert changed[..|changed|] == changed;
      for i := 0 to |deleted|
        invariant current == PutAll(old(registry), changed) - Names(deleted[..i])
      {
        NamesUpTo(deleted, i);
        current := current - {deleted[i]};
      }
      assert deleted[..|deleted|] == deleted;
      registry, pending := current, true;
    }

    /** The definitions that are new here or differ from what the name index holds for `from`. */
    method FindChanged(from: string, defs: Services) returns (changed: seq<ServiceInterface>)
      requires WellKeyed(defs)
      ensures Lists(changed, Changed(byName, from, defs))
    {
      changed := [];
      var todo := defs.Keys;
      while todo != {}
        invariant todo <= defs.Keys
        invariant forall si :: si in changed <==>
          exists n :: n in Changed(byName, from, defs) && n !in todo && defs[n] == si
        decreases todo
      {
        var name :| name in todo;
        todo := todo - {name};
        var def := defs[name];
        if def.address !in byName ||
           (byName[def.address].origin == from && !EquivalentServiceDefinition(def, byName[def.address])) {
          changed := changed + [def];
        }
      }
    }

    /** The names of `from` that its new definitions no longer mention. */
    method FindWithdrawn(from: string, defs: Services) returns (deleted: seq<string>)
      ensures forall n :: n in deleted <==> n in Withdrawn(byOrigin, from, defs)
    {
      deleted := [];
      if from in byOrigin {
        var todo := byOrigin[from].Keys;
        while todo != {}
          invariant todo <= byOrigin[from].Keys
          invariant forall n :: n in deleted <==> n in byOrigin[from] && n !in todo && n !in defs
          decreases todo
        {
          var name :| name in todo;
          todo := todo - {name};
          if name !in defs {
            deleted := deleted + [name];
          }
        }
      }
    }

    /** Reconciling the definitions that a peer advertises. The caller has keyed them by address. */
    method EnsureServiceInterfaceDefinitions(from: string, defs: Services, now: int)
      requires WellKeyed(defs)
      modifies this`registry, this`pending, this`byOrigin, this`heardFrom
      ensures State() == Merge(old(State()), from, defs, now)
    {
      ghost var goal, gone := Changed(byName, from, defs), Withdrawn(byOrigin, from, defs);
      heardFrom := heardFrom[from := now];
      var changed := FindChanged(from, defs);
      var deleted := FindWithdrawn(from, defs);
      assert Names(deleted) == gone;
      OriginUpdated(byOrigin, from, gone);
      if from !in byOrigin {
        byOrigin := byOrigin[from := map[]];
      }
      Apply(from, changed, deleted, goal);
    }

    /** The registry edit and, unless there is nothing to edit, the pruning of the origin index after it. */
    method Apply(from: string, changed: seq<ServiceInterface>, deleted: seq<string>, ghost goal: Services)
      requires from in byOrigin && WellKeyed(goal) && Lists(changed, goal)
      modifies this`registry, this`pending, this`byOrigin
      ensures registry == old(registry) + goal - Names(deleted)
      ensures pending == (old(pending) || goal != map[] || Names(deleted) != {})
      ensures byOrigin == old(byOrigin)[from := old(byOrigin)[from] - Names(deleted)]
    {
      ListsEmpty(changed, goal);
      NamesEmpty(deleted);
      PutAllListed(registry, changed, goal);
      if changed == [] && deleted == [] {
        assert byOrigin[from] - {} == byOrigin[from];
        assert registry + map[] - {} == registry;
        return;
      }
      UpdateSkupperServices(changed, deleted);
      ForgetNames(from, deleted);
    }

    method ForgetNames(from: string, deleted: seq<string>)
      requires from in byOrigin
      modifies this`byOrigin
      ensures byOrigin == old(byOrigin)[from := old(byOrigin)[from] - Names(deleted)]
    {
      for i := 0 to |deleted|
        invariant byOrigin.Keys == old(byOrigin).Keys
        invariant byOrigin[from] == old(byOrigin)[from] - Names(deleted[..i])
        invariant forall o :: o in byOrigin && o != from ==> byOrigin[o] == old(byOrigin)[o]
      {
        NamesUpTo(deleted, i);
        byOrigin := byOrigin[from := byOrigin[from] - {deleted[i]}];
      }
      assert deleted[..|deleted|] == deleted;
    }

    /** An update message: its definitions are tagged with the sender and keyed by address. */
    method ReceiveUpdate(from: string, msg: seq<ServiceInterface>, now: int)
      modifies this`registry, this`pending, this`byOrigin, this`heardFrom
      ensures State() == Receive(old(State()), from, msg, now)
    {
      if from != self {
        var indexed: Services := map[];
        for i := 0 to |msg|
          invariant indexed == Index(msg[..i], from)
        {
          assert msg[..i + 1][..i] == msg[..i];
          var def := msg[i].(origin := from);
          indexed := indexed[def.address := def];
        }
        assert msg[..|msg|] == msg;
        IndexTags(msg, from);
        EnsureServiceInterfaceDefinitions(from, indexed, now);
      }
    }

    /** The message of the send tick. */
    method SendLocal() returns (local: seq<ServiceInterface>)
      ensures Lists(local, localServices) && |local| == |localServices|
    {
      local := [];
      var todo := localServices.Keys;
      while todo != {}
        invariant todo <= localServices.Keys && |local| + |todo| == |localServices.Keys|
        invariant forall si :: si in local <==> exists n :: n in localServices && n !in todo && localServices[n] == si
        decreases todo
      {
        var name :| name in todo;
        todo := todo - {name};
        local := local + [localServices[name]];
      }
    }

    lemma BuiltNothing()
      ensures Built(map[], map[], map[], byOrigin, true)
    {
      ReindexNothing(byOrigin);
    }

    /** The names that an origin holds, in some order. */
    method ListNames(origin: string) returns (names: seq<string>)
      requires origin in byOrigin
      ensures Names(names) == byOrigin[origin].Keys
    {
      names := [];
      var todo := byOrigin[origin].Keys;
      while todo != {}
        invariant todo <= byOrigin[origin].Keys && Names(names) == byOrigin[origin].Keys - todo
        decreases todo
      {
        var name :| name in todo;
        todo := todo - {name};
        names := names + [name];
        assert names[..|names|] == names;
        NamesUpTo(names, |names| - 1);
      }
    }

    /** The registry half of ageing one origin, if it has been silent. */
    method AgeOrigin(origin: string, now: int) returns (aged: bool)
      requires origin in byOrigin
      modifies this`registry, this`pending
      ensures aged == Silent(old(State()), origin, now)
      ensures registry == old(registry) - if aged then byOrigin[origin].Keys else {}
      ensures pending == (old(pending) || (aged && byOrigin[origin].Keys != {}))
    {
      aged := origin in heardFrom && now - heardFrom[origin] >= AGE_LIMIT;
      if aged {
        var deleted := ListNames(origin);
        NamesEmpty(deleted);
        if |deleted| > 0 {
          UpdateSkupperServices([], deleted);
        }
      }
    }

    /** Silent origins lose their registry entries, whatever order the origins are visited in. */
    method AgeRegistry(now: int) returns (agedOrigins: set<string>)
      modifies this`registry, this`pending
      ensures agedOrigins == AgedOrigins(old(State()), now)
      ensures registry == old(registry) - AgedNames(old(State()), now)
      ensures pending == (old(pending) || AgedNames(old(State()), now) != {})
    {
      ghost var s := State();
      agedOrigins := {};
      var todo := byOrigin.Keys;
      ghost var visited: set<string> := {};
      ghost var gone: set<string> := {};
      AgedAmongAll(s, now);
      while todo != {}
        invariant visited + todo == byOrigin.Keys && visited !! todo
        invariant gone == AgedAmong(s, now, visited)
        invariant registry == s.registry - gone && pending == (s.pending || gone != {})
        invariant agedOrigins == set o | o in visited && Silent(s, o, now)
        decreases todo
      {
        var origin :| origin in todo;
        todo := todo - {origin};
        AgedAmongOneMore(s, now, visited, origin);
        visited := visited + {origin};
        var aged := AgeOrigin(origin, now);
        if aged {
          agedOrigins := agedOrigins + {origin};
          MinusMinus(s.registry, gone, byOrigin[origin].Keys);
          gone := gone + byOrigin[origin].Keys;
        } else {
          assert registry - {} == registry;
        }
      }
      assert visited == byOrigin.Keys;
    }

    /** The age tick: silent origins lose their registry entries, then their place in the indexes. */
    method AgeOrigins(now: int)
      modifies this`registry, this`pending, this`byOrigin, this`heardFrom
      ensures State() == Age(old(State()), now)
    {
      var agedOrigins := AgeRegistry(now);
      heardFrom := heardFrom - agedOrigins;
      byOrigin := byOrigin - agedOrigins;
    }

    /** The watcher's step: the indexes and the bindings follow the registry. */
    method ProcessServiceDefs()
      requires WellKeyed(registry) && Ready()
      modifies this`pending, this`byOrigin, this`localServices, this`byName, table.Repr
      ensures localServices == LocalView(registry) && byName == NameView(registry) && Filed(byOrigin, registry)
      ensures PareSafe(old(byOrigin), registry) ==> State() == Watch(old(State()))
      ensures Ready() && fresh(table.Repr - old(table.Repr))
      ensures table.Value() == Bindings.Processed(old(table.Value()), registry)
    {
      ghost var before := table.Value();
      pending := false;
      ServiceSyncDefinitionsUpdated(registry);
      assert table.Value() == before;
      table.ProcessDefinitions(registry);
    }

    /** Start-up, as far as the watcher's loop: every indexed origin but the site's own counts as heard from now. */
    method StartWatcher(now: int)
      requires pending && byOrigin == map[] && localServices == map[] && byName == map[] && heardFrom == map[]
      requires WellKeyed(registry) && Ready()
      modifies this, table.Repr
      ensures State() == Start(self, old(registry), now)
      ensures Ready() && table.Value() == Bindings.Processed(old(table.Value()), registry)
    {
      ProcessServiceDefs();
      MarkHeard(now);
    }

    method MarkHeard(now: int)
      requires heardFrom == map[] && Ready()
      modifies this`heardFrom
      ensures heardFrom == map o | o in byOrigin && o != self :: now
      ensures Ready() && table.Value() == old(table.Value())
    {
      var todo := byOrigin.Keys;
      while todo != {}
        invariant todo <= byOrigin.Keys
        invariant heardFrom == map o | o in byOrigin && o != self && o !in todo :: now
        decreases todo
      {
        var origin :| origin in todo;
        todo := todo - {origin};
        if origin != self {
          heardFrom := heardFrom[origin := now];
        }
      }
    }

    /** The handler of an event. A local edit is the command line's write to the file. */
    method React(e: Event)
      modifies this`registry, this`pending, this`byOrigin, this`heardFrom
      ensures State() == Handle(old(State()), e)
    {
      match e {
        case Update(from, msg, now) => ReceiveUpdate(from, msg, now);
        case Tick(now) => AgeOrigins(now);
        case Local(after, _) => registry, pending := after, true;
      }
    }

    /** The watcher runs if the file was written. */
    method SettleRegistry()
      requires Ready() && WellKeyed(registry) && PareSafe(byOrigin, registry)
      modifies this`pending, this`byOrigin, this`localServices, this`byName, table.Repr
      ensures Ready() && State() == Settle(old(State()))
      ensures table.Value() ==
        if old(pending) then Bindings.Processed(old(table.Value()), registry) else old(table.Value())
    {
      if pending {
        ProcessServiceDefs();
      }
    }

    /**
     * One event and, if it wrote the registry, the watcher's step after it: from a synchronised state this is the
     * step that the theorems about runs speak of.
     */
    method Take(e: Event)
      requires InSync(State()) && !pending && Enabled(State(), e) && Ready()
      modifies this, table.Repr
      ensures Ready() && State() == Step(old(State()), e)
      ensures table.Value() == if Handle(old(State()), e).pending
        then Bindings.Processed(old(table.Value()), registry) else old(table.Value())
    {
      ReadyForWatcher(State(), e);
      React(e);
      assert table.Value() == old(table.Value());
      SettleRegistry();
    }
  }
}
