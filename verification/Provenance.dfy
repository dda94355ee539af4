/**
 * Where remote entries come from, over all runs of any number of sites. Nothing is assumed of the network or of the
 * order of handlers: messages may be lost, delayed, duplicated and reordered, the watcher may run at any time after a
 * write, and the command line may edit the registry in between.
 */
module Provenance {
  import opened ServiceTypes
  import opened SiteSync

  datatype Message = Message(origin: string, body: seq<ServiceInterface>)

  /** The sites and every message that was ever sent. */
  datatype World = World(sites: map<string, SiteState>, sent: set<Message>)

  datatype Action =
    | Send(site: string, body: seq<ServiceInterface>)
    | Receive(site: string, message: Message, at: int)
    | AgeTick(site: string, at: int)
    | Watcher(site: string)
    | CommandLine(site: string, after: Services)
    | Restart(site: string, at: int)

  /** Any edit whose entries are local definitions or old entries with other targets. Removals are free. */
  ghost predicate LooseEdit(before: Services, after: Services) {
    forall n :: n in after ==>
      || (after[n].address == n && !IsRemote(after[n]))
      || (n in before && after[n] == before[n].(targets := after[n].targets))
  }

  /** The watcher's effect without its effect on the origin index, which is left open here. */
  ghost predicate WatchedLoosely(s: SiteState, t: SiteState) {
    && t.self == s.self && t.registry == s.registry
    && t.localServices == LocalView(s.registry) && t.byName == NameView(s.registry)
  }

  ghost predicate SiteNext(w: World, a: Action, t: SiteState)
    requires a.site in w.sites
  {
    var s := w.sites[a.site];
    match a
    case Send(_, body) => Lists(body, s.localServices) && t == s
    case Receive(_, m, now) => m in w.sent && t == SiteSync.Receive(s, m.origin, m.body, now)
    case AgeTick(_, now) => t == Age(s, now)
    case Watcher(_) => WatchedLoosely(s, t)
    case CommandLine(_, after) => LooseEdit(s.registry, after) && t == Edit(s, after)
    case Restart(_, now) => t == Start(s.self, s.registry, now)
  }

  ghost predicate Next(w: World, a: Action, w': World) {
    && a.site in w.sites
    && w'.sites.Keys == w.sites.Keys
    && (forall v :: v in w.sites && v != a.site ==> w'.sites[v] == w.sites[v])
    && SiteNext(w, a, w'.sites[a.site])
    && w'.sent == if a.Send? then w.sent + {Message(a.site, a.body)} else w.sent
  }

  /** Freshly installed sites: local definitions at most, nothing indexed and nothing sent. */
  ghost predicate Fresh(w: World) {
    && w.sent == {}
    && forall v :: v in w.sites ==>
         && IsSiteTag(v) && w.sites[v].self == v
         && w.sites[v].localServices == map[] && WellKeyed(w.sites[v].registry)
         && forall n :: n in w.sites[v].registry ==> !IsRemote(w.sites[v].registry[n])
  }

  ghost predicate IsAction(ws: seq<World>, acts: seq<Action>, i: nat)
    requires |ws| == |acts| + 1 && i < |acts|
  {
    Next(ws[i], acts[i], ws[i + 1])
  }

  ghost predicate IsHistory(ws: seq<World>, acts: seq<Action>) {
    |ws| == |acts| + 1 && Fresh(ws[0]) && forall i: nat :: i < |acts| ==> IsAction(ws, acts, i)
  }

  ghost predicate HoldsLocally(w: World, o: string, n: string, si: ServiceInterface) {
    o in w.sites && n in w.sites[o].localServices && Agrees(si, w.sites[o].localServices[n])
  }

  /** At some point up to `i`, site `o` held `n` among its own services, with the values of `si`. */
  ghost predicate Held(ws: seq<World>, i: nat, o: string, n: string, si: ServiceInterface) {
    exists j :: 0 <= j <= i < |ws| && HoldsLocally(ws[j], o, n, si)
  }

  /** A definition without the fields that sites do not tell each other. */
  ghost predicate Bare(si: ServiceInterface) {
    !si.eventChannel && si.aggregate == "" && si.targets == [] && si.alias == ""
  }

  /** The same, but that the command line may have given it targets. */
  ghost predicate Foreign(si: ServiceInterface) {
    !si.eventChannel && si.aggregate == "" && si.alias == ""
  }

  ghost predicate SiteProven(ws: seq<World>, i: nat, v: string, s: SiteState) {
    && s.self == v
    && WellKeyed(s.registry)
    && WellKeyed(s.localServices)
    && (forall n :: n in s.localServices ==> !IsRemote(s.localServices[n]) && Bare(s.localServices[n]))
    && (forall n :: n in s.registry && IsRemote(s.registry[n]) ==>
          s.registry[n].origin != v && Foreign(s.registry[n]) && Held(ws, i, s.registry[n].origin, n, s.registry[n]))
  }

  ghost predicate MessageProven(ws: seq<World>, i: nat, m: Message) {
    && IsSiteTag(m.origin)
    && forall si :: si in m.body ==> !IsRemote(si) && Bare(si) && Held(ws, i, m.origin, si.address, si)
  }

  /** An entry after an update is the old one or the message's. */
  lemma ReceivedEntry(s: SiteState, m: Message, now: int, n: string)
    requires n in SiteSync.Receive(s, m.origin, m.body, now).registry
    ensures var e := SiteSync.Receive(s, m.origin, m.body, now).registry[n];
      || (n in s.registry && e == s.registry[n])
      || (m.origin != s.self && exists si :: si in m.body && si.address == n && e == si.(origin := m.origin))
  {
    var defs := Index(m.body, m.origin);
    if m.origin != s.self && n in Changed(s.byName, m.origin, defs) {
      IndexFrom(m.body, m.origin, n);
    }
  }

  lemma ReceiveProven(ws: seq<World>, i: nat, v: string, s: SiteState, m: Message, now: int)
    requires SiteProven(ws, i, v, s) && MessageProven(ws, i, m)
    ensures SiteProven(ws, i, v, SiteSync.Receive(s, m.origin, m.body, now))
  {
    var t := SiteSync.Receive(s, m.origin, m.body, now);
    forall n | n in t.registry
      ensures t.registry[n].address == n
      ensures IsRemote(t.registry[n]) ==>
        t.registry[n].origin != v && Foreign(t.registry[n]) && Held(ws, i, t.registry[n].origin, n, t.registry[n])
    {
      ReceivedEntry(s, m, now, n);
      if !(n in s.registry && t.registry[n] == s.registry[n]) {
        var si :| si in m.body && si.address == n && t.registry[n] == si.(origin := m.origin);
        HeldAnyOrigin(ws, i, m.origin, n, si, t.registry[n]);
      }
    }
  }

  lemma HeldAnyOrigin(ws: seq<World>, i: nat, o: string, n: string, si: ServiceInterface, si': ServiceInterface)
    requires Held(ws, i, o, n, si) && Agrees(si, si')
    ensures Held(ws, i, o, n, si')
  {
  }

  lemma EditProven(ws: seq<World>, i: nat, v: string, s: SiteState, after: Services)
    requires SiteProven(ws, i, v, s) && LooseEdit(s.registry, after)
    ensures SiteProven(ws, i, v, Edit(s, after))
  {
  }

  lemma SiteStepProven(ws: seq<World>, i: nat, w: World, a: Action, t: SiteState)
    requires a.site in w.sites && SiteNext(w, a, t) && SiteProven(ws, i, a.site, w.sites[a.site])
    requires a.Receive? ==> MessageProven(ws, i, a.message)
    ensures SiteProven(ws, i, a.site, t)
  {
    var s := w.sites[a.site];
    match a
    case Receive(_, m, now) => ReceiveProven(ws, i, a.site, s, m, now);
    case CommandLine(_, after) => EditProven(ws, i, a.site, s, after);
    case Send(_, _) =>
    case AgeTick(_, now) => assert t.registry.Keys <= s.registry.Keys;
    case Watcher(_) =>
    case Restart(_, _) =>
  }

  lemma SentProven(ws: seq<World>, i: nat, v: string, body: seq<ServiceInterface>)
    requires i < |ws| && v in ws[i].sites && IsSiteTag(v)
    requires SiteProven(ws, i, v, ws[i].sites[v]) && Lists(body, ws[i].sites[v].localServices)
    ensures MessageProven(ws, i, Message(v, body))
  {
  }

  ghost predicate WorldProven(ws: seq<World>, i: nat)
    requires i < |ws|
  {
    && (forall v {:trigger v in ws[i].sites} :: v in ws[i].sites ==>
          IsSiteTag(v) && SiteProven(ws, i, v, ws[i].sites[v]))
    && (forall m :: m in ws[i].sent ==> MessageProven(ws, i, m))
  }

  lemma SiteProvenLater(ws: seq<World>, i: nat, v: string, s: SiteState)
    requires i + 1 < |ws| && SiteProven(ws, i, v, s)
    ensures SiteProven(ws, i + 1, v, s)
  {
  }

  lemma MessageProvenLater(ws: seq<World>, i: nat, m: Message)
    requires i + 1 < |ws| && MessageProven(ws, i, m)
    ensures MessageProven(ws, i + 1, m)
  {
  }

  lemma NextProven(ws: seq<World>, acts: seq<Action>, i: nat)
    requires |ws| == |acts| + 1 && i < |acts| && IsAction(ws, acts, i) && WorldProven(ws, i)
    ensures WorldProven(ws, i + 1)
  {
    var w, a, w' := ws[i], acts[i], ws[i + 1];
    forall v | v in w'.sites ensures IsSiteTag(v) && SiteProven(ws, i + 1, v, w'.sites[v]) {
      if v == a.site { SiteStepProven(ws, i, w, a, w'.sites[v]); }
      SiteProvenLater(ws, i, v, w'.sites[v]);
    }
    forall m | m in w'.sent ensures MessageProven(ws, i + 1, m) {
      if m !in w.sent { SentProven(ws, i, a.site, a.body); }
      MessageProvenLater(ws, i, m);
    }
  }

  lemma {:induction false} HistoryProven(ws: seq<World>, acts: seq<Action>, i: nat)
    requires IsHistory(ws, acts) && i <= |acts|
    ensures WorldProven(ws, i)
  {
    if i > 0 {
      HistoryProven(ws, acts, i - 1);
      assert IsAction(ws, acts, i - 1);
      NextProven(ws, acts, i - 1);
    }
  }

  /**
   * An entry tagged with origin `o` has the values of a service that `o` once held as its own, and `o` is another
   * site.
   */
  lemma RemoteEntriesHaveOwners(ws: seq<World>, acts: seq<Action>, i: nat, v: string, n: string)
    requires IsHistory(ws, acts) && i <= |acts| && v in ws[i].sites && n in ws[i].sites[v].registry
    requires IsRemote(ws[i].sites[v].registry[n])
    ensures var e := ws[i].sites[v].registry[n]; e.origin != v && Held(ws, i, e.origin, n, e)
  {
    HistoryProven(ws, acts, i);
  }

  /** Whatever a site sends is untagged, so no site passes on what it learned from another. */
  lemma NeverReadvertises(ws: seq<World>, acts: seq<Action>, i: nat)
    requires IsHistory(ws, acts) && i < |acts| && acts[i].Send?
    ensures forall si :: si in acts[i].body ==> !IsRemote(si)
  {
    HistoryProven(ws, acts, i);
    assert IsAction(ws, acts, i);
    SentProven(ws, i, acts[i].site, acts[i].body);
  }

  /**
   * Event channels, aggregations, targets and aliases never travel: no message has one, and of another site's service
   * no site has one, except for targets that its own command line has set. So, in runs from fresh sites, no entry is
   * ever kept from its owner's definition by such a field.
   */
  lemma FlagsNeverTravel(ws: seq<World>, acts: seq<Action>, i: nat)
    requires IsHistory(ws, acts) && i <= |acts|
    ensures forall m, si :: m in ws[i].sent && si in m.body ==>
      !si.eventChannel && si.aggregate == "" && si.targets == [] && si.alias == ""
    ensures forall v, n :: v in ws[i].sites && n in ws[i].sites[v].registry && IsRemote(ws[i].sites[v].registry[n]) ==>
      var e := ws[i].sites[v].registry[n];
      !e.eventChannel && e.aggregate == "" && e.alias == ""
  {
    HistoryProven(ws, acts, i);
  }
}
