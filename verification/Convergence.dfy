/**
 * Any number of sites whose local definitions are stable, exchanging updates. A theorem says of every schedule of
 * updates and age ticks exactly when it leaves a site with what its peers define; rounds of updates are special
 * cases.
 */
module Convergence {
  import opened ServiceTypes
  import opened SiteSync

  type System = map<string, SiteState>

  /** Site `to` takes an event that `from` has caused: an update of `from`, or an age tick of its own. */
  datatype Delivery = Delivery(from: string, to: string, event: Event)

  function Deliver(sys: System, d: Delivery): System
    requires d.to in sys
  {
    sys[d.to := Step(sys[d.to], d.event)]
  }

  /** An update lists, in some order, what its sender advertises now; a tick finds no live site silent. */
  ghost predicate Current(sys: System, d: Delivery) {
    && d.from in sys && d.to in sys
    && match d.event
       case Update(from, msg, _) => from == d.from && Lists(msg, sys[d.from].localServices)
       case Tick(now) =>
         d.from == d.to && forall o :: o in sys[d.to].byOrigin && Silent(sys[d.to], o, now) ==> o !in sys
       case Local(_, _) => false
  }

  ghost predicate IsDelivery(ws: seq<System>, ds: seq<Delivery>, i: nat)
    requires |ws| == |ds| + 1 && i < |ds|
  {
    Current(ws[i], ds[i]) && ws[i + 1] == Deliver(ws[i], ds[i])
  }

  /** `ws[i]` is the system before delivery `ds[i]`. */
  ghost predicate IsSchedule(ws: seq<System>, ds: seq<Delivery>) {
    |ws| == |ds| + 1 && forall i: nat :: i < |ds| ==> IsDelivery(ws, ds, i)
  }

  /** Local services are the untagged entries, stripped of event channel and aggregation. */
  ghost predicate TidySite(sys: System, v: string)
    requires v in sys
  {
    && IsSiteTag(v)
    && (forall n :: n in sys[v].localServices <==> n in sys[v].registry && !IsRemote(sys[v].registry[n]))
    && (forall n :: n in sys[v].localServices ==> Plain(sys[v].localServices[n]))
  }

  /** Besides, no two sites define the same name. */
  ghost predicate Tidy(sys: System) {
    && (forall v {:trigger TidySite(sys, v)} :: v in sys ==> TidySite(sys, v))
    && (forall v, w, n :: v in sys && w in sys && n in sys[v].localServices && n in sys[w].localServices ==> v == w)
  }

  /** A system of sites as their handlers leave them. */
  ghost predicate Healthy(sys: System) {
    Tidy(sys) && forall v {:trigger SettledSite(sys, v)} :: v in sys ==> SettledSite(sys, v)
  }

  ghost predicate SettledSite(sys: System, v: string)
    requires v in sys
  {
    sys[v].self == v && InSync(sys[v]) && !sys[v].pending
  }

  // ---------------------------------------------------------------- what one delivery does

  /** An age tick finds origin `o` silent. */
  predicate AgesOut(s: SiteState, e: Event, o: string) {
    e.Tick? && Silent(s, o, e.at)
  }

  /** The entries that are lost are the tagged ones whose origin ages out, and their origins are outside `sites`. */
  ghost predicate Forgets(s: SiteState, r': Services, e: Event, sites: set<string>) {
    && (forall n :: n in r' ==> n in s.registry && r'[n] == s.registry[n])
    && (forall n :: n in s.registry && n !in r' ==> IsRemote(s.registry[n]) && s.registry[n].origin !in sites)
    && (forall n :: n in s.registry && IsRemote(s.registry[n]) ==>
          (n in r' <==> !AgesOut(s, e, s.registry[n].origin)))
  }

  /** What an event that `from` has caused does to the registry of site `to`. */
  ghost predicate Changes(s: SiteState, r': Services, to: string, from: string, e: Event,
                          sites: set<string>, mine: Services) {
    if from == to then Forgets(s, r', e, sites) else e.Update? && Absorbs(s.registry, r', from, mine)
  }

  ghost predicate Delivered(sys: System, d: Delivery, sys': System) {
    && sys'.Keys == sys.Keys && d.from in sys && d.to in sys
    && (forall v :: v in sys ==> sys'[v].localServices == sys[v].localServices)
    && (forall v :: v in sys && v != d.to ==> sys'[v].registry == sys[v].registry)
    && Changes(sys[d.to], sys'[d.to].registry, d.to, d.from, d.event, sys.Keys, sys[d.from].localServices)
  }

  lemma AbsorbsUntagged(r: Services, r': Services, from: string, mine: Services)
    requires Absorbs(r, r', from, Advertised(mine, from))
    ensures Absorbs(r, r', from, mine)
  {
  }

  lemma AbsorbsUpdate(s: SiteState, from: string, msg: seq<ServiceInterface>, now: int, mine: Services)
    requires InSync(s) && from != s.self && IsSiteTag(from) && WellKeyed(mine) && Lists(msg, mine)
    ensures Absorbs(s.registry, Step(s, Update(from, msg, now)).registry, from, mine)
  {
    IndexAdvertised(msg, mine, from);
    ExactMerge(s, from, msg, now);
    AbsorbsUntagged(s.registry, Step(s, Update(from, msg, now)).registry, from, mine);
  }

  lemma LocalViewStable(s: SiteState, t: SiteState, from: string, mine: Services)
    requires InSync(s) && InSync(t) && IsSiteTag(from)
    requires Absorbs(s.registry, t.registry, from, mine)
    ensures t.localServices == s.localServices
  {
    SameLocalView(s.registry, t.registry, from, mine);
  }

  lemma SameLocalView(r: Services, r': Services, from: string, mine: Services)
    requires IsSiteTag(from) && Absorbs(r, r', from, mine)
    ensures LocalView(r') == LocalView(r)
  {
  }

  lemma ForgetfulLocals(s: SiteState, r': Services, e: Event, sites: set<string>)
    requires Forgets(s, r', e, sites)
    ensures LocalView(r') == LocalView(s.registry)
  {
  }

  /** An age tick that finds no live site silent forgets nothing else either. */
  lemma TickForgets(s: SiteState, now: int, sites: set<string>)
    requires InSync(s) && forall o :: o in s.byOrigin && Silent(s, o, now) ==> o !in sites
    ensures Forgets(s, Age(s, now).registry, Tick(now), sites)
  {
    forall n { AgeAt(s, now, n); }
  }

  lemma TickKeepsLocals(s: SiteState, now: int, sites: set<string>)
    requires InSync(s) && !s.pending && forall o :: o in s.byOrigin && Silent(s, o, now) ==> o !in sites
    ensures Forgets(s, Step(s, Tick(now)).registry, Tick(now), sites)
    ensures Step(s, Tick(now)).localServices == s.localServices
  {
    TickForgets(s, now, sites);
    ForgetfulLocals(s, Age(s, now).registry, Tick(now), sites);
  }

  lemma StepChanges(s: SiteState, from: string, e: Event, sites: set<string>, mine: Services)
    requires InSync(s) && !s.pending && IsSiteTag(from) && WellKeyed(mine)
    requires match e
      case Update(sender, msg, _) => sender == from && Lists(msg, mine)
      case Tick(now) => from == s.self && forall o :: o in s.byOrigin && Silent(s, o, now) ==> o !in sites
      case Local(_, _) => false
    ensures Changes(s, Step(s, e).registry, s.self, from, e, sites, mine) && Step(s, e).localServices == s.localServices
  {
    if e.Tick? {
      TickKeepsLocals(s, e.at, sites);
    } else if from != s.self {
      StepInSync(s, e);
      AbsorbsUpdate(s, from, e.msg, e.at, mine);
      LocalViewStable(s, Step(s, e), from, mine);
    }
  }

  lemma UpdatedDelivered(sys: System, d: Delivery, t: SiteState)
    requires d.from in sys && d.to in sys && t.localServices == sys[d.to].localServices
    requires Changes(sys[d.to], t.registry, d.to, d.from, d.event, sys.Keys, sys[d.from].localServices)
    ensures Delivered(sys, d, sys[d.to := t])
  {
  }

  lemma DeliverDelivers(sys: System, d: Delivery)
    requires Healthy(sys) && Current(sys, d)
    ensures Delivered(sys, d, Deliver(sys, d))
    ensures InSync(Deliver(sys, d)[d.to]) && !Deliver(sys, d)[d.to].pending && Deliver(sys, d)[d.to].self == d.to
  {
    assert TidySite(sys, d.from) && SettledSite(sys, d.from) && SettledSite(sys, d.to);
    StepInSync(sys[d.to], d.event);
    StepChanges(sys[d.to], d.from, d.event, sys.Keys, sys[d.from].localServices);
    UpdatedDelivered(sys, d, Step(sys[d.to], d.event));
  }

  lemma DeliveredTidy(sys: System, d: Delivery, sys': System)
    requires Tidy(sys) && Delivered(sys, d, sys')
    ensures Tidy(sys')
  {
    assert TidySite(sys, d.from);
    forall v | v in sys' ensures TidySite(sys', v) {
      assert TidySite(sys, v);
    }
  }

  lemma DeliverHealthy(sys: System, d: Delivery)
    requires Healthy(sys) && Current(sys, d)
    ensures Healthy(Deliver(sys, d)) && Delivered(sys, d, Deliver(sys, d))
  {
    var sys' := Deliver(sys, d);
    DeliverDelivers(sys, d);
    DeliveredTidy(sys, d, sys');
    forall v | v in sys' ensures SettledSite(sys', v) {
      assert SettledSite(sys, v);
    }
  }

  ghost predicate IsEffect(ws: seq<System>, ds: seq<Delivery>, i: nat)
    requires |ws| == |ds| + 1 && i < |ds|
  {
    Tidy(ws[i]) && Tidy(ws[i + 1]) && Delivered(ws[i], ds[i], ws[i + 1])
  }

  /** A schedule seen only through the effect of its deliveries. */
  ghost predicate IsTrace(ws: seq<System>, ds: seq<Delivery>) {
    |ws| == |ds| + 1 && forall i: nat :: i < |ds| ==> IsEffect(ws, ds, i)
  }

  lemma {:induction false} ScheduleHealthy(ws: seq<System>, ds: seq<Delivery>, i: nat)
    requires IsSchedule(ws, ds) && Healthy(ws[0]) && i <= |ds|
    ensures Healthy(ws[i]) && ws[i].Keys == ws[0].Keys
    ensures i < |ds| ==> Delivered(ws[i], ds[i], ws[i + 1])
    ensures forall v :: v in ws[0] ==> ws[i][v].localServices == ws[0][v].localServices
  {
    if i > 0 {
      ScheduleHealthy(ws, ds, i - 1);
      assert IsDelivery(ws, ds, i - 1);
      DeliverHealthy(ws[i - 1], ds[i - 1]);
    }
    if i < |ds| {
      assert IsDelivery(ws, ds, i);
      DeliverHealthy(ws[i], ds[i]);
    }
  }

  lemma ScheduleTidy(ws: seq<System>, ds: seq<Delivery>, i: nat)
    requires IsSchedule(ws, ds) && Healthy(ws[0]) && i <= |ds|
    ensures Tidy(ws[i]) && (i < |ds| ==> Delivered(ws[i], ds[i], ws[i + 1]))
  {
    ScheduleHealthy(ws, ds, i);
  }

  lemma ScheduleIsTrace(ws: seq<System>, ds: seq<Delivery>)
    requires IsSchedule(ws, ds) && Healthy(ws[0])
    ensures IsTrace(ws, ds)
  {
    forall i: nat | i < |ds| ensures IsEffect(ws, ds, i) {
      ScheduleTidy(ws, ds, i);
      ScheduleTidy(ws, ds, i + 1);
    }
  }

  lemma {:induction false} TraceLocals(ws: seq<System>, ds: seq<Delivery>, i: nat)
    requires IsTrace(ws, ds) && i <= |ds|
    ensures ws[i].Keys == ws[0].Keys && forall v :: v in ws[0] ==> ws[i][v].localServices == ws[0][v].localServices
  {
    if i > 0 {
      TraceLocals(ws, ds, i - 1);
      assert IsEffect(ws, ds, i - 1);
    }
  }

  // ---------------------------------------------------------------- one name and one delivery

  ghost predicate IsPeer(sys: System, q: string, v: string) {
    q in sys && q != v
  }

  /** `v`'s peer `q` has `n` among its own services. */
  ghost predicate Defines(sys: System, q: string, v: string, n: string) {
    IsPeer(sys, q, v) && n in sys[q].localServices
  }

  ghost predicate Defined(sys: System, v: string, n: string) {
    exists q :: Defines(sys, q, v, n)
  }

  /** `v` attributes `n` to the peer that defines it, and with its values. */
  ghost predicate Right(sys: System, v: string, n: string)
    requires v in sys
  {
    var r := sys[v].registry;
    n in r && Defines(sys, r[n].origin, v, n) && Agrees(r[n], sys[r[n].origin].localServices[n])
  }

  /** `v` has a tagged entry for `n` under a name that is not that of a peer which defines it. */
  ghost predicate Wrong(sys: System, v: string, n: string)
    requires v in sys
  {
    n in sys[v].registry && IsRemote(sys[v].registry[n]) && !Defines(sys, sys[v].registry[n].origin, v, n)
  }

  ghost predicate Serves(d: Delivery, q: string, v: string) {
    d.from == q && d.to == v
  }

  /**
   * The delivery removes what `v` wrongly has under tag `o`: a peer's update does, and else an age tick that finds
   * `o` silent.
   */
  ghost predicate Drops(sys: System, d: Delivery, v: string, o: string) {
    && v in sys && d.to == v
    && if IsPeer(sys, o, v) then d.from == o else d.from == v && AgesOut(sys[v], d.event, o)
  }

  /** The delivery brings `v` an update of a peer that defines `n`. */
  ghost predicate Teaches(sys: System, d: Delivery, v: string, n: string) {
    d.to == v && Defines(sys, d.from, v, n)
  }

  lemma WrongStep(sys: System, d: Delivery, sys': System, v: string, n: string)
    requires Tidy(sys) && Delivered(sys, d, sys') && v in sys && Wrong(sys, v, n)
    ensures n in sys'[v].registry <==> !Drops(sys, d, v, sys[v].registry[n].origin)
    ensures n in sys'[v].registry ==> sys'[v].registry[n] == sys[v].registry[n]
  {
  }

  lemma AbsentStep(sys: System, d: Delivery, sys': System, v: string, n: string)
    requires Tidy(sys) && Delivered(sys, d, sys') && v in sys && n !in sys[v].registry
    ensures if Teaches(sys, d, v, n) then Right(sys', v, n) else n !in sys'[v].registry
  {
  }

  lemma OwnedStep(sys: System, d: Delivery, sys': System, v: string, n: string)
    requires Tidy(sys) && Delivered(sys, d, sys') && v in sys && n in sys[v].registry
    requires Defines(sys, sys[v].registry[n].origin, v, n)
    ensures n in sys'[v].registry && sys'[v].registry[n].origin == sys[v].registry[n].origin
    ensures Right(sys', v, n) <==> Right(sys, v, n) || Serves(d, sys[v].registry[n].origin, v)
  {
    assert TidySite(sys, sys[v].registry[n].origin);
  }

  lemma LocalStep(sys: System, d: Delivery, sys': System, v: string, n: string)
    requires Tidy(sys) && Delivered(sys, d, sys') && v in sys && n in sys[v].registry && !IsRemote(sys[v].registry[n])
    ensures n in sys'[v].registry && sys'[v].registry[n] == sys[v].registry[n]
  {
    assert TidySite(sys, d.from);
  }

  // ---------------------------------------------------------------- one name and a schedule

  ghost predicate Served(ds: seq<Delivery>, lo: nat, hi: nat, q: string, v: string)
    requires hi <= |ds|
  {
    exists k :: lo <= k < hi && Serves(ds[k], q, v)
  }

  ghost predicate Taught(ws: seq<System>, ds: seq<Delivery>, i: nat, v: string, n: string)
    requires i <= |ds| < |ws|
  {
    exists k :: 0 <= k < i && Teaches(ws[k], ds[k], v, n)
  }

  ghost predicate Dropped(ws: seq<System>, ds: seq<Delivery>, i: nat, v: string, o: string)
    requires i <= |ds| < |ws|
  {
    exists j :: 0 <= j < i && Drops(ws[j], ds[j], v, o)
  }

  /** Tag `o` is dropped, and after that a peer which defines `n` is heard. */
  ghost predicate Relearned(ws: seq<System>, ds: seq<Delivery>, i: nat, v: string, n: string, o: string)
    requires i <= |ds| < |ws|
  {
    exists j, k :: 0 <= j < k < i && Drops(ws[j], ds[j], v, o) && Teaches(ws[k], ds[k], v, n)
  }

  lemma RelearnedNext(ws: seq<System>, ds: seq<Delivery>, i: nat, v: string, n: string, o: string)
    requires i < |ds| < |ws|
    ensures Dropped(ws, ds, i + 1, v, o) <==> Dropped(ws, ds, i, v, o) || Drops(ws[i], ds[i], v, o)
    ensures Relearned(ws, ds, i + 1, v, n, o) <==>
      Relearned(ws, ds, i, v, n, o) || (Dropped(ws, ds, i, v, o) && Teaches(ws[i], ds[i], v, n))
    ensures Relearned(ws, ds, i, v, n, o) ==> Dropped(ws, ds, i, v, o)
  {
  }

  /** A wrong entry stays until its tag is dropped, and the name is then unknown until its owner is heard. */
  lemma {:induction false} WrongFate(ws: seq<System>, ds: seq<Delivery>, i: nat, v: string, n: string)
    requires IsTrace(ws, ds) && i <= |ds| && v in ws[0] && Wrong(ws[0], v, n)
    ensures ws[i].Keys == ws[0].Keys
    ensures var o := ws[0][v].registry[n].origin;
      if !Dropped(ws, ds, i, v, o) then n in ws[i][v].registry && ws[i][v].registry[n] == ws[0][v].registry[n]
      else if !Relearned(ws, ds, i, v, n, o) then n !in ws[i][v].registry
      else Right(ws[i], v, n)
  {
    if i > 0 {
      var j := i - 1;
      WrongFate(ws, ds, j, v, n);
      TraceLocals(ws, ds, j);
      RelearnedNext(ws, ds, j, v, n, ws[0][v].registry[n].origin);
      NameStep(ws, ds, j, v, n);
      if Relearned(ws, ds, j, v, n, ws[0][v].registry[n].origin) { TagStays(ws, ds, j, v, n); }
    }
  }

  /** What one delivery of a trace does to a name, whatever `v` has under it. */
  lemma NameStep(ws: seq<System>, ds: seq<Delivery>, j: nat, v: string, n: string)
    requires IsTrace(ws, ds) && j < |ds| && v in ws[j]
    ensures ws[j + 1].Keys == ws[j].Keys
    ensures var r, r' := ws[j][v].registry, ws[j + 1][v].registry;
      if n !in r then if Teaches(ws[j], ds[j], v, n) then Right(ws[j + 1], v, n) else n !in r'
      else if !IsRemote(r[n]) then n in r' && r'[n] == r[n]
      else if Defines(ws[j], r[n].origin, v, n) then
        && n in r' && r'[n].origin == r[n].origin
        && (Right(ws[j + 1], v, n) <==> Right(ws[j], v, n) || Serves(ds[j], r[n].origin, v))
      else if Drops(ws[j], ds[j], v, r[n].origin) then n !in r'
      else n in r' && r'[n] == r[n]
  {
    assert IsEffect(ws, ds, j);
    var r := ws[j][v].registry;
    if n !in r {
      AbsentStep(ws[j], ds[j], ws[j + 1], v, n);
    } else if !IsRemote(r[n]) {
      LocalStep(ws[j], ds[j], ws[j + 1], v, n);
    } else if Defines(ws[j], r[n].origin, v, n) {
      OwnedStep(ws[j], ds[j], ws[j + 1], v, n);
    } else {
      WrongStep(ws[j], ds[j], ws[j + 1], v, n);
    }
  }

  lemma TagStays(ws: seq<System>, ds: seq<Delivery>, j: nat, v: string, n: string)
    requires IsTrace(ws, ds) && j < |ds| && v in ws[j] && Right(ws[j], v, n)
    ensures v in ws[j + 1] && Right(ws[j + 1], v, n)
  {
    assert IsEffect(ws, ds, j);
    assert TidySite(ws[j], ws[j][v].registry[n].origin);
    NameStep(ws, ds, j, v, n);
  }

  /** An unknown name stays unknown until its owner is heard. */
  lemma {:induction false} AbsentFate(ws: seq<System>, ds: seq<Delivery>, i: nat, v: string, n: string)
    requires IsTrace(ws, ds) && i <= |ds| && v in ws[0] && n !in ws[0][v].registry
    ensures ws[i].Keys == ws[0].Keys
    ensures if Taught(ws, ds, i, v, n) then Right(ws[i], v, n) else n !in ws[i][v].registry
  {
    if i > 0 {
      AbsentFate(ws, ds, i - 1, v, n);
      NameStep(ws, ds, i - 1, v, n);
      if Taught(ws, ds, i - 1, v, n) { TagStays(ws, ds, i - 1, v, n); }
    }
  }

  /** A well attributed name stays so, and has its owner's values as soon as the owner is heard. */
  lemma {:induction false} OwnedFate(ws: seq<System>, ds: seq<Delivery>, i: nat, v: string, n: string)
    requires IsTrace(ws, ds) && i <= |ds| && v in ws[0] && n in ws[0][v].registry && IsRemote(ws[0][v].registry[n])
    requires Defines(ws[0], ws[0][v].registry[n].origin, v, n)
    ensures ws[i].Keys == ws[0].Keys
    ensures n in ws[i][v].registry && ws[i][v].registry[n].origin == ws[0][v].registry[n].origin
    ensures Right(ws[i], v, n) <==> Right(ws[0], v, n) || Served(ds, 0, i, ws[0][v].registry[n].origin, v)
  {
    if i > 0 {
      OwnedFate(ws, ds, i - 1, v, n);
      TraceLocals(ws, ds, i - 1);
      NameStep(ws, ds, i - 1, v, n);
    }
  }

  lemma {:induction false} LocalFate(ws: seq<System>, ds: seq<Delivery>, i: nat, v: string, n: string)
    requires IsTrace(ws, ds) && i <= |ds| && v in ws[0] && n in ws[0][v].registry && !IsRemote(ws[0][v].registry[n])
    ensures ws[i].Keys == ws[0].Keys && n in ws[i][v].registry && ws[i][v].registry[n] == ws[0][v].registry[n]
  {
    if i > 0 {
      LocalFate(ws, ds, i - 1, v, n);
      NameStep(ws, ds, i - 1, v, n);
    }
  }

  // ---------------------------------------------------------------- exactly when a schedule converges

  /** Everything that `q` defines is known to `v` as `q`'s, with `q`'s values. */
  ghost predicate Knows(sys: System, q: string, v: string)
    requires q in sys && v in sys
  {
    forall n :: n in sys[q].localServices ==>
      && n in sys[v].registry && sys[v].registry[n].origin == q
      && Agrees(sys[v].registry[n], sys[q].localServices[n])
  }

  /**
   * Site `v`'s registry is exactly its own services plus every peer's, each tagged with its owner. Agreement is on
   * address, protocol, port and headless values; `FlagsExactly` says when event channel and aggregation agree too.
   */
  ghost predicate Converged(sys: System, v: string)
    requires v in sys
  {
    var r := sys[v].registry;
    && (forall n :: n in r ==> exists q :: q in sys && n in sys[q].localServices)
    && (forall n :: n in sys[v].localServices <==> n in r && !IsRemote(r[n]))
    && (forall q :: q in sys && q != v ==> Knows(sys, q, v))
  }

  /** The same for one name. */
  ghost predicate NameConverged(sys: System, v: string, n: string)
    requires v in sys
  {
    if Defined(sys, v, n) then Right(sys, v, n) else n in sys[v].registry ==> !IsRemote(sys[v].registry[n])
  }

  lemma ConvergedNames(sys: System, v: string)
    requires Tidy(sys) && v in sys
    ensures Converged(sys, v) <==> forall n :: NameConverged(sys, v, n)
  {
    if Converged(sys, v) {
      forall n ensures NameConverged(sys, v, n) { ConvergedName(sys, v, n); }
    }
    if forall n :: NameConverged(sys, v, n) { NamesConverge(sys, v); }
  }

  lemma ConvergedName(sys: System, v: string, n: string)
    requires v in sys && Converged(sys, v)
    ensures NameConverged(sys, v, n)
  {
    var r := sys[v].registry;
    if Defined(sys, v, n) {
      var q :| Defines(sys, q, v, n);
      assert Knows(sys, q, v);
      assert r[n].origin == q;
    } else if n in r {
      var q :| q in sys && n in sys[q].localServices;
      assert !Defines(sys, q, v, n);
    }
  }

  lemma NamesConverge(sys: System, v: string)
    requires Tidy(sys) && v in sys && forall n :: NameConverged(sys, v, n)
    ensures Converged(sys, v)
  {
    assert TidySite(sys, v);
    var r := sys[v].registry;
    forall n | n in r ensures exists q :: q in sys && n in sys[q].localServices {
      assert NameConverged(sys, v, n);
      if IsRemote(r[n]) {
        var q :| Defines(sys, q, v, n);
      } else {
        assert n in sys[v].localServices;
      }
    }
    forall q | q in sys && q != v ensures Knows(sys, q, v) {
      forall n | n in sys[q].localServices
        ensures n in r && r[n].origin == q && Agrees(r[n], sys[q].localServices[n])
      {
        assert Defines(sys, q, v, n);
        assert NameConverged(sys, v, n);
      }
    }
  }

  /**
   * The schedule brings `v` right about `n`: an unknown name is taught if a peer defines it, a well attributed one
   * has its owner's values or its owner is heard, and a wrong one is dropped and, if a peer defines it, taught after
   * that.
   */
  ghost predicate InTime(ws: seq<System>, ds: seq<Delivery>, v: string, n: string)
    requires |ws| == |ds| + 1 && v in ws[0]
  {
    var sys, r, end := ws[0], ws[0][v].registry, |ds|;
    if n !in r then Defined(sys, v, n) ==> Taught(ws, ds, end, v, n)
    else if !IsRemote(r[n]) then true
    else if Defines(sys, r[n].origin, v, n) then Right(sys, v, n) || Served(ds, 0, end, r[n].origin, v)
    else
      && Dropped(ws, ds, end, v, r[n].origin)
      && (Defined(sys, v, n) ==> Relearned(ws, ds, end, v, n, r[n].origin))
  }

  lemma TaughtDefined(ws: seq<System>, ds: seq<Delivery>, k: nat, v: string, n: string)
    requires IsTrace(ws, ds) && k < |ds| && Teaches(ws[k], ds[k], v, n)
    ensures Defined(ws[0], v, n)
  {
    TraceLocals(ws, ds, k);
    assert Defines(ws[0], ds[k].from, v, n);
  }

  lemma DefinedLater(ws: seq<System>, ds: seq<Delivery>, i: nat, v: string, n: string)
    requires IsTrace(ws, ds) && i <= |ds|
    ensures Defined(ws[i], v, n) <==> Defined(ws[0], v, n)
  {
    TraceLocals(ws, ds, i);
    if Defined(ws[i], v, n) {
      var q :| Defines(ws[i], q, v, n);
      assert Defines(ws[0], q, v, n);
    }
    if Defined(ws[0], v, n) {
      var q :| Defines(ws[0], q, v, n);
      assert Defines(ws[i], q, v, n);
    }
  }

  lemma NameExactly(ws: seq<System>, ds: seq<Delivery>, v: string, n: string)
    requires IsTrace(ws, ds) && v in ws[0] && Tidy(ws[0])
    ensures v in ws[|ds|] && (NameConverged(ws[|ds|], v, n) <==> InTime(ws, ds, v, n))
  {
    var r, end := ws[0][v].registry, |ds|;
    TraceLocals(ws, ds, end);
    DefinedLater(ws, ds, end, v, n);
    if n !in r {
      AbsentFate(ws, ds, end, v, n);
      if Taught(ws, ds, end, v, n) {
        var k :| 0 <= k < end && Teaches(ws[k], ds[k], v, n);
        TaughtDefined(ws, ds, k, v, n);
      }
    } else if !IsRemote(r[n]) {
      LocalFate(ws, ds, end, v, n);
      assert TidySite(ws[0], v);
    } else if Defines(ws[0], r[n].origin, v, n) {
      OwnedFate(ws, ds, end, v, n);
    } else {
      WrongFate(ws, ds, end, v, n);
      WrongExactly(ws, ds, v, n);
    }
  }

  lemma WrongExactly(ws: seq<System>, ds: seq<Delivery>, v: string, n: string)
    requires IsTrace(ws, ds) && v in ws[0] && Wrong(ws[0], v, n)
    ensures v in ws[|ds|] && (NameConverged(ws[|ds|], v, n) <==> InTime(ws, ds, v, n))
  {
    var o, end := ws[0][v].registry[n].origin, |ds|;
    TraceLocals(ws, ds, end);
    DefinedLater(ws, ds, end, v, n);
    WrongFate(ws, ds, end, v, n);
    if Relearned(ws, ds, end, v, n, o) {
      var j, k :| 0 <= j < k < end && Drops(ws[j], ds[j], v, o) && Teaches(ws[k], ds[k], v, n);
      TaughtDefined(ws, ds, k, v, n);
    }
  }

  /**
   * Any schedule at all, from any healthy system, leaves a site converged exactly when it comes in time for every
   * name.
   */
  lemma ConvergesExactly(ws: seq<System>, ds: seq<Delivery>, v: string)
    requires IsSchedule(ws, ds) && Healthy(ws[0]) && v in ws[0]
    ensures ws[|ds|].Keys == ws[0].Keys
    ensures forall q :: q in ws[0] ==> ws[|ds|][q].localServices == ws[0][q].localServices
    ensures Converged(ws[|ds|], v) <==> forall n :: InTime(ws, ds, v, n)
  {
    ScheduleHealthy(ws, ds, |ds|);
    ScheduleIsTrace(ws, ds);
    ConvergedNames(ws[|ds|], v);
    forall n ensures NameConverged(ws[|ds|], v, n) <==> InTime(ws, ds, v, n) { NameExactly(ws, ds, v, n); }
  }

  /** After convergence, further deliveries keep the site converged. */
  lemma ConvergenceStable(sys: System, d: Delivery, v: string)
    requires Healthy(sys) && Current(sys, d) && v in sys && Converged(sys, v)
    ensures v in Deliver(sys, d) && Converged(Deliver(sys, d), v)
  {
    var ws, ds := [sys, Deliver(sys, d)], [d];
    assert IsDelivery(ws, ds, 0);
    ConvergedNames(sys, v);
    forall n ensures InTime(ws, ds, v, n) { assert NameConverged(sys, v, n); }
    ConvergesExactly(ws, ds, v);
  }

  /**
   * A name has moved from `a` to `b`, and `v` has not noticed. In a schedule where `b` is not heard after `a` has
   * been, `v` keeps the old entry until `a` is heard and has none afterwards.
   */
  lemma LateWithdrawal(ws: seq<System>, ds: seq<Delivery>, i: nat, a: string, b: string, v: string, n: string)
    requires IsSchedule(ws, ds) && Healthy(ws[0]) && i <= |ds|
    requires a in ws[0] && b in ws[0] && v in ws[0] && a != b && a != v && b != v
    requires n in ws[0][b].localServices && HeldFor(ws[0], v, n, a)
    requires forall j, k :: 0 <= j < k < |ds| && Serves(ds[j], a, v) ==> !Serves(ds[k], b, v)
    ensures v in ws[i]
    ensures if exists j :: 0 <= j < i && Serves(ds[j], a, v) then n !in ws[i][v].registry else HeldFor(ws[i], v, n, a)
  {
    ScheduleIsTrace(ws, ds);
    assert TidySite(ws[0], a);
    WrongFate(ws, ds, i, v, n);
    forall j | 0 <= j < i
      ensures Drops(ws[j], ds[j], v, a) <==> Serves(ds[j], a, v)
      ensures Teaches(ws[j], ds[j], v, n) ==> Serves(ds[j], b, v)
    {
      TraceLocals(ws, ds, j);
    }
  }

  ghost predicate HeldFor(sys: System, v: string, n: string, a: string)
    requires v in sys
  {
    n in sys[v].registry && sys[v].registry[n].origin == a
  }

  // ---------------------------------------------------------------- event channels and aggregation

  /** `v` has a peer's service right but for an event channel or an aggregation that the peer does not advertise. */
  ghost predicate Stuck(sys: System, v: string, n: string)
    requires v in sys
  {
    Right(sys, v, n) && !Plain(sys[v].registry[n])
  }

  /** The same, seen from the registry: the entry is `from`'s, and agrees with `mine` but for its flags. */
  ghost predicate StuckEntry(r: Services, from: string, mine: Services, n: string) {
    n in r && r[n].origin == from && n in mine && Agrees(r[n], mine[n]) && !Plain(r[n])
  }

  lemma StuckAbsorbed(r: Services, r': Services, from: string, mine: Services, n: string)
    requires Absorbs(r, r', from, mine) && forall k :: k in mine ==> Plain(mine[k])
    ensures StuckEntry(r', from, mine, n) <==> StuckEntry(r, from, mine, n)
  {
  }

  lemma StuckElsewhere(r: Services, r': Services, from: string, mine: Services, q: string, theirs: Services, n: string)
    requires Absorbs(r, r', from, mine) && q != from
    ensures StuckEntry(r', q, theirs, n) <==> StuckEntry(r, q, theirs, n)
  {
  }

  lemma StuckForgotten(s: SiteState, r': Services, e: Event, sites: set<string>, q: string, theirs: Services, n: string)
    requires Forgets(s, r', e, sites) && q in sites
    ensures StuckEntry(r', q, theirs, n) <==> StuckEntry(s.registry, q, theirs, n)
  {
  }

  lemma StuckStep(sys: System, d: Delivery, sys': System, v: string, n: string)
    requires Tidy(sys) && Delivered(sys, d, sys') && v in sys
    ensures Stuck(sys', v, n) <==> Stuck(sys, v, n)
  {
    forall q | IsPeer(sys, q, v)
      ensures StuckEntry(sys'[v].registry, q, sys[q].localServices, n) <==>
              StuckEntry(sys[v].registry, q, sys[q].localServices, n)
    {
      PeerStuckStep(sys, d, sys', q, v, n);
    }
  }

  lemma PeerStuckStep(sys: System, d: Delivery, sys': System, q: string, v: string, n: string)
    requires Tidy(sys) && Delivered(sys, d, sys') && v in sys && IsPeer(sys, q, v)
    ensures StuckEntry(sys'[v].registry, q, sys[q].localServices, n) <==>
            StuckEntry(sys[v].registry, q, sys[q].localServices, n)
  {
    var r, r', mine := sys[v].registry, sys'[v].registry, sys[q].localServices;
    assert TidySite(sys, q);
    if d.to == v {
      if d.from == v {
        StuckForgotten(sys[v], r', d.event, sys.Keys, q, mine, n);
      } else if d.from == q {
        StuckAbsorbed(r, r', q, mine, n);
      } else {
        StuckElsewhere(r, r', d.from, sys[d.from].localServices, q, mine, n);
      }
    }
  }

  /** No schedule ever makes or mends such an entry. */
  lemma {:induction false} StuckStays(ws: seq<System>, ds: seq<Delivery>, i: nat, v: string, n: string)
    requires IsTrace(ws, ds) && i <= |ds| && v in ws[0]
    ensures v in ws[i] && (Stuck(ws[i], v, n) <==> Stuck(ws[0], v, n))
  {
    if i > 0 {
      StuckStays(ws, ds, i - 1, v, n);
      assert IsEffect(ws, ds, i - 1);
      StuckStep(ws[i - 1], ds[i - 1], ws[i], v, n);
    }
  }

  /**
   * After convergence, an entry is equivalent to what its owner advertises exactly when it was not stuck at the
   * outset.
   */
  lemma FlagsExactly(ws: seq<System>, ds: seq<Delivery>, q: string, v: string, n: string)
    requires IsSchedule(ws, ds) && Healthy(ws[0]) && v in ws[0] && Defines(ws[0], q, v, n)
    requires v in ws[|ds|] && Converged(ws[|ds|], v)
    ensures n in ws[|ds|][v].registry
    ensures EquivalentServiceDefinition(ws[|ds|][v].registry[n], ws[0][q].localServices[n]) <==> !Stuck(ws[0], v, n)
  {
    ScheduleIsTrace(ws, ds);
    TraceLocals(ws, ds, |ds|);
    StuckStays(ws, ds, |ds|, v, n);
    ScheduleTidy(ws, ds, |ds|);
    FlagsNow(ws[|ds|], q, v, n);
  }

  lemma FlagsNow(sys: System, q: string, v: string, n: string)
    requires Tidy(sys) && v in sys && Converged(sys, v) && Defines(sys, q, v, n)
    ensures n in sys[v].registry
    ensures EquivalentServiceDefinition(sys[v].registry[n], sys[q].localServices[n]) <==> !Stuck(sys, v, n)
  {
    assert TidySite(sys, q);
    assert Knows(sys, q, v);
  }

  const DB := ServiceInterface("db", "tcp", 5432, false, "", None, [], "", "")

  /**
   * A site that was started on the registry `initial`, all of whose entries are tagged if `tagged`, and else plain
   * and local.
   */
  lemma StartedWith(self: string, initial: Services, tagged: bool) returns (s: SiteState)
    requires WellKeyed(initial)
    requires forall n :: n in initial ==> if tagged then IsRemote(initial[n]) else Strip(initial[n]) == initial[n]
    requires !tagged ==> forall n :: n in initial ==> !IsRemote(initial[n])
    ensures InSync(s) && !s.pending && s.self == self && s.registry == initial
    ensures s.localServices == if tagged then map[] else initial
  {
    s := Start(self, initial, 0);
    StartInSync(self, initial, 0);
    assert LocalView(initial) == if tagged then map[] else initial;
  }

  lemma StartedHealthy(sys: System, owner: string)
    requires forall v :: v in sys ==> IsSiteTag(v) && SettledSite(sys, v)
    requires forall v :: v in sys && v != owner ==> sys[v].localServices == map[]
    ensures Healthy(sys)
  {
    forall v | v in sys ensures TidySite(sys, v) { assert SettledSite(sys, v); }
  }

  /** A converged site can have an event channel that the service's owner does not advertise. */
  lemma KeptEventChannel(q: string, v: string) returns (sys: System, n: string)
    requires IsSiteTag(q) && IsSiteTag(v) && q != v
    ensures Healthy(sys) && v in sys && Converged(sys, v) && Defines(sys, q, v, n)
    ensures n in sys[v].registry && sys[v].registry[n].eventChannel && !sys[q].localServices[n].eventChannel
  {
    var kept := DB.(origin := q, eventChannel := true);
    n := "db";
    var sq := StartedWith(q, map[n := DB], false);
    var sv := StartedWith(v, map[n := kept], true);
    sys := map[q := sq, v := sv];
    StartedHealthy(sys, q);
    OneNameConverged(sys, q, v, n);
  }

  lemma OneNameConverged(sys: System, q: string, v: string, n: string)
    requires Tidy(sys) && sys.Keys == {q, v} && q != v && sys[v].registry.Keys == {n} && Right(sys, v, n)
    requires sys[q].localServices.Keys == {n}
    ensures Converged(sys, v)
  {
    forall k ensures NameConverged(sys, v, k) { assert Defines(sys, q, v, n); }
    ConvergedNames(sys, v);
  }
}
