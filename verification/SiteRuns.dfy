/** Properties of all runs of one site: ownership safety and bounded staleness. */
module SiteRuns {
  import opened ServiceTypes
  import opened SiteSync

  ghost predicate IsStep(ss: seq<SiteState>, es: seq<Event>, i: nat)
    requires |ss| == |es| + 1 && i < |es|
  {
    Enabled(ss[i], es[i]) && ss[i + 1] == Step(ss[i], es[i])
  }

  /** `ss[i]` is the state before event `es[i]`; every handler is followed by its watcher step. */
  ghost predicate IsRun(ss: seq<SiteState>, es: seq<Event>) {
    && |ss| == |es| + 1
    && InSync(ss[0]) && !ss[0].pending
    && forall i: nat :: i < |es| ==> IsStep(ss, es, i)
  }

  lemma {:induction false} RunInSync(ss: seq<SiteState>, es: seq<Event>, i: nat)
    requires IsRun(ss, es) && i <= |es|
    ensures InSync(ss[i]) && !ss[i].pending && ss[i].self == ss[0].self
  {
    if i > 0 {
      RunInSync(ss, es, i - 1);
      assert IsStep(ss, es, i - 1);
      StepInSync(ss[i - 1], es[i - 1]);
    }
  }

  // ---------------------------------------------------------------- ownership

  /**
   * The only events that may touch an entry with origin `owner`: an update from that owner, an age tick that finds the
   * owner silent, and a local edit of that very name.
   */
  ghost predicate MayTouch(s: SiteState, e: Event, n: string, owner: string) {
    match e
    case Update(from, _, _) => from == owner && from != s.self
    case Tick(now) => IsSiteTag(owner) && Silent(s, owner, now)
    case Local(after, _) => !SameAt(s.registry, after, n)
  }

  lemma StepRespectsOwner(s: SiteState, e: Event, n: string)
    requires InSync(s) && n in s.registry && !MayTouch(s, e, n, s.registry[n].origin)
    ensures SameAt(s.registry, Step(s, e).registry, n)
  {
    match e
    case Update(from, msg, now) => if from != s.self { MergeAt(s, from, Index(msg, from), now, n); }
    case Tick(now) => AgeAt(s, now, n);
    case Local(_, _) =>
  }

  /** Over any stretch of any run, an entry that no permitted event touches stays exactly as it was. */
  lemma {:induction false} OwnershipSafety(ss: seq<SiteState>, es: seq<Event>, i: nat, j: nat, n: string)
    requires IsRun(ss, es) && i <= j <= |es| && n in ss[i].registry
    requires forall k :: i <= k < j ==> !MayTouch(ss[k], es[k], n, ss[i].registry[n].origin)
    ensures SameAt(ss[i].registry, ss[j].registry, n)
  {
    if i < j {
      OwnershipSafety(ss, es, i, j - 1, n);
      RunInSync(ss, es, j - 1);
      assert IsStep(ss, es, j - 1);
      StepRespectsOwner(ss[j - 1], es[j - 1], n);
    }
  }

  lemma StaleNameSurvives(s: SiteState, a: string, n: string)
    requires a in s.byOrigin && n in s.byOrigin[a] && n !in LocalView(s.registry)
    ensures var t := Watch(s); a in t.byOrigin && n in t.byOrigin[a]
  {
  }

  lemma UnknownNameAdded(s: SiteState, b: string, msg: seq<ServiceInterface>, n: string, now: int, a: string)
    requires b != s.self && IsSiteTag(b) && n !in s.byName && n in Index(msg, b)
    requires a != b && a in s.byOrigin && n in s.byOrigin[a]
    ensures var t := Step(s, Update(b, msg, now));
      && n in t.registry && t.registry[n].origin == b && t.self == s.self
      && a in t.byOrigin && n in t.byOrigin[a]
  {
    var m := Merge(s, b, Index(msg, b), now);
    IndexTags(msg, b);
    assert n in Changed(s.byName, b, Index(msg, b));
    assert n in m.registry && m.registry[n] == Index(msg, b)[n];
    StaleNameSurvives(m, a, n);
  }

  lemma WithdrawnNameLost(s: SiteState, a: string, msg: seq<ServiceInterface>, n: string, now: int)
    requires a != s.self && a in s.byOrigin && n in s.byOrigin[a] && n !in Index(msg, a)
    ensures n !in Step(s, Update(a, msg, now)).registry
  {
  }

  /**
   * The hypothesis on local removals is needed. Remove an entry of origin `a` by hand, let `b` advertise the
   * name, then let `a` send any update without it: `a`'s update deletes the entry that `b` owns.
   */
  lemma RemovedRemoteNameIsLost(s: SiteState, n: string, b: string, msgB: seq<ServiceInterface>,
                                msgA: seq<ServiceInterface>, now: int)
    requires InSync(s) && n in s.registry && IsRemote(s.registry[n])
    requires IsSiteTag(b) && b != s.registry[n].origin && b != s.self && s.self != s.registry[n].origin
    requires n in Index(msgB, b) && n !in Index(msgA, s.registry[n].origin)
    ensures var a := s.registry[n].origin;
      var s1 := Watch(Edit(s, s.registry - {n}));
      var s2 := Step(s1, Update(b, msgB, now));
      var s3 := Step(s2, Update(a, msgA, now));
      && n in s2.registry && s2.registry[n].origin == b
      && n !in s3.registry
  {
    var a := s.registry[n].origin;
    var s0 := Edit(s, s.registry - {n});
    assert n in s.byOrigin[a] by { assert n in OriginView(s.registry, a); }
    StaleNameSurvives(s0, a, n);
    UnknownNameAdded(Watch(s0), b, msgB, n, now, a);
    WithdrawnNameLost(Step(Watch(s0), Update(b, msgB, now)), a, msgA, n, now);
  }

  // ---------------------------------------------------------------- staleness

  function LastTick(start: int, es: seq<Event>): int {
    if es == [] then start
    else
      var last := es[|es| - 1];
      if last.Tick? then last.at else LastTick(start, es[..|es| - 1])
  }

  /** When an update from `origin` last arrived, or the start of the run if none did. */
  function LastHeard(start: int, es: seq<Event>, origin: string): int {
    if es == [] then start
    else
      var last := es[|es| - 1];
      if last.Update? && last.from == origin then last.at else LastHeard(start, es[..|es| - 1], origin)
  }

  ghost predicate Ordered(start: int, es: seq<Event>) {
    forall i :: 0 <= i < |es| ==> start <= es[i].at && forall j :: i <= j < |es| ==> es[i].at <= es[j].at
  }

  /** A run of a controller that was started on the registry `initial` at time `start`. */
  ghost predicate IsStartedRun(self: string, initial: Services, start: int, ss: seq<SiteState>, es: seq<Event>) {
    && WellKeyed(initial)
    && IsRun(ss, es)
    && ss[0] == Start(self, initial, start)
    && Ordered(start, es)
  }

  /** The age tick's bookkeeping. Own tags are never heard, so they are outside it. */
  ghost predicate Heard(s: SiteState, start: int, es: seq<Event>) {
    && s.self !in s.heardFrom
    && (forall o :: o in s.heardFrom ==>
          && o in s.byOrigin
          && s.heardFrom[o] == LastHeard(start, es, o)
          && s.heardFrom[o] > LastTick(start, es) - AGE_LIMIT)
    && (forall n :: n in s.registry && IsRemote(s.registry[n]) && s.registry[n].origin != s.self ==>
          s.registry[n].origin in s.heardFrom)
  }

  lemma LastTickBound(start: int, es: seq<Event>, t: int)
    requires start <= t && forall i :: 0 <= i < |es| ==> es[i].at <= t
    ensures LastTick(start, es) <= t
  {
  }

  lemma UpdateHears(s: SiteState, from: string, msg: seq<ServiceInterface>, now: int)
    requires from != s.self
    ensures var t := Step(s, Update(from, msg, now));
      t.heardFrom == s.heardFrom[from := now] && s.byOrigin.Keys + {from} <= t.byOrigin.Keys && t.self == s.self
  {
  }

  lemma UpdateOrigins(s: SiteState, from: string, msg: seq<ServiceInterface>, now: int, n: string)
    requires InSync(s) && from != s.self && n in Step(s, Update(from, msg, now)).registry
    ensures var o := Step(s, Update(from, msg, now)).registry[n].origin;
      o == from || (n in s.registry && s.registry[n].origin == o)
  {
    IndexTags(msg, from);
    MergeAt(s, from, Index(msg, from), now, n);
  }

  lemma HeardAfter(s: SiteState, t: SiteState, start: int, es: seq<Event>, e: Event)
    requires Heard(s, start, es) && e.Update? && LastTick(start, es) <= e.at && e.from != s.self
    requires t.self == s.self && t.heardFrom == s.heardFrom[e.from := e.at]
    requires s.byOrigin.Keys + {e.from} <= t.byOrigin.Keys
    requires forall n :: n in t.registry ==>
      t.registry[n].origin == e.from || (n in s.registry && s.registry[n].origin == t.registry[n].origin)
    ensures Heard(t, start, es + [e])
  {
  }

  lemma HeardUpdate(s: SiteState, start: int, es: seq<Event>, e: Event)
    requires InSync(s) && !s.pending && Heard(s, start, es) && e.Update? && LastTick(start, es) <= e.at
    ensures Heard(Step(s, e), start, es + [e])
  {
    if e.from == s.self {
      HeardIgnored(s, start, es, e);
    } else {
      UpdateHears(s, e.from, e.msg, e.at);
      forall n | n in Step(s, e).registry
        ensures var o := Step(s, e).registry[n].origin; o == e.from || (n in s.registry && s.registry[n].origin == o)
      {
        UpdateOrigins(s, e.from, e.msg, e.at, n);
      }
      HeardAfter(s, Step(s, e), start, es, e);
    }
  }

  lemma HeardIgnored(s: SiteState, start: int, es: seq<Event>, e: Event)
    requires Heard(s, start, es) && e.Update? && e.from == s.self
    ensures Heard(s, start, es + [e])
  {
  }

  lemma HeardTick(s: SiteState, start: int, es: seq<Event>, e: Event)
    requires InSync(s) && Heard(s, start, es) && e.Tick?
    ensures Heard(Step(s, e), start, es + [e])
  {
    var t, es' := Step(s, e), es + [e];
    assert es'[..|es|] == es;
    forall n | n in t.registry && IsRemote(t.registry[n]) && t.registry[n].origin != t.self
      ensures t.registry[n].origin in t.heardFrom
    {
      AgeAt(s, e.at, n);
    }
  }

  lemma HeardLocal(s: SiteState, start: int, es: seq<Event>, e: Event)
    requires InSync(s) && Heard(s, start, es) && e.Local? && Enabled(s, e)
    ensures Heard(Step(s, e), start, es + [e])
  {
    var t, es' := Step(s, e), es + [e];
    assert es'[..|es|] == es;
    var k :| CliEditAt(s.registry, e.after, k);
    forall n | n in t.registry && IsRemote(t.registry[n]) && t.registry[n].origin != t.self
      ensures t.registry[n].origin in t.heardFrom
    {
      if n != k { assert SameAt(s.registry, e.after, n); }
    }
  }

  lemma HeardStep(s: SiteState, start: int, es: seq<Event>, e: Event)
    requires InSync(s) && !s.pending && Heard(s, start, es) && Enabled(s, e) && LastTick(start, es) <= e.at
    ensures Heard(Step(s, e), start, es + [e])
  {
    match e
    case Update(_, _, _) => HeardUpdate(s, start, es, e);
    case Tick(_) => HeardTick(s, start, es, e);
    case Local(_, _) => HeardLocal(s, start, es, e);
  }

  lemma {:induction false} RunHeard(self: string, initial: Services, start: int, ss: seq<SiteState>, es: seq<Event>,
                                    i: nat)
    requires IsStartedRun(self, initial, start, ss, es) && i <= |es|
    ensures Heard(ss[i], start, es[..i])
  {
    if i == 0 {
      StartInSync(self, initial, start);
    } else {
      RunHeard(self, initial, start, ss, es, i - 1);
      RunInSync(ss, es, i - 1);
      assert IsStep(ss, es, i - 1);
      assert es[..i] == es[..i - 1] + [es[i - 1]];
      LastTickBound(start, es[..i - 1], es[i - 1].at);
      HeardStep(ss[i - 1], start, es[..i - 1], es[i - 1]);
    }
  }

  /**
   * Every remote entry's origin was really heard from (or the controller started) less than 60 seconds before the last
   * age tick, so less than 90 seconds before any time up to 30 seconds after that tick.
   */
  lemma BoundedStaleness(self: string, initial: Services, start: int, ss: seq<SiteState>, es: seq<Event>,
                         i: nat, n: string, t: int)
    requires IsStartedRun(self, initial, start, ss, es) && i <= |es|
    requires n in ss[i].registry && IsRemote(ss[i].registry[n]) && ss[i].registry[n].origin != self
    ensures var heard := LastHeard(start, es[..i], ss[i].registry[n].origin);
      && LastTick(start, es[..i]) - heard < 60 * SECOND
      && (t <= LastTick(start, es[..i]) + 30 * SECOND ==> t - heard < 90 * SECOND)
  {
    RunHeard(self, initial, start, ss, es, i);
    RunInSync(ss, es, i);
  }

  /** An entry tagged with the site's own id is outside the bound: no update and no tick ever removes it. */
  lemma OwnTagNeverAges(self: string, initial: Services, start: int, ss: seq<SiteState>, es: seq<Event>, i: nat,
                        n: string)
    requires IsStartedRun(self, initial, start, ss, es) && i <= |es|
    requires n in initial && initial[n].origin == self
    requires forall k :: 0 <= k < i && es[k].Local? ==> SameAt(ss[k].registry, es[k].after, n)
    ensures n in ss[i].registry && ss[i].registry[n] == initial[n]
  {
    StartInSync(self, initial, start);
    forall k | 0 <= k < i ensures !MayTouch(ss[k], es[k], n, self) {
      RunHeard(self, initial, start, ss, es, k);
      RunInSync(ss, es, k);
    }
    OwnershipSafety(ss, es, 0, i, n);
  }

  /**
   * A controller that finds an entry with its own tag in its file still has it when the tick finds it 60 seconds old.
   */
  lemma OwnTagOutlivesBound(self: string, start: int)
    returns (initial: Services, ss: seq<SiteState>, es: seq<Event>, n: string)
    requires IsSiteTag(self)
    ensures IsStartedRun(self, initial, start, ss, es) && es == [Tick(start + 60 * SECOND)]
    ensures n in ss[1].registry && ss[1].registry[n].origin == self
    ensures LastTick(start, es) - LastHeard(start, es, self) == 60 * SECOND
  {
    n := "db";
    initial := map[n := ServiceInterface(n, "tcp", 5432, false, "", None, [], self, "")];
    es := [Tick(start + 60 * SECOND)];
    ss := [Start(self, initial, start), Step(Start(self, initial, start), es[0])];
    StartInSync(self, initial, start);
    assert IsStep(ss, es, 0);
    assert es[..0] == [];
    OwnTagNeverAges(self, initial, start, ss, es, 1, n);
  }

  /**
   * In every started run of `self`, whatever is tagged `origin` was heard less than 60 seconds before the last tick.
   */
  ghost predicate AlwaysFresh(self: string, origin: string) {
    forall initial, start, ss: seq<SiteState>, es, i: nat, n |
      && IsStartedRun(self, initial, start, ss, es) && i <= |es|
      && n in ss[i].registry && ss[i].registry[n].origin == origin ::
      LastTick(start, es[..i]) - LastHeard(start, es[..i], origin) < 60 * SECOND
  }

  /** The bound holds for exactly the tags of other sites. */
  lemma FreshExactly(self: string, origin: string)
    requires IsSiteTag(origin)
    ensures AlwaysFresh(self, origin) <==> origin != self
  {
    if origin == self {
      var initial, ss, es, n := OwnTagOutlivesBound(self, 0);
      assert es[..1] == es;
    } else {
      forall initial, start, ss: seq<SiteState>, es, i: nat, n |
        && IsStartedRun(self, initial, start, ss, es) && i <= |es|
        && n in ss[i].registry && ss[i].registry[n].origin == origin
        ensures LastTick(start, es[..i]) - LastHeard(start, es[..i], origin) < 60 * SECOND
      {
        BoundedStaleness(self, initial, start, ss, es, i, n, start);
      }
    }
  }
}
