/** Rounds of updates: exactly when one round, and when two, leave a site with what its peers define. */
module Rounds {
  import opened ServiceTypes
  import opened SiteSync
  import opened Convergence

  /** A round: every ordered pair of different sites is served at least once, in any order. */
  ghost predicate Covers(ds: seq<Delivery>, lo: nat, hi: nat, sites: set<string>)
    requires hi <= |ds|
  {
    forall q, v :: q in sites && v in sites && q != v ==> Served(ds, lo, hi, q, v)
  }

  /** A tagged entry that belongs to no live peer. */
  ghost predicate Orphan(sys: System, v: string, n: string)
    requires v in sys
  {
    n in sys[v].registry && IsRemote(sys[v].registry[n]) && !IsPeer(sys, sys[v].registry[n].origin, v)
  }

  /** Every tagged entry of `v` belongs to a live peer. */
  ghost predicate LiveOwners(sys: System, v: string)
    requires v in sys
  {
    forall n :: !Orphan(sys, v, n)
  }

  /** What a peer defines, `v` attributes to that peer or does not know. */
  ghost predicate NothingMoved(sys: System, v: string)
    requires v in sys
  {
    forall q, n :: Defines(sys, q, v, n) && n in sys[v].registry ==> sys[v].registry[n].origin == q
  }

  lemma ServedTeaches(ws: seq<System>, ds: seq<Delivery>, lo: nat, hi: nat, q: string, v: string,
                      n: string) returns (k: nat)
    requires IsTrace(ws, ds) && hi <= |ds| && Defines(ws[0], q, v, n) && Served(ds, lo, hi, q, v)
    ensures lo <= k < hi && Teaches(ws[k], ds[k], v, n)
  {
    k :| lo <= k < hi && Serves(ds[k], q, v);
    TraceLocals(ws, ds, k);
  }

  lemma ServedDrops(ws: seq<System>, ds: seq<Delivery>, lo: nat, hi: nat, q: string, v: string) returns (j: nat)
    requires IsTrace(ws, ds) && hi <= |ds| && v in ws[0] && IsPeer(ws[0], q, v) && Served(ds, lo, hi, q, v)
    ensures lo <= j < hi && Drops(ws[j], ds[j], v, q)
  {
    j :| lo <= j < hi && Serves(ds[j], q, v);
    TraceLocals(ws, ds, j);
  }

  /** A round comes in time for every name that is neither wrong nor moved. */
  lemma RoundInTime(ws: seq<System>, ds: seq<Delivery>, m: nat, v: string, n: string)
    requires IsTrace(ws, ds) && v in ws[0] && m <= |ds| && Covers(ds, 0, m, ws[0].Keys) && !Wrong(ws[0], v, n)
    ensures InTime(ws, ds, v, n)
  {
    if n !in ws[0][v].registry && Defined(ws[0], v, n) {
      var q :| Defines(ws[0], q, v, n);
      var k := ServedTeaches(ws, ds, 0, m, q, v, n);
    }
  }

  lemma UnmovedUndefined(sys: System, v: string, n: string)
    requires v in sys && NothingMoved(sys, v) && Wrong(sys, v, n)
    ensures !Defined(sys, v, n)
  {
  }

  /** One round suffices when every owner is live and no peer defines a name that is attributed to another. */
  lemma OneRoundSuffices(ws: seq<System>, ds: seq<Delivery>, v: string)
    requires IsSchedule(ws, ds) && Healthy(ws[0]) && v in ws[0] && Covers(ds, 0, |ds|, ws[0].Keys)
    requires LiveOwners(ws[0], v) && NothingMoved(ws[0], v)
    ensures v in ws[|ds|] && Converged(ws[|ds|], v)
  {
    ScheduleIsTrace(ws, ds);
    forall n ensures InTime(ws, ds, v, n) {
      if Wrong(ws[0], v, n) {
        assert !Orphan(ws[0], v, n);
        UnmovedUndefined(ws[0], v, n);
        var j := ServedDrops(ws, ds, 0, |ds|, ws[0][v].registry[n].origin, v);
      } else {
        RoundInTime(ws, ds, |ds|, v, n);
      }
    }
    ConvergesExactly(ws, ds, v);
  }

  /** The orphan is aged out by some tick, and its owner, if there is one by now, is heard after that. */
  ghost predicate OrphanCleared(ws: seq<System>, ds: seq<Delivery>, v: string, n: string)
    requires |ws| == |ds| + 1 && v in ws[0] && n in ws[0][v].registry
  {
    var o := ws[0][v].registry[n].origin;
    Dropped(ws, ds, |ds|, v, o) && (Defined(ws[0], v, n) ==> Relearned(ws, ds, |ds|, v, n, o))
  }

  /**
   * Two rounds, one before delivery `m` and one after it, leave a site converged exactly when every orphan is
   * cleared. The messages within a round may come in any order and be repeated, with age ticks in between.
   */
  lemma TwoRoundsConverge(ws: seq<System>, ds: seq<Delivery>, m: nat, v: string)
    requires IsSchedule(ws, ds) && Healthy(ws[0]) && v in ws[0]
    requires m <= |ds| && Covers(ds, 0, m, ws[0].Keys) && Covers(ds, m, |ds|, ws[0].Keys)
    ensures ws[|ds|].Keys == ws[0].Keys
    ensures forall q :: q in ws[0] ==> ws[|ds|][q].localServices == ws[0][q].localServices
    ensures Converged(ws[|ds|], v) <==> forall n :: Orphan(ws[0], v, n) ==> OrphanCleared(ws, ds, v, n)
  {
    ScheduleIsTrace(ws, ds);
    forall n ensures InTime(ws, ds, v, n) <==> (Orphan(ws[0], v, n) ==> OrphanCleared(ws, ds, v, n)) {
      if !Wrong(ws[0], v, n) {
        RoundInTime(ws, ds, m, v, n);
      } else if !Orphan(ws[0], v, n) {
        var o := ws[0][v].registry[n].origin;
        var j := ServedDrops(ws, ds, 0, m, o, v);
        if Defined(ws[0], v, n) {
          var q :| Defines(ws[0], q, v, n);
          var k := ServedTeaches(ws, ds, m, |ds|, q, v, n);
        }
      }
    }
    ConvergesExactly(ws, ds, v);
  }

  /** An age tick of `v` that finds every tag silent under which it still has orphans. */
  ghost predicate Purges(sys: System, d: Delivery, v: string) {
    v in sys && d.to == v && forall n :: Orphan(sys, v, n) ==> AgesOut(sys[v], d.event, sys[v].registry[n].origin)
  }

  /** So two rounds suffice for a site that has no orphans, or that ages them all out in the first. */
  lemma PurgedRoundsConverge(ws: seq<System>, ds: seq<Delivery>, m: nat, v: string)
    requires IsSchedule(ws, ds) && Healthy(ws[0]) && v in ws[0]
    requires m <= |ds| && Covers(ds, 0, m, ws[0].Keys) && Covers(ds, m, |ds|, ws[0].Keys)
    requires LiveOwners(ws[0], v) || exists i :: 0 <= i < m && Purges(ws[i], ds[i], v)
    ensures ws[|ds|].Keys == ws[0].Keys && Converged(ws[|ds|], v)
    ensures forall q :: q in ws[0] ==> ws[|ds|][q].localServices == ws[0][q].localServices
  {
    ScheduleIsTrace(ws, ds);
    forall n | Orphan(ws[0], v, n) ensures OrphanCleared(ws, ds, v, n) {
      var i :| 0 <= i < m && Purges(ws[i], ds[i], v);
      var j := PurgeDrops(ws, ds, i, v, n);
      if Defined(ws[0], v, n) {
        var q :| Defines(ws[0], q, v, n);
        var k := ServedTeaches(ws, ds, m, |ds|, q, v, n);
      }
    }
    TwoRoundsConverge(ws, ds, m, v);
  }

  lemma PurgeDrops(ws: seq<System>, ds: seq<Delivery>, i: nat, v: string, n: string) returns (j: nat)
    requires IsSchedule(ws, ds) && IsTrace(ws, ds) && i < |ds| && v in ws[0] && Orphan(ws[0], v, n)
    requires Purges(ws[i], ds[i], v)
    ensures j <= i && Drops(ws[j], ds[j], v, ws[0][v].registry[n].origin)
  {
    var o := ws[0][v].registry[n].origin;
    WrongFate(ws, ds, i, v, n);
    if Dropped(ws, ds, i, v, o) {
      j :| 0 <= j < i && Drops(ws[j], ds[j], v, o);
    } else {
      j := i;
      assert Orphan(ws[i], v, n);
      assert IsDelivery(ws, ds, i);
    }
  }

  // ---------------------------------------------------------------- when one round is enough

  lemma ScheduleLocals(ws: seq<System>, ds: seq<Delivery>, i: nat)
    requires IsSchedule(ws, ds) && Healthy(ws[0]) && i <= |ds|
    ensures ws[i].Keys == ws[0].Keys && forall v :: v in ws[0] ==> ws[i][v].localServices == ws[0][v].localServices
  {
    ScheduleHealthy(ws, ds, i);
  }

  lemma Extend(ws: seq<System>, ds: seq<Delivery>, d: Delivery)
    requires IsSchedule(ws, ds) && d.to in ws[|ds|] && Current(ws[|ds|], d)
    ensures IsSchedule(ws + [Deliver(ws[|ds|], d)], ds + [d])
  {
    var w := Deliver(ws[|ds|], d);
    forall i: nat | i < |ds| + 1 ensures IsDelivery(ws + [w], ds + [d], i) {
      if i < |ds| { assert IsDelivery(ws, ds, i); }
    }
  }

  lemma CurrentStays(sys: System, w: System, d: Delivery)
    requires Current(sys, d) && d.event.Update? && w.Keys == sys.Keys
    requires w[d.from].localServices == sys[d.from].localServices
    ensures Current(w, d)
  {
  }

  /** Updates that list what the senders advertised at the outset can always be made, in any order. */
  lemma Play(sys: System, ds: seq<Delivery>) returns (ws: seq<System>)
    requires Healthy(sys)
    requires forall i :: 0 <= i < |ds| ==> Current(sys, ds[i]) && ds[i].event.Update?
    ensures IsSchedule(ws, ds) && ws[0] == sys
  {
    if ds == [] {
      ws := [sys];
    } else {
      var k := |ds| - 1;
      var ws' := Play(sys, ds[..k]);
      ScheduleLocals(ws', ds[..k], k);
      CurrentStays(sys, ws'[k], ds[k]);
      Extend(ws', ds[..k], ds[k]);
      ws := ws' + [Deliver(ws'[k], ds[k])];
      assert ds == ds[..k] + [ds[k]];
    }
  }

  /** Any services can be listed. */
  lemma Listing(defs: Services) returns (msg: seq<ServiceInterface>)
    ensures Lists(msg, defs)
    decreases |defs|
  {
    if defs == map[] {
      msg := [];
    } else {
      var n :| n in defs;
      var rest := Listing(defs - {n});
      msg := rest + [defs[n]];
      forall k | k in defs ensures defs[k] in msg {
        if k != n { assert (defs - {n})[k] in rest; }
      }
    }
  }

  function Pairs(sites: set<string>): set<(string, string)> {
    set q, v | q in sites && v in sites && q != v :: (q, v)
  }

  /** Any set of pairs of sites can be served one after the other. */
  lemma Updates(sys: System, pairs: set<(string, string)>) returns (ds: seq<Delivery>)
    requires forall p :: p in pairs ==> p.0 in sys && p.1 in sys && p.0 != p.1
    ensures forall i :: 0 <= i < |ds| ==> Current(sys, ds[i]) && ds[i].event.Update? && (ds[i].from, ds[i].to) in pairs
    ensures forall p :: p in pairs ==> Served(ds, 0, |ds|, p.0, p.1)
    decreases pairs
  {
    if pairs == {} {
      ds := [];
    } else {
      var p :| p in pairs;
      var rest := Updates(sys, pairs - {p});
      var msg := Listing(sys[p.0].localServices);
      ds := rest + [Delivery(p.0, p.1, Update(p.0, msg, 0))];
      forall q | q in pairs ensures Served(ds, 0, |ds|, q.0, q.1) {
        if q == p {
          assert Serves(ds[|rest|], q.0, q.1);
        } else {
          ServedWithin(rest, ds, 0, q.0, q.1);
        }
      }
    }
  }

  /** Deliveries that stand together in a longer list serve the same pairs there. */
  lemma ServedWithin(part: seq<Delivery>, ds: seq<Delivery>, at: nat, q: string, v: string)
    requires Served(part, 0, |part|, q, v) && at + |part| <= |ds| && ds[at..at + |part|] == part
    ensures Served(ds, 0, |ds|, q, v)
  {
    var k :| 0 <= k < |part| && Serves(part[k], q, v);
    assert ds[at + k] == ds[at..at + |part|][k];
  }

  /** A round of updates in which `b` is served to `v` first, once only. */
  lemma RoundStarting(sys: System, b: string, v: string) returns (ds: seq<Delivery>)
    requires b in sys && v in sys && b != v
    ensures forall i :: 0 <= i < |ds| ==> Current(sys, ds[i]) && ds[i].event.Update? && ds[i].from != ds[i].to
    ensures Covers(ds, 0, |ds|, sys.Keys) && forall i :: 0 < i < |ds| ==> !Serves(ds[i], b, v)
  {
    var msg := Listing(sys[b].localServices);
    var rest := Updates(sys, Pairs(sys.Keys) - {(b, v)});
    ds := [Delivery(b, v, Update(b, msg, 0))] + rest;
    forall p, q | p in sys && q in sys && p != q ensures Served(ds, 0, |ds|, p, q) {
      if (p, q) == (b, v) {
        assert Serves(ds[0], p, q);
      } else {
        var pair := (p, q);
        assert pair in Pairs(sys.Keys) - {(b, v)};
        assert Served(rest, 0, |rest|, pair.0, pair.1);
        ServedWithin(rest, ds, 1, p, q);
      }
    }
  }

  /** Every round leaves `v` converged, whatever its order, its repetitions and its age ticks. */
  ghost predicate RoundConverges(sys: System, v: string) {
    forall ws, ds :: IsSchedule(ws, ds) && ws[0] == sys && Covers(ds, 0, |ds|, sys.Keys) ==>
      v in ws[|ds|] && Converged(ws[|ds|], v)
  }

  lemma OrphanFails(sys: System, v: string, n: string)
    requires Healthy(sys) && v in sys && Orphan(sys, v, n)
    ensures !RoundConverges(sys, v)
  {
    var ds := Updates(sys, Pairs(sys.Keys));
    forall p, q | p in sys && q in sys && p != q ensures Served(ds, 0, |ds|, p, q) {
      var pair := (p, q);
      assert pair in Pairs(sys.Keys);
      assert Served(ds, 0, |ds|, pair.0, pair.1);
    }
    var ws := Play(sys, ds);
    ConvergesExactly(ws, ds, v);
    ScheduleIsTrace(ws, ds);
    var o := sys[v].registry[n].origin;
    forall j | 0 <= j < |ds| ensures !Drops(ws[j], ds[j], v, o) { TraceLocals(ws, ds, j); }
    assert !InTime(ws, ds, v, n);
  }

  lemma OnlyOwnerTeaches(ws: seq<System>, ds: seq<Delivery>, k: nat, v: string, b: string, n: string)
    requires IsTrace(ws, ds) && k < |ds| && Tidy(ws[0]) && Defines(ws[0], b, v, n) && Teaches(ws[k], ds[k], v, n)
    ensures Serves(ds[k], b, v)
  {
    TraceLocals(ws, ds, k);
  }

  /** If the owner is served first only, a name that is attributed to another is not learned. */
  lemma MovedTooLate(ws: seq<System>, ds: seq<Delivery>, v: string, b: string, n: string)
    requires IsTrace(ws, ds) && Tidy(ws[0]) && v in ws[0] && Defines(ws[0], b, v, n)
    requires n in ws[0][v].registry && ws[0][v].registry[n].origin != b
    requires forall k :: 0 < k < |ds| ==> !Serves(ds[k], b, v)
    ensures !InTime(ws, ds, v, n)
  {
    assert TidySite(ws[0], v);
    forall k | 0 < k < |ds| ensures !Teaches(ws[k], ds[k], v, n) {
      if Teaches(ws[k], ds[k], v, n) { OnlyOwnerTeaches(ws, ds, k, v, b, n); }
    }
  }

  lemma MovedNameFails(sys: System, v: string, b: string, n: string)
    requires Healthy(sys) && v in sys && Defines(sys, b, v, n)
    requires n in sys[v].registry && sys[v].registry[n].origin != b
    ensures !RoundConverges(sys, v)
  {
    var ds := RoundStarting(sys, b, v);
    var ws := Play(sys, ds);
    ConvergesExactly(ws, ds, v);
    ScheduleIsTrace(ws, ds);
    MovedTooLate(ws, ds, v, b, n);
  }

  /**
   * One round is sure to converge exactly when every owner is live and no peer defines a name that is attributed to
   * another.
   */
  lemma OneRoundExactly(sys: System, v: string)
    requires Healthy(sys) && v in sys
    ensures RoundConverges(sys, v) <==> LiveOwners(sys, v) && NothingMoved(sys, v)
  {
    if !LiveOwners(sys, v) {
      var n :| Orphan(sys, v, n);
      OrphanFails(sys, v, n);
    } else if !NothingMoved(sys, v) {
      var q, n :| Defines(sys, q, v, n) && n in sys[v].registry && sys[v].registry[n].origin != q;
      MovedNameFails(sys, v, q, n);
    } else {
      forall ws, ds | IsSchedule(ws, ds) && ws[0] == sys && Covers(ds, 0, |ds|, sys.Keys)
        ensures v in ws[|ds|] && Converged(ws[|ds|], v)
      {
        OneRoundSuffices(ws, ds, v);
      }
    }
  }

  /** Three sites where "db" has moved from `a` to `b`, and `v` still attributes it to `a`. */
  lemma MovedName(a: string, b: string, v: string) returns (sys: System)
    requires IsSiteTag(a) && IsSiteTag(b) && IsSiteTag(v) && a != b && a != v && b != v
    ensures Healthy(sys) && sys.Keys == {a, b, v} && Defines(sys, b, v, "db")
    ensures sys[v].registry == map["db" := DB.(origin := a)]
  {
    var sa := StartedWith(a, map[], true);
    var sb := StartedWith(b, map["db" := DB], false);
    var sv := StartedWith(v, map["db" := DB.(origin := a)], true);
    sys := map[a := sa, b := sb, v := sv];
    StartedHealthy(sys, b);
  }

  /** Such systems exist, so one round need not converge. */
  lemma OneRoundNotEnough(a: string, b: string, v: string) returns (ws: seq<System>, ds: seq<Delivery>)
    requires IsSiteTag(a) && IsSiteTag(b) && IsSiteTag(v) && a != b && a != v && b != v
    ensures IsSchedule(ws, ds) && Healthy(ws[0]) && Covers(ds, 0, |ds|, ws[0].Keys)
    ensures v in ws[0] && LiveOwners(ws[0], v)
    ensures v in ws[|ds|] && !Converged(ws[|ds|], v)
  {
    var sys := MovedName(a, b, v);
    OneRoundExactly(sys, v);
    ws, ds :| IsSchedule(ws, ds) && ws[0] == sys && Covers(ds, 0, |ds|, sys.Keys) &&
      !(v in ws[|ds|] && Converged(ws[|ds|], v));
    ScheduleLocals(ws, ds, |ds|);
  }
}
