/** The controller's live bindings: objects that are patched in place as the registry changes. */
module BindingTables {
  import opened ServiceTypes
  import opened Bindings

  class ServiceBindings {
    var origin: string
    var protocol: string
    const address: string
    var publicPort: int
    const ingressPort: int
    var aggregation: string
    var eventChannel: bool
    const headless: Option<Headless>
    var targets: map<string, Egress>

    function Value(): Binding
      reads this
    {
      Binding(origin, protocol, address, publicPort, ingressPort, aggregation, eventChannel, headless, targets)
    }

    constructor (origin: string, protocol: string, address: string, publicPort: int, headless: Option<Headless>,
                 ingressPort: int, aggregation: string, eventChannel: bool)
      ensures Value() ==
        Binding(origin, protocol, address, publicPort, ingressPort, aggregation, eventChannel, headless, map[])
    {
      this.origin, this.protocol, this.address, this.publicPort := origin, protocol, address, publicPort;
      this.ingressPort, this.headless := ingressPort, headless;
      this.aggregation, this.eventChannel := aggregation, eventChannel;
      targets := map[];
    }

    method AddTarget(address: string, name: string, selector: string, port: int)
      modifies this`targets
      ensures targets == old(targets)[TargetKey(address, name) := Egress(name, selector, "", port)]
    {
      targets := targets[TargetKey(address, name) := Egress(name, selector, "", port)];
    }

    /** A new binding's targets, with all their fields as given. */
    method FillTargets(required: ServiceInterface)
      requires targets == map[]
      modifies this`targets
      ensures targets == CreatedTargets(required.address, required.targets)
    {
      for i := 0 to |required.targets|
        invariant targets == CreatedTargets(required.address, required.targets[..i])
      {
        var t := required.targets[i];
        assert required.targets[..i + 1][..i] == required.targets[..i];
        targets := targets[TargetKey(required.address, t.name) := Egress(t.name, t.selector, t.service, t.targetPort)];
      }
      assert required.targets[..|required.targets|] == required.targets;
    }

    /** The first half of a patch: each required target is added, or given its required port. */
    method PatchTargets(required: ServiceInterface)
      modifies this`targets
      ensures targets == PatchedTargets(required, old(targets), required.targets)
    {
      for i := 0 to |required.targets|
        invariant targets == PatchedTargets(required, old(targets), required.targets[..i])
      {
        var t := required.targets[i];
        assert required.targets[..i + 1][..i] == required.targets[..i];
        var key := TargetKey(required.address, t.name);
        var targetPort := GetTargetPort(required, t);
        if key !in targets {
          AddTarget(required.address, t.name, t.selector, targetPort);
        } else if targets[key].egressPort != targetPort {
          targets := targets[key := targets[key].(egressPort := targetPort)];
        }
      }
      assert required.targets[..|required.targets|] == required.targets;
    }

    /** The second half: targets that are no longer required go, in whatever order they are visited. */
    method DropTargets(required: ServiceInterface)
      modifies this`targets
      ensures targets == KeepRequired(required, old(targets))
    {
      var todo := targets.Keys;
      while todo != {}
        invariant todo <= old(targets).Keys
        invariant forall k :: k in targets <==> k in old(targets) && (k in todo || HasTargetForName(required, k))
        invariant forall k :: k in targets ==> targets[k] == old(targets)[k]
        decreases todo
      {
        var k :| k in todo;
        todo := todo - {k};
        if !HasTargetForName(required, k) {
          targets := targets - {k};
        }
      }
    }

    /** Bringing a known binding up to date with its definition. */
    method Reconcile(required: ServiceInterface)
      modifies this
      ensures Value() == Reconciled(old(Value()), required)
    {
      protocol := required.protocol;
      publicPort := required.port;
      aggregation := required.aggregate;
      eventChannel := required.eventChannel;
      origin := required.origin;
      PatchTargets(required);
      DropTargets(required);
    }

    /** The binding as a definition, with its targets in whatever order the map is read. */
    method AsServiceInterface() returns (si: ServiceInterface)
      ensures IsPresentation(si, Value())
    {
      var ts: seq<Target> := [];
      ghost var order: seq<string> := [];
      var todo := targets.Keys;
      while todo != {}
        invariant todo <= targets.Keys && Enumerates(order, targets.Keys - todo)
        invariant ts == TargetsInOrder(targets, order)
        decreases todo
      {
        var k :| k in todo;
        todo := todo - {k};
        ts := ts + [AsTarget(targets[k])];
        order := order + [k];
      }
      si := ServiceInterface(address, protocol, publicPort, eventChannel, aggregation, headless, ts, origin, "");
      assert si == Presented(Value(), order);
    }
  }

  method NewServiceBindings(required: ServiceInterface) returns (sb: ServiceBindings)
    ensures fresh(sb) && sb.address == required.address && sb.Value() == NewBinding(required)
  {
    sb := new ServiceBindings(required.origin, required.protocol, required.address, required.port,
                              required.headless, required.port, required.aggregate, required.eventChannel);
    sb.FillTargets(required);
  }

  /** Every address of `goal` outside `todo` is as in `goal`; every other address is as it was. */
  ghost predicate Partly(before: Table, goal: Table, now: Table, todo: set<string>) {
    && now.Keys == before.Keys + (goal.Keys - todo)
    && (forall a :: a in goal && a !in todo ==> now[a] == goal[a])
    && (forall a :: a in before && (a !in goal || a in todo) ==> now[a] == before[a])
  }

  lemma PartlyNext(before: Table, goal: Table, now: Table, todo: set<string>, a: string)
    requires Partly(before, goal, now, todo) && a in todo && a in goal
    ensures Partly(before, goal, now[a := goal[a]], todo - {a})
  {
  }

  lemma PartlyDone(before: Table, goal: Table, now: Table)
    requires Partly(before, goal, now, {})
    ensures (map a | a in now && a in goal :: now[a]) == goal
  {
  }

  lemma UpdatedLater(before: Table, now: Table, defs: Services, a: string)
    requires WellKeyed(defs) && a in defs && (a in now <==> a in before) && (a in before ==> now[a] == before[a])
    ensures Updated(now, defs[a]) == Processed(before, defs)[a]
  {
  }

  class BindingTable {
    var bindings: map<string, ServiceBindings>
    ghost var Repr: set<object>

    /** Each binding is filed under its own address, so no binding object is shared. */
    ghost predicate Valid()
      reads this, Repr
      ensures Valid() ==> this in Repr
    {
      this in Repr && forall a :: a in bindings ==> bindings[a] in Repr && bindings[a].address == a
    }

    function Value(): (table: Table)
      reads this, bindings.Values
    {
      map a | a in bindings :: bindings[a].Value()
    }

    constructor ()
      ensures Valid() && Value() == map[] && fresh(Repr)
    {
      bindings := map[];
      Repr := {this};
    }

    method Create(required: ServiceInterface)
      requires Valid() && required.address !in bindings
      modifies this
      ensures Valid() && fresh(Repr - old(Repr))
      ensures Value() == old(Value())[required.address := NewBinding(required)]
    {
      var sb := NewServiceBindings(required);
      bindings, Repr := bindings[required.address := sb], Repr + {sb};
    }

    /** A binding is created or patched; all others stay as they are. */
    method UpdateServiceBindings(required: ServiceInterface)
      requires Valid()
      modifies Repr
      ensures Valid() && fresh(Repr - old(Repr))
      ensures Value() == old(Value())[required.address := Updated(old(Value()), required)]
    {
      if required.address !in bindings {
        Create(required);
      } else {
        bindings[required.address].Reconcile(required);
      }
    }

    /** Bindings whose address the registry no longer has go, in whatever order they are visited. */
    method DropBindings(defs: Services)
      requires Valid()
      modifies this`bindings
      ensures Valid() && Value() == map a | a in old(Value()) && a in defs :: old(Value())[a]
    {
      var todo := bindings.Keys;
      while todo != {}
        invariant todo <= old(bindings).Keys
        invariant forall a :: a in bindings <==> a in old(bindings) && (a in todo || a in defs)
        invariant forall a :: a in bindings ==> bindings[a] == old(bindings)[a]
        decreases todo
      {
        var a :| a in todo;
        todo := todo - {a};
        if a !in defs {
          bindings := bindings - {a};
        }
      }
    }

    /** Every definition is created or patched, in whatever order they are visited. */
    method ReconcileDefinitions(defs: Services)
      requires Valid() && WellKeyed(defs)
      modifies Repr
      ensures Valid() && fresh(Repr - old(Repr))
      ensures Partly(old(Value()), Processed(old(Value()), defs), Value(), {})
    {
      ghost var before := Value();
      ghost var goal := Processed(before, defs);
      var todo := defs.Keys;
      while todo != {}
        invariant todo <= defs.Keys
        invariant Valid() && fresh(Repr - old(Repr))
        invariant Partly(before, goal, Value(), todo)
        decreases |todo|
      {
        var a :| a in todo;
        UpdatedLater(before, Value(), defs, a);
        PartlyNext(before, goal, Value(), todo, a);
        todo := todo - {a};
        UpdateServiceBindings(defs[a]);
      }
    }

    /** Processing a registry: its definitions in any order, then the bindings that it no longer names. */
    method ProcessDefinitions(defs: Services)
      requires Valid() && WellKeyed(defs)
      modifies Repr
      ensures Valid() && fresh(Repr - old(Repr))
      ensures Value() == Processed(old(Value()), defs)
    {
      ghost var before := Value();
      ReconcileDefinitions(defs);
      PartlyDone(before, Processed(before, defs), Value());
      DropBindings(defs);
    }
  }
}
