/**
 * The controller's table of bindings, as values. Processing a registry patches the table in place; the theorems
 * compare the result with a table built afresh from the last registry alone.
 */
module Bindings {
  import opened ServiceTypes

  datatype Egress = Egress(name: string, selector: string, service: string, egressPort: int)

  datatype Binding = Binding(
    origin: string,
    protocol: string,
    address: string,
    publicPort: int,
    ingressPort: int,
    aggregation: string,
    eventChannel: bool,
    headless: Option<Headless>,
    targets: map<string, Egress>)

  type Table = map<string, Binding>

  function TargetKey(address: string, name: string): string {
    address + "@" + name
  }

  /** A target without a port of its own has the service's. */
  function PortOf(servicePort: int, t: Target): int {
    if t.targetPort != 0 then t.targetPort else servicePort
  }

  function GetTargetPort(service: ServiceInterface, target: Target): int {
    PortOf(service.port, target)
  }

  predicate HasTargetForName(si: ServiceInterface, key: string) {
    exists t :: t in si.targets && TargetKey(si.address, t.name) == key
  }

  function AsEgress(t: Target): Egress {
    Egress(t.name, t.selector, t.service, t.targetPort)
  }

  /** The targets of a new binding: ports are stored as given, and a later target of the same name wins. */
  function CreatedTargets(address: string, ts: seq<Target>): map<string, Egress> {
    if ts == [] then map[]
    else
      var t := ts[|ts| - 1];
      CreatedTargets(address, ts[..|ts| - 1])[TargetKey(address, t.name) := AsEgress(t)]
  }

  /** The targets of a known binding after visiting `t`: only the port of a known target changes. */
  function PatchedTarget(required: ServiceInterface, known: map<string, Egress>, t: Target): map<string, Egress> {
    var k := TargetKey(required.address, t.name);
    var port := GetTargetPort(required, t);
    if k in known then known[k := known[k].(egressPort := port)] else known[k := Egress(t.name, t.selector, "", port)]
  }

  function PatchedTargets(required: ServiceInterface, known: map<string, Egress>, ts: seq<Target>)
    : map<string, Egress>
  {
    if ts == [] then known
    else PatchedTarget(required, PatchedTargets(required, known, ts[..|ts| - 1]), ts[|ts| - 1])
  }

  function KeepRequired(required: ServiceInterface, targets: map<string, Egress>): map<string, Egress> {
    map k | k in targets && HasTargetForName(required, k) :: targets[k]
  }

  function NewBinding(required: ServiceInterface): Binding {
    Binding(required.origin, required.protocol, required.address, required.port, required.port, required.aggregate,
            required.eventChannel, required.headless, CreatedTargets(required.address, required.targets))
  }

  function Reconciled(b: Binding, required: ServiceInterface): Binding {
    b.(protocol := required.protocol, publicPort := required.port, aggregation := required.aggregate,
       eventChannel := required.eventChannel, origin := required.origin,
       targets := KeepRequired(required, PatchedTargets(required, b.targets, required.targets)))
  }

  function Updated(table: Table, required: ServiceInterface): Binding {
    if required.address in table then Reconciled(table[required.address], required) else NewBinding(required)
  }

  /** The table after processing the registry `defs`. */
  function Processed(table: Table, defs: Services): Table {
    map a | a in defs :: Updated(table, defs[a])
  }

  /** Bindings are filed under their address, and targets under their binding's address and their own name. */
  ghost predicate WellFiled(table: Table) {
    forall a :: a in table ==>
      table[a].address == a && forall k :: k in table[a].targets ==> k == TargetKey(a, table[a].targets[k].name)
  }

  // ---------------------------------------------------------------- what a binding means

  function EffectivePort(b: Binding, e: Egress): int {
    if e.egressPort == 0 then b.publicPort else e.egressPort
  }

  datatype TargetView = TargetView(name: string, port: int)

  datatype BindingView = BindingView(
    origin: string,
    protocol: string,
    address: string,
    publicPort: int,
    aggregation: string,
    eventChannel: bool,
    targets: map<string, TargetView>)

  /** Everything about a binding that processing keeps current. */
  function ViewOf(b: Binding): BindingView {
    BindingView(b.origin, b.protocol, b.address, b.publicPort, b.aggregation, b.eventChannel,
                map k | k in b.targets :: TargetView(b.targets[k].name, EffectivePort(b, b.targets[k])))
  }

  function Views(table: Table): map<string, BindingView> {
    map a | a in table :: ViewOf(table[a])
  }

  /** The last target filed under `key`. */
  function LastTarget(address: string, ts: seq<Target>, key: string): Option<Target> {
    if ts == [] then None
    else if TargetKey(address, ts[|ts| - 1].name) == key then Some(ts[|ts| - 1])
    else LastTarget(address, ts[..|ts| - 1], key)
  }

  /** What a definition says its binding should be: one target a name, with its last mention's port or the service's. */
  function DefinitionView(si: ServiceInterface): BindingView {
    BindingView(si.origin, si.protocol, si.address, si.port, si.aggregate, si.eventChannel,
                map k | k in (set t | t in si.targets :: TargetKey(si.address, t.name)) &&
                        LastTarget(si.address, si.targets, k).Some? ::
                  var t := LastTarget(si.address, si.targets, k).value;
                  TargetView(t.name, GetTargetPort(si, t)))
  }

  lemma {:induction false} LastTargetExists(si: ServiceInterface, ts: seq<Target>, key: string)
    ensures LastTarget(si.address, ts, key).Some? <==> exists t :: t in ts && TargetKey(si.address, t.name) == key
    ensures LastTarget(si.address, ts, key).Some? ==>
      var t := LastTarget(si.address, ts, key).value;
      t in ts && TargetKey(si.address, t.name) == key
  {
    if ts != [] {
      LastTargetExists(si, ts[..|ts| - 1], key);
      assert ts == ts[..|ts| - 1] + [ts[|ts| - 1]];
    }
  }

  lemma KeyInjective(address: string, a: string, b: string)
    ensures TargetKey(address, a) == TargetKey(address, b) ==> a == b
  {
    assert TargetKey(address, a)[|address| + 1..] == a;
    assert TargetKey(address, b)[|address| + 1..] == b;
  }

  lemma {:induction false} CreatedAt(address: string, ts: seq<Target>, key: string)
    ensures key in CreatedTargets(address, ts) <==> LastTarget(address, ts, key).Some?
    ensures key in CreatedTargets(address, ts) ==>
      CreatedTargets(address, ts)[key] == AsEgress(LastTarget(address, ts, key).value)
  {
    if ts != [] { CreatedAt(address, ts[..|ts| - 1], key); }
  }

  /** A visited target has the port of its last mention, whatever was known before. */
  lemma {:induction false} PatchedAt(required: ServiceInterface, known: map<string, Egress>, ts: seq<Target>,
                                     key: string)
    ensures var p, last := PatchedTargets(required, known, ts), LastTarget(required.address, ts, key);
      && (last.None? ==> (key in p <==> key in known) && (key in p ==> p[key] == known[key]))
      && (last.Some? ==> key in p && p[key].egressPort == GetTargetPort(required, last.value))
      && (last.Some? && key in known ==> p[key] == known[key].(egressPort := p[key].egressPort))
      && (last.Some? && key !in known ==> p[key].service == "" && TargetKey(required.address, p[key].name) == key)
  {
    if ts != [] { PatchedAt(required, known, ts[..|ts| - 1], key); }
  }

  /** Patching a filed binding shows the same as building a new one. */
  lemma ReconciledView(b: Binding, required: ServiceInterface)
    requires b.address == required.address
    requires forall k :: k in b.targets ==> k == TargetKey(b.address, b.targets[k].name)
    ensures ViewOf(Reconciled(b, required)) == ViewOf(NewBinding(required))
    ensures forall k :: k in Reconciled(b, required).targets ==>
      k == TargetKey(required.address, Reconciled(b, required).targets[k].name)
  {
    var r, n := Reconciled(b, required), NewBinding(required);
    var p := PatchedTargets(required, b.targets, required.targets);
    forall k
      ensures k in r.targets <==> k in n.targets
      ensures k in r.targets ==> k == TargetKey(required.address, r.targets[k].name)
      ensures k in r.targets ==>
        r.targets[k].name == n.targets[k].name && EffectivePort(r, r.targets[k]) == EffectivePort(n, n.targets[k])
    {
      LastTargetExists(required, required.targets, k);
      CreatedAt(required.address, required.targets, k);
      PatchedAt(required, b.targets, required.targets, k);
      if k in r.targets {
        assert r.targets[k] == p[k];
        KeyInjective(required.address, r.targets[k].name, n.targets[k].name);
      }
    }
  }

  lemma NewBindingView(required: ServiceInterface)
    ensures ViewOf(NewBinding(required)) == DefinitionView(required)
  {
    var n := NewBinding(required);
    forall k
      ensures k in n.targets <==> k in DefinitionView(required).targets
      ensures k in n.targets ==> ViewOf(n).targets[k] == DefinitionView(required).targets[k]
    {
      LastTargetExists(required, required.targets, k);
      CreatedAt(required.address, required.targets, k);
    }
  }

  lemma NewBindingFiled(required: ServiceInterface, k: string)
    requires k in NewBinding(required).targets
    ensures k == TargetKey(required.address, NewBinding(required).targets[k].name)
  {
    CreatedAt(required.address, required.targets, k);
    LastTargetExists(required, required.targets, k);
  }

  /** Processing a registry from any well-filed table shows what the registry's definitions say. */
  lemma ProcessedView(table: Table, defs: Services)
    requires WellFiled(table) && WellKeyed(defs)
    ensures WellFiled(Processed(table, defs))
    ensures Views(Processed(table, defs)) == map a | a in defs :: DefinitionView(defs[a])
  {
    forall a | a in defs
      ensures Processed(table, defs)[a].address == a
      ensures forall k :: k in Processed(table, defs)[a].targets ==>
        k == TargetKey(a, Processed(table, defs)[a].targets[k].name)
      ensures ViewOf(Processed(table, defs)[a]) == DefinitionView(defs[a])
    {
      NewBindingView(defs[a]);
      if a in table {
        ReconciledView(table[a], defs[a]);
      } else {
        forall k | k in NewBinding(defs[a]).targets ensures k == TargetKey(a, NewBinding(defs[a]).targets[k].name) {
          NewBindingFiled(defs[a], k);
        }
      }
    }
  }

  /** The table after a controller has seen the registries `history`, one after the other. */
  function Replay(history: seq<Services>): Table {
    if history == [] then map[] else Processed(Replay(history[..|history| - 1]), history[|history| - 1])
  }

  lemma {:induction false} ReplayWellFiled(history: seq<Services>)
    requires forall i :: 0 <= i < |history| ==> WellKeyed(history[i])
    ensures WellFiled(Replay(history))
  {
    if history != [] {
      ReplayWellFiled(history[..|history| - 1]);
      ProcessedView(Replay(history[..|history| - 1]), history[|history| - 1]);
    }
  }

  /**
   * Incremental reconciliation refines rebuilding: after any history of registries, the bound addresses and all that
   * is kept current about them depend on the last registry alone.
   */
  lemma ReplayRefinesRebuild(history: seq<Services>)
    requires history != [] && forall i :: 0 <= i < |history| ==> WellKeyed(history[i])
    ensures Views(Replay(history)) == Views(Replay([history[|history| - 1]]))
    ensures var last := history[|history| - 1];
      Views(Replay(history)) == map a | a in last :: DefinitionView(last[a])
  {
    var init, last := history[..|history| - 1], history[|history| - 1];
    ReplayWellFiled(init);
    ProcessedView(Replay(init), last);
    ProcessedView(map[], last);
    assert [last][..0] == [];
    assert Replay([last]) == Processed(Replay([]), last);
  }

  // ---------------------------------------------------------------- what is not kept current

  ghost predicate UniqueNames(ts: seq<Target>) {
    forall i, j :: 0 <= i < j < |ts| ==> ts[i].name != ts[j].name
  }

  /**
   * The headless and ingress fields of a binding agree with a rebuild exactly when it is new or they did not change.
   */
  lemma StaleBindingFields(table: Table, required: ServiceInterface)
    ensures Updated(table, required).headless == NewBinding(required).headless <==>
      (required.address in table ==> table[required.address].headless == required.headless)
    ensures Updated(table, required).ingressPort == NewBinding(required).ingressPort <==>
      (required.address in table ==> table[required.address].ingressPort == required.port)
  {
  }

  /** The first target filed under `key`. */
  function FirstTarget(address: string, ts: seq<Target>, key: string): Option<Target> {
    if ts == [] then None
    else
      var earlier := FirstTarget(address, ts[..|ts| - 1], key);
      if earlier.Some? then earlier
      else if TargetKey(address, ts[|ts| - 1].name) == key then Some(ts[|ts| - 1])
      else None
  }

  lemma {:induction false} FirstMention(required: ServiceInterface, known: map<string, Egress>, ts: seq<Target>,
                                        key: string)
    ensures FirstTarget(required.address, ts, key).Some? <==> LastTarget(required.address, ts, key).Some?
    ensures key !in known && key in PatchedTargets(required, known, ts) ==>
      && FirstTarget(required.address, ts, key).Some?
      && PatchedTargets(required, known, ts)[key].selector == FirstTarget(required.address, ts, key).value.selector
  {
    if ts != [] {
      FirstMention(required, known, ts[..|ts| - 1], key);
      PatchedAt(required, known, ts[..|ts| - 1], key);
    }
  }

  /** With unique names, the first mention of a target is its last. */
  lemma {:induction false} UniqueMention(address: string, ts: seq<Target>, i: nat)
    requires UniqueNames(ts) && i < |ts|
    ensures var k := TargetKey(address, ts[i].name);
      LastTarget(address, ts, k) == Some(ts[i]) && FirstTarget(address, ts, k) == Some(ts[i])
  {
    var k, init := TargetKey(address, ts[i].name), ts[..|ts| - 1];
    KeyInjective(address, ts[i].name, ts[|ts| - 1].name);
    if i < |ts| - 1 {
      UniqueMention(address, init, i);
    } else {
      NotMentioned(address, init, ts[i].name);
    }
  }

  lemma {:induction false} NotMentioned(address: string, ts: seq<Target>, name: string)
    requires forall t :: t in ts ==> t.name != name
    ensures FirstTarget(address, ts, TargetKey(address, name)) == None
  {
    if ts != [] {
      NotMentioned(address, ts[..|ts| - 1], name);
      KeyInjective(address, ts[|ts| - 1].name, name);
    }
  }

  /** What a required target has for selector and service after its binding was patched. */
  lemma ReconciledTarget(b: Binding, required: ServiceInterface, key: string)
    requires b.address == required.address && LastTarget(required.address, required.targets, key).Some?
    ensures key in Reconciled(b, required).targets && FirstTarget(required.address, required.targets, key).Some?
    ensures var e := Reconciled(b, required).targets[key];
      if key in b.targets then e.selector == b.targets[key].selector && e.service == b.targets[key].service
      else e.selector == FirstTarget(required.address, required.targets, key).value.selector && e.service == ""
  {
    LastTargetExists(required, required.targets, key);
    PatchedAt(required, b.targets, required.targets, key);
    FirstMention(required, b.targets, required.targets, key);
  }

  /**
   * A required target's selector agrees with a rebuild, which takes the last mention's, exactly when the selector
   * that was bound, or for a new target the first mention's, is the same. Its service does exactly when what was
   * bound, or "" for a new target of a known binding, is already right.
   */
  lemma StaleTargetFields(b: Binding, required: ServiceInterface, key: string)
    requires b.address == required.address && HasTargetForName(required, key)
    ensures key in Reconciled(b, required).targets && key in NewBinding(required).targets
    ensures FirstTarget(required.address, required.targets, key).Some?
    ensures LastTarget(required.address, required.targets, key).Some?
    ensures var kept, rebuilt := Reconciled(b, required).targets[key], NewBinding(required).targets[key];
      var first := FirstTarget(required.address, required.targets, key).value;
      var last := LastTarget(required.address, required.targets, key).value;
      && (kept.selector == rebuilt.selector <==>
            (if key in b.targets then b.targets[key].selector else first.selector) == last.selector)
      && (kept.service == rebuilt.service <==>
            (if key in b.targets then b.targets[key].service else "") == last.service)
  {
    LastTargetExists(required, required.targets, key);
    CreatedAt(required.address, required.targets, key);
    ReconciledTarget(b, required, key);
  }

  /** From registry `i` on, the history names `a`, but not just before. */
  ghost predicate Stretch(history: seq<Services>, i: nat, a: string) {
    && i < |history|
    && (forall j :: i <= j < |history| ==> a in history[j])
    && (i > 0 ==> a !in history[i - 1])
  }

  lemma StretchBefore(history: seq<Services>, i: nat, a: string)
    requires Stretch(history, i, a) && i < |history| - 1
    ensures Stretch(history[..|history| - 1], i, a)
  {
  }

  /**
   * After any history, the headless and ingress fields of a binding are those of the first registry of the last
   * unbroken stretch that names its address, so they agree with a rebuild exactly when the last registry repeats
   * them.
   */
  lemma {:induction false} KeptBindingFields(history: seq<Services>, i: nat, a: string)
    requires Stretch(history, i, a) && forall j :: 0 <= j < |history| ==> WellKeyed(history[j])
    ensures a in Replay(history) && a in Replay([history[|history| - 1]])
    ensures Replay(history)[a].headless == history[i][a].headless
    ensures Replay(history)[a].ingressPort == history[i][a].port
    ensures var b, rebuilt, last := Replay(history)[a], Replay([history[|history| - 1]])[a], history[|history| - 1][a];
      && (b.headless == rebuilt.headless <==> history[i][a].headless == last.headless)
      && (b.ingressPort == rebuilt.ingressPort <==> history[i][a].port == last.port)
  {
    var init, last := history[..|history| - 1], history[|history| - 1];
    assert [last][..0] == [];
    if i < |history| - 1 {
      StretchBefore(history, i, a);
      KeptBindingFields(init, i, a);
    }
  }

  /** From registry `i` on, the history's definition of `a` has a target filed under `key`, but not just before. */
  ghost predicate TargetStretch(history: seq<Services>, i: nat, a: string, key: string) {
    && i < |history|
    && (forall j :: i <= j < |history| ==> a in history[j] && HasTargetForName(history[j][a], key))
    && (i > 0 && a in history[i - 1] ==> !HasTargetForName(history[i - 1][a], key))
  }

  lemma TargetStretchBefore(history: seq<Services>, i: nat, a: string, key: string)
    requires TargetStretch(history, i, a, key) && i < |history| - 1
    ensures TargetStretch(history[..|history| - 1], i, a, key)
  {
  }

  lemma ReplayBinds(history: seq<Services>, a: string, key: string)
    requires history != [] && a in Replay(history) && WellKeyed(history[|history| - 1])
    ensures a in history[|history| - 1]
    ensures key in Replay(history)[a].targets ==> HasTargetForName(history[|history| - 1][a], key)
  {
    var def := history[|history| - 1][a];
    LastTargetExists(def, def.targets, key);
    CreatedAt(def.address, def.targets, key);
  }

  /** The selector and service of a target that is filed when a binding is created, or later. */
  ghost predicate FiledAs(e: Egress, def: ServiceInterface, key: string, known: bool)
    requires FirstTarget(def.address, def.targets, key).Some? && LastTarget(def.address, def.targets, key).Some?
  {
    if known then e.selector == FirstTarget(def.address, def.targets, key).value.selector && e.service == ""
    else
      var last := LastTarget(def.address, def.targets, key).value;
      e.selector == last.selector && e.service == last.service
  }

  /**
   * After any history, the selector and the service of a bound target date from the first registry of the last unbroken
   * stretch that names it: a binding that was created then took both from the target's last mention, and one that was
   * known then took the first mention's selector and no service.
   */
  lemma {:induction false} KeptTargetFields(history: seq<Services>, i: nat, a: string, key: string)
    requires TargetStretch(history, i, a, key) && forall j :: 0 <= j < |history| ==> WellKeyed(history[j])
    ensures a in Replay(history) && key in Replay(history)[a].targets
    ensures var def := history[i][a];
      && FirstTarget(def.address, def.targets, key).Some? && LastTarget(def.address, def.targets, key).Some?
      && FiledAs(Replay(history)[a].targets[key], def, key, i > 0 && a in history[i - 1])
  {
    var init, last := history[..|history| - 1], history[|history| - 1];
    var table := Replay(init);
    ReplayWellFiled(init);
    StaleTargetFields(NewBinding(last[a]), last[a], key);
    CreatedAt(a, last[a].targets, key);
    if i < |history| - 1 {
      TargetStretchBefore(history, i, a, key);
      KeptTargetFields(init, i, a, key);
      ReconciledTarget(table[a], last[a], key);
    } else if a in table {
      ReplayBinds(init, a, key);
      ReconciledTarget(table[a], last[a], key);
    }
  }

  lemma TargetStretchStart(history: seq<Services>, a: string, key: string) returns (i: nat)
    requires history != [] && a in history[|history| - 1] && HasTargetForName(history[|history| - 1][a], key)
    ensures TargetStretch(history, i, a, key)
  {
    i := |history| - 1;
    while i > 0 && a in history[i - 1] && HasTargetForName(history[i - 1][a], key)
      invariant i < |history|
      invariant forall j :: i <= j < |history| ==> a in history[j] && HasTargetForName(history[j][a], key)
    {
      i := i - 1;
    }
  }

  /** The selector that a target is filed with when its binding is created, or when it is added to a known one. */
  function FiledSelector(def: ServiceInterface, key: string, known: bool): string {
    var t := if known then FirstTarget(def.address, def.targets, key) else LastTarget(def.address, def.targets, key);
    if t.Some? then t.value.selector else ""
  }

  /**
   * The target under `key` as a history leaves it bound: named and ported as now, selected as when its stretch began.
   */
  ghost predicate IsDated(history: seq<Services>, i: nat, a: string, key: string, t: Target) {
    && TargetStretch(history, i, a, key)
    && var last := history[|history| - 1][a];
       var mention := LastTarget(last.address, last.targets, key);
       && mention.Some?
       && t == mention.value.(selector := FiledSelector(history[i][a], key, i > 0 && a in history[i - 1]))
  }

  ghost function DatedTargets(history: seq<Services>, a: string): iset<Target> {
    iset i: nat, key, t | IsDated(history, i, a, key, t) :: t
  }

  /** The target that `b` has under `key` is `t`, at its effective port. */
  ghost predicate Alike(b: Binding, key: string, t: Target, servicePort: int) {
    && key in b.targets
    && var u := AsTarget(b.targets[key]);
       u.name == t.name && u.selector == t.selector && PortOf(b.publicPort, u) == PortOf(servicePort, t)
  }

  /** Every target of `b` is one of `ts`. */
  ghost predicate TargetsFrom(b: Binding, ts: iset<Target>, servicePort: int) {
    forall key :: key in b.targets ==> exists t :: t in ts && Alike(b, key, t, servicePort)
  }

  /** Every one of `ts` is a target of `b`. */
  ghost predicate TargetsOf(b: Binding, ts: iset<Target>, servicePort: int) {
    forall t :: t in ts ==> exists key :: Alike(b, key, t, servicePort)
  }

  lemma ReplayShows(history: seq<Services>, a: string)
    requires history != [] && a in history[|history| - 1] && forall j :: 0 <= j < |history| ==> WellKeyed(history[j])
    ensures a in Replay(history) && ViewOf(Replay(history)[a]) == DefinitionView(history[|history| - 1][a])
  {
    ReplayRefinesRebuild(history);
    assert Views(Replay(history))[a] == DefinitionView(history[|history| - 1][a]);
  }

  lemma ViewedTarget(b: Binding, def: ServiceInterface, key: string)
    requires ViewOf(b) == DefinitionView(def) && key in b.targets
    ensures LastTarget(def.address, def.targets, key).Some?
    ensures var u, t := AsTarget(b.targets[key]), LastTarget(def.address, def.targets, key).value;
      u.name == t.name && PortOf(b.publicPort, u) == PortOf(def.port, t)
  {
    assert key in ViewOf(b).targets;
    assert ViewOf(b).targets[key] == DefinitionView(def).targets[key];
  }

  lemma DatedBound(history: seq<Services>, i: nat, a: string, key: string) returns (t: Target)
    requires TargetStretch(history, i, a, key) && forall j :: 0 <= j < |history| ==> WellKeyed(history[j])
    ensures IsDated(history, i, a, key, t)
    ensures a in Replay(history) && Alike(Replay(history)[a], key, t, history[|history| - 1][a].port)
  {
    var def := history[|history| - 1][a];
    KeptTargetFields(history, i, a, key);
    ReplayShows(history, a);
    ViewedTarget(Replay(history)[a], def, key);
    t := LastTarget(def.address, def.targets, key).value
      .(selector := FiledSelector(history[i][a], key, i > 0 && a in history[i - 1]));
  }

  /** After any history a binding has just the targets that the history dates. */
  lemma ReplayDated(history: seq<Services>, a: string)
    requires history != [] && a in history[|history| - 1] && forall j :: 0 <= j < |history| ==> WellKeyed(history[j])
    ensures a in Replay(history)
    ensures TargetsFrom(Replay(history)[a], DatedTargets(history, a), history[|history| - 1][a].port)
    ensures TargetsOf(Replay(history)[a], DatedTargets(history, a), history[|history| - 1][a].port)
  {
    ReplayShows(history, a);
    var b, ts, port := Replay(history)[a], DatedTargets(history, a), history[|history| - 1][a].port;
    forall key | key in b.targets ensures exists t :: t in ts && Alike(b, key, t, port) {
      ReplayBinds(history, a, key);
      var i := TargetStretchStart(history, a, key);
      var t := DatedBound(history, i, a, key);
      assert t in ts;
    }
    forall t | t in ts ensures exists key :: Alike(b, key, t, port) {
      var i: nat, key :| IsDated(history, i, a, key, t);
      var u := DatedBound(history, i, a, key);
    }
  }

  // ---------------------------------------------------------------- a binding as a definition

  function AsTarget(e: Egress): Target {
    Target(e.name, e.selector, e.egressPort, e.service)
  }

  /** `order` lists the keys, each once. */
  ghost predicate Enumerates(order: seq<string>, keys: set<string>) {
    && (forall k :: k in order <==> k in keys)
    && (forall i, j :: 0 <= i < j < |order| ==> order[i] != order[j])
  }

  function TargetsInOrder(targets: map<string, Egress>, order: seq<string>): (ts: seq<Target>)
    requires forall k :: k in order ==> k in targets
    ensures |ts| == |order| && forall i :: 0 <= i < |order| ==> ts[i] == AsTarget(targets[order[i]])
  {
    seq(|order|, i requires 0 <= i < |order| => AsTarget(targets[order[i]]))
  }

  /** The definition that a binding amounts to, with its targets in the given order. */
  function Presented(b: Binding, order: seq<string>): ServiceInterface
    requires forall k :: k in order ==> k in b.targets
  {
    ServiceInterface(b.address, b.protocol, b.publicPort, b.eventChannel, b.aggregation, b.headless,
                     TargetsInOrder(b.targets, order), b.origin, "")
  }

  /** `si` is the binding as a definition, with each target once. */
  ghost predicate IsPresentation(si: ServiceInterface, b: Binding) {
    exists order :: Enumerates(order, b.targets.Keys) && si == Presented(b, order)
  }

  /** Some position of `ts` has `t`, and no later one has a target of its name. */
  ghost predicate MentionedLast(ts: seq<Target>, t: Target) {
    exists i :: 0 <= i < |ts| && ts[i] == t && forall j :: i < j < |ts| ==> ts[j].name != t.name
  }

  lemma {:induction false} LastMentioned(address: string, ts: seq<Target>, t: Target)
    ensures LastTarget(address, ts, TargetKey(address, t.name)) == Some(t) <==> MentionedLast(ts, t)
  {
    if ts != [] {
      var k := |ts| - 1;
      KeyInjective(address, ts[k].name, t.name);
      LastMentioned(address, ts[..k], t);
      if ts[k].name == t.name {
        if MentionedLast(ts, t) {
          var i :| 0 <= i < |ts| && ts[i] == t && forall j :: i < j < |ts| ==> ts[j].name != t.name;
          assert i == k;
        }
      } else {
        if MentionedLast(ts, t) {
          var i :| 0 <= i < |ts| && ts[i] == t && forall j :: i < j < |ts| ==> ts[j].name != t.name;
          assert ts[..k][i] == t;
        }
        if MentionedLast(ts[..k], t) {
          var i :| 0 <= i < k && ts[..k][i] == t && forall j :: i < j < k ==> ts[..k][j].name != t.name;
          assert ts[i] == t;
          forall j | i < j < |ts| ensures ts[j].name != t.name { if j < k { assert ts[..k][j] == ts[j]; } }
        }
      }
    }
  }

  /**
   * A new binding is presented as the definition it was made from, but for its alias: with the same targets, in some
   * order, each as it was last mentioned.
   */
  lemma PresentsDefinition(required: ServiceInterface, order: seq<string>)
    requires Enumerates(order, NewBinding(required).targets.Keys)
    ensures var si := Presented(NewBinding(required), order);
      && si == required.(targets := si.targets, alias := "")
      && forall t :: t in si.targets <==> MentionedLast(required.targets, t)
  {
    var b := NewBinding(required);
    var si := Presented(b, order);
    forall t ensures t in si.targets <==> MentionedLast(required.targets, t) {
      var k := TargetKey(required.address, t.name);
      LastMentioned(required.address, required.targets, t);
      CreatedAt(required.address, required.targets, k);
      if t in si.targets {
        var i :| 0 <= i < |order| && si.targets[i] == t;
        assert order[i] in order;
        CreatedAt(required.address, required.targets, order[i]);
        NewBindingFiled(required, order[i]);
      }
      if MentionedLast(required.targets, t) {
        assert k in order;
        var i :| 0 <= i < |order| && order[i] == k;
        assert si.targets[i] == t;
      }
    }
  }

  lemma PresentedForm(b: Binding, order: seq<string>, def: ServiceInterface)
    requires Enumerates(order, b.targets.Keys) && ViewOf(b) == DefinitionView(def)
    requires forall k :: k in b.targets ==> k == TargetKey(def.address, b.targets[k].name)
    ensures var si := Presented(b, order);
      && si == def.(headless := b.headless, targets := si.targets, alias := "")
      && |si.targets| == |order| == |b.targets|
      && forall k :: 0 <= k < |order| ==>
           var e := b.targets[order[k]];
           && si.targets[k] == Target(e.name, e.selector, e.egressPort, e.service)
           && order[k] == def.address + "@" + e.name
  {
    EnumerationSize(order, b.targets.Keys);
    forall k | 0 <= k < |order| ensures order[k] in b.targets { assert order[k] in order; }
  }

  /**
   * After any history a binding is presented as the last definition, but for alias, targets and the headless values.
   */
  lemma PresentsLast(history: seq<Services>, i: nat, a: string, order: seq<string>)
    requires Stretch(history, i, a) && forall j :: 0 <= j < |history| ==> WellKeyed(history[j])
    requires a in Replay(history) && Enumerates(order, Replay(history)[a].targets.Keys)
    ensures var si, last := Presented(Replay(history)[a], order), history[|history| - 1][a];
      && si == last.(headless := history[i][a].headless, targets := si.targets, alias := "")
      && |si.targets| == |order| == |Replay(history)[a].targets|
      && forall k :: 0 <= k < |order| ==>
           var e := Replay(history)[a].targets[order[k]];
           si.targets[k] == Target(e.name, e.selector, e.egressPort, e.service) && order[k] == a + "@" + e.name
  {
    ReplayShows(history, a);
    KeptBindingFields(history, i, a);
    ReplayWellFiled(history);
    PresentedForm(Replay(history)[a], order, history[|history| - 1][a]);
  }

  lemma {:induction false} EnumerationSize(order: seq<string>, keys: set<string>)
    requires Enumerates(order, keys)
    ensures |order| == |keys|
  {
    if order == [] {
      assert keys == {};
    } else {
      var k := |order| - 1;
      forall x | x in keys - {order[k]} ensures x in order[..k] {
        var i :| 0 <= i < |order| && order[i] == x;
        assert order[..k][i] == x;
      }
      EnumerationSize(order[..k], keys - {order[k]});
    }
  }
}
