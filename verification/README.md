# Verification of the service controller and its command line

This project models the parts of the repository where mistakes would be hardest to see, and proves what they promise:

- **The service-sync protocol** of the service controller (`SiteSync`, `SiteRuns`, `Convergence`, `Rounds`,
  `Provenance`, `Controllers`). Every site keeps a registry of service definitions, multicasts its own, merges those of its peers under an origin
  tag, withdraws what a peer stops advertising, and ages out peers that fall silent. `SiteSync` gives one site's state and
  handlers as functions; `Controllers.Controller` is the controller with its mutable maps, whose methods are proved to
  compute those functions for every order of map iteration. `SiteRuns` speaks of all runs of one site, `Convergence` of all
  schedules of updates between any number of sites with stable services, `Rounds` of rounds of them, and
  `Provenance` of all runs of any number of sites over a network that may lose, delay, repeat and reorder messages, with
  watcher and command line interleaved freely.
- **Reconciliation of bindings** (`Bindings`, `BindingTables`): patching the live table agrees with the last registry alone.
- **The router configuration** (`RouterConfigs`, `ProxyConfigs`): builder, printer and parser, and the compilation of a
  definition into the bridges of its proxy.
- **Connectors** (`Connectors`, `NewRouters`): sessions of creations and removals that read, edit and rewrite the router's file,
  from the file that a new router starts with.
- **The command line's registry operations** (`ServiceCli`, `CommandMeanings`): create, bind, expose, unbind and remove, and their link to the
  hypothesis that the protocol makes about local edits.

Two conventions hold throughout. A Go map is a Dafny map, and ranging over it is a loop that picks the keys in an
arbitrary order. A file is the value that it decodes to, and a write is followed by the watcher's step where the source's
watcher would run; `SiteState.pending` records that the step is due. Methods that index a registry require its entries to be filed
under their own address: every writer keeps that (`ServiceCli.CommandsTidy`, `SiteSync.StepInSync`).

## What turned out otherwise

Where the code does less than one might expect, the model follows the code and a lemma gives the exact condition:

- Deleting another site's entry by hand leaves its name in the origin index (`SiteSync.RemoveKeepsSync`), and then an update
  of that site deletes an entry that a third site owns (`SiteRuns.RemovedRemoteNameIsLost`).
- An update whose sender is called "" or "annotation" can change local entries (`SiteSync.LocalEntriesSafe`).
- A schedule of updates and age ticks leaves a site with what its peers define exactly when it comes in time for every name: a
  wrong entry has to be dropped, by its tag's owner or by age, before the right owner is heard (`Convergence.ConvergesExactly`). So
  one round is sure to converge exactly when every tagged entry belongs to a live peer and no peer defines a name that is
  attributed to another (`Rounds.OneRoundExactly`; `Rounds.OneRoundNotEnough` is a system where it fails), and two rounds converge
  exactly when every orphaned entry is aged out and its new owner heard after that (`Rounds.TwoRoundsConverge`).
- Event channel and aggregation are not sent, and what arrives is compared with indexes that have forgotten them. So an update
  without them leaves the entry that has one exactly where the two agree on everything else (`SiteSync.EquivalentExactly`,
  `SiteSync.DroppedEventChannel`), and no schedule mends that (`Convergence.FlagsExactly`, `Convergence.KeptEventChannel`). Such entries
  come from initial files: in runs from fresh sites no site has a flag for another site's service (`Provenance.FlagsNeverTravel`).
- An update with an event channel or an aggregation is written again every time it is heard (`SiteSync.Quiescence`).
- Entries tagged with the site's own id are never aged out (`SiteRuns.OwnTagNeverAges`), so the bound on staleness holds for exactly
  the other tags (`SiteRuns.FreshExactly`). They come only from an initial file: runs from fresh sites never make one
  (`Provenance.RemoteEntriesHaveOwners`).
- A known binding keeps its headless and ingress fields, its targets keep their selectors, and a target added to it loses its
  service (`Bindings.StaleBindingFields`, `Bindings.StaleTargetFields`); over a history these fields date from the start of the last
  unbroken stretch (`Bindings.KeptBindingFields`, `Bindings.KeptTargetFields`).
- A proxy compiled from a binding equals its definition's, in every order of targets, exactly when the bound targets with the
  selectors that they have kept offer just the egresses that the definition's list compiles to (`ProxyConfigs.RoutesAgreeExactly`);
  after a history of registries that depends on when each target was filed (`ProxyConfigs.RoutesOverHistory`). For a binding whose
  selectors are current the condition speaks of the last mentions of the targets (`ProxyConfigs.RoutesAgree`), and for unique target
  names of targets that want the same egress at different ports (`ProxyConfigs.UniqueMentionsAgree`).
- Binding a target twice is not idempotent when its port was used to deduce the service's (`ServiceCli.Rebind`), and a target
  port outside 0..65535 is stored (`ServiceCli.BindPorts`, `ServiceCli.RunValid`).
- Unbinding undoes binding only under a condition on the other targets (`ServiceCli.UnbindUndoesBind`).
- Generated connector names end at conn10, which can be taken (`Connectors.GeneratedNameTaken`).

## Model

| member | source | states |
|---|---|---|
| SiteSync.WatchSyncs | cmd/service-controller/service_sync.go:30-83 | after a watcher step all four indexes are exact projections of the registry if and only if the registry is filed by address and no indexed name is stale |
| SiteSync.IndexesMean | cmd/service-controller/service_sync.go:37-56 | in a synchronised state the local services are the entries without another site's tag, each origin has the entries with its tag, and every indexed value has the entry's address, protocol, port, headless values and tag, and no event channel, aggregation, targets or alias |
| SiteSync.InSyncDisjoint | cmd/service-controller/service_sync.go:21-28 | in a synchronised state no name is held by two origins |
| SiteSync.HandledDisjoint | cmd/service-controller/service_sync.go:21-28 | the same between any handler and its watcher step, so the early return while pruning is sound |
| SiteSync.StepInSync | cmd/service-controller/service_sync.go:30-83 | every handler followed by its watcher step keeps the indexes exact, for any update, tick or permitted local edit |
| SiteSync.StartInSync | cmd/service-controller/controller.go:298-304 | a started controller is synchronised and has a last-heard time for exactly the remote origins other than its own id |
| SiteSync.RemoveKeepsSync | client/serviceinterface_remove.go:38-42 | removing an entry by hand keeps the indexes exact if and only if the entry is local |
| SiteSync.ExactMerge | cmd/service-controller/service_sync.go:102-139 | after an update from A the entries of A are exactly the advertised names that were absent or A's; each is the advertised definition, or the old entry where that agrees on address, protocol, port and headless and the advertised one has neither event channel nor aggregation; every other entry is untouched |
| SiteSync.EquivalentExactly | cmd/service-controller/service_sync.go:85-114 | after an update from A its entry has the protocol, port, headless values, event channel and aggregation that it advertised unless, exactly, a definition without event channel and aggregation met an entry with one that agreed on the rest |
| SiteSync.DroppedEventChannel | cmd/service-controller/service_sync.go:37-45 | for every sender there are a synchronised state and an update after which the entry still has the event channel that the sender dropped |
| SiteSync.WriteOrderIrrelevant | cmd/service-controller/controller.go:109-115 | changed and deleted names are disjoint, so applying them in either order gives the same registry |
| SiteSync.LocalEntriesSafe | cmd/service-controller/service_sync.go:264-275 | updates from a sender leave every local entry alone in every state if and only if the sender's name is a proper site tag |
| SiteSync.ExactAge | cmd/service-controller/service_sync.go:179-209 | the age tick removes exactly the remote entries whose origin was silent for 60 seconds or more |
| SiteSync.Quiescence | cmd/service-controller/service_sync.go:85-100 | repeating an update causes no write if and only if every definition the sender owns here has no event channel and no aggregation |
| SiteSync.IndexMeans | cmd/service-controller/service_sync.go:263-276 | a received message is indexed by address under the sender's tag, and the last definition of an address counts |
| SiteSync.IndexAdvertised | cmd/service-controller/service_sync.go:164-177 | whatever order the sender lists its services in, the receiver indexes the same tagged definitions |
| SiteSync.SentUpdatesQuiesce | cmd/service-controller/service_sync.go:127-129 | an update built from a synchronised sender's local services is absorbed once and then causes no write |
| SiteRuns.OwnershipSafety | cmd/service-controller/service_sync.go:102-139 | over any stretch of any run an entry stays as it is unless its own origin sends an update, a tick finds that origin silent, or the name is edited locally |
| SiteRuns.RemovedRemoteNameIsLost | client/serviceinterface_remove.go:38-42 | without the hypothesis on local removals, an update from A deletes an entry owned by B |
| SiteRuns.BoundedStaleness | cmd/service-controller/service_sync.go:179-209 | in every started run the origin of each entry tagged with another site's id was heard less than 60 seconds before the last tick, so less than 90 seconds before any time up to 30 seconds later |
| SiteRuns.OwnTagNeverAges | cmd/service-controller/controller.go:300-304 | an entry tagged with the site's own id survives every update and tick |
| SiteRuns.FreshExactly | cmd/service-controller/controller.go:300-304 | the 60-second bound holds of a tag in all started runs if and only if it is not the site's own id |
| SiteRuns.OwnTagOutlivesBound | cmd/service-controller/controller.go:300-304 | a run in which an entry of the initial file with the site's own tag is still there when the tick finds it 60 seconds old |
| Convergence.ConvergesExactly | cmd/service-controller/service_sync.go:102-139 | in any synchronised system with unique names, any schedule of updates and of age ticks that find no live site silent leaves a registry with exactly its own services and every peer's, tagged with their owner and agreeing on address, protocol, port and headless, if and only if it comes in time for each name: unknown names are taught, owned ones are right or their owner is heard, wrong ones are dropped and then taught |
| Convergence.FlagsExactly | cmd/service-controller/service_sync.go:85-100 | in a converged registry a peer's entry is equivalent to what the peer advertises, event channel and aggregation included, if and only if it was not at the outset a right entry with an event channel or aggregation |
| Convergence.KeptEventChannel | cmd/service-controller/service_sync.go:37-45 | for any two site names there is a converged system with an event channel that the owner does not advertise |
| Rounds.TwoRoundsConverge | cmd/service-controller/service_sync.go:102-139 | two rounds in any order, with repeats and age ticks in between, leave a site converged if and only if every entry of a tag that is no live peer's is aged out by some tick and its owner, if there is one, is heard after that |
| Rounds.PurgedRoundsConverge | cmd/service-controller/service_sync.go:179-209 | so two rounds suffice if the site has no such entries or a tick of the first round finds all their tags silent |
| Rounds.OneRoundExactly | cmd/service-controller/service_sync.go:102-139 | in any synchronised system with unique names, every round leaves a site converged if and only if its tagged entries all belong to live peers and no peer defines a name that it attributes to another |
| Convergence.ConvergenceStable | cmd/service-controller/service_sync.go:263-276 | further current updates keep a converged site converged |
| Rounds.OneRoundNotEnough | cmd/service-controller/service_sync.go:108-112 | for any three site names there are a system with live owners and a full round after which a site has not converged |
| Convergence.LateWithdrawal | cmd/service-controller/service_sync.go:116-125 | in any schedule of updates and ticks, if a name moved from A to B and B is not heard after A, the receiver keeps the old entry until A is heard and then stays without the name |
| Provenance.RemoteEntriesHaveOwners | cmd/service-controller/service_sync.go:37-56 | in every run an entry tagged O has the address, protocol, port and headless values of a service O once held as its own, and O is another site |
| Provenance.NeverReadvertises | cmd/service-controller/service_sync.go:164-177 | no message ever contains a definition that its sender attributes to another site |
| Provenance.FlagsNeverTravel | cmd/service-controller/service_sync.go:37-56 | in every run from fresh sites no message has a definition with an event channel, an aggregation, targets or an alias, and no entry of another site's service has one but for targets set by hand |
| Controllers.Controller.PareByOrigin | cmd/service-controller/service_sync.go:21-28 | the name leaves one origin that held it, or nothing changes because none did |
| Controllers.Controller.ServiceSyncDefinitionsUpdated | cmd/service-controller/service_sync.go:30-83 | the two projections and the filing of remote names come out for every iteration order, and the origin index too where no local name is held twice |
| Controllers.Controller.UpdateSkupperServices | cmd/service-controller/controller.go:93-127 | the file gets the changed entries in order and loses the deleted names, and is written unless both lists are empty |
| Controllers.PutAllListed | cmd/service-controller/controller.go:109-111 | storing the listed definitions in any order overrides the registry with them |
| Controllers.Controller.FindChanged | cmd/service-controller/service_sync.go:108-114 | the result lists exactly the definitions that are unknown, or differ from what is known as the sender's |
| Controllers.Controller.FindWithdrawn | cmd/service-controller/service_sync.go:116-125 | the result lists exactly the sender's names that its update does not mention |
| Controllers.Controller.EnsureServiceInterfaceDefinitions | cmd/service-controller/service_sync.go:102-139 | the new state is that of the merge step |
| Controllers.Controller.ReceiveUpdate | cmd/service-controller/service_sync.go:263-276 | a message from the site itself is ignored, and any other is tagged, keyed and merged |
| Controllers.Controller.SendLocal | cmd/service-controller/service_sync.go:164-177 | the message lists each local service once |
| Controllers.Controller.AgeOrigins | cmd/service-controller/service_sync.go:179-209 | the new state is that of the age step |
| Controllers.Controller.ProcessServiceDefs | cmd/service-controller/controller.go:260-283 | the indexes become the watcher's and the bindings the reconciled ones |
| Controllers.Controller.StartWatcher | cmd/service-controller/controller.go:298-304 | the new state is that of a started site |
| Controllers.Controller.Take | cmd/service-controller/controller.go:307-316 | from a synchronised state, an event and the watcher's run after it are one step of the protocol |
| Bindings.ReplayRefinesRebuild | cmd/service-controller/bridges.go:91-139 | after any history of registries the table shows what the last registry's definitions say, as a rebuild from it would |
| Bindings.ProcessedView | cmd/service-controller/controller.go:266-281 | processing a registry from any well-filed table binds exactly its addresses, each as its definition says, and keeps the table well filed |
| Bindings.ReconciledView | cmd/service-controller/bridges.go:104-137 | patching a binding and creating it anew agree on all that is kept current, although one stores defaulted ports and the other raw ones |
| Bindings.PatchedAt | cmd/service-controller/bridges.go:122-130 | each required target gets the port of its last mention and keeps all else, and other targets are untouched |
| Bindings.NewBindingView | cmd/service-controller/bridges.go:93-103 | a new binding shows its definition: one target a name, with the last mention's port or the service's |
| Bindings.StaleBindingFields | cmd/service-controller/bridges.go:104-120 | headless and ingress port agree with a rebuild if and only if the binding is new or they did not change |
| Bindings.KeptBindingFields | cmd/service-controller/bridges.go:104-120 | after any history headless and ingress port are those of the first registry of the last unbroken stretch that names the address, and agree with a rebuild if and only if the last registry repeats them |
| Bindings.StaleTargetFields | cmd/service-controller/bridges.go:122-130 | a target's selector agrees with a rebuild if and only if the bound one, or for a new target the first mention's, is the last mention's, and its service if and only if the bound one, or none for a new target of a known binding, is |
| Bindings.KeptTargetFields | cmd/service-controller/bridges.go:91-139 | after any history a target's selector and service date from the first registry of the last unbroken stretch that names it, from the last mention if the binding was created then, else from the first and without a service |
| Bindings.ReplayDated | cmd/service-controller/bridges.go:91-139 | after any history a binding has exactly the targets that the last definition names, at its effective ports, with the selectors of when their stretches began |
| Bindings.PresentsDefinition | cmd/service-controller/bridges.go:35-54 | a new binding is presented as the definition it was made from, event channel, aggregation and headless values included, with the same targets as they were last mentioned, but without the alias |
| Bindings.PresentsLast | cmd/service-controller/bridges.go:35-54 | after any history a binding is presented as the last definition, but for the alias, the targets it has, and the headless values of when its stretch began |
| BindingTables.ServiceBindings.AddTarget | cmd/service-controller/bridges.go:155-162 | the target is filed without a service |
| BindingTables.ServiceBindings.FillTargets | cmd/service-controller/bridges.go:95-102 | the targets of a new binding, in order, later namesakes winning |
| BindingTables.ServiceBindings.PatchTargets | cmd/service-controller/bridges.go:122-130 | the targets become the patched ones |
| BindingTables.ServiceBindings.DropTargets | cmd/service-controller/bridges.go:132-136 | exactly the required targets remain, for every iteration order |
| BindingTables.ServiceBindings.Reconcile | cmd/service-controller/bridges.go:104-137 | the binding becomes the reconciled one |
| BindingTables.ServiceBindings.AsServiceInterface | cmd/service-controller/bridges.go:35-54 | the result is the binding as a definition with each target once, in some order |
| BindingTables.NewServiceBindings | cmd/service-controller/bridges.go:141-153 | a fresh object that holds the new binding |
| BindingTables.BindingTable.UpdateServiceBindings | cmd/service-controller/bridges.go:91-139 | the binding of the address is created or patched and all others stay |
| BindingTables.BindingTable.ReconcileDefinitions | cmd/service-controller/controller.go:267-270 | every definition is created or patched, for every order, and all other bindings stay |
| BindingTables.BindingTable.ProcessDefinitions | cmd/service-controller/controller.go:266-281 | the table becomes the processed one, for every order of definitions and of deletions |
| RouterConfigs.RoundTrip | pkg/qdr/qdr.go:290-460 | parsing the tuples of a keyed configuration in any order, even repeated, gives the configuration back |
| RouterConfigs.BuiltRoundTrip | pkg/qdr/qdr.go:88-186 | this holds of every configuration built from an initial one by any sequence of Add and Remove methods |
| RouterConfigs.EditsKeyed | pkg/qdr/qdr.go:88-186 | any sequence of Add and Remove methods keeps every element under its own name or prefix |
| RouterConfigs.EditHolds | pkg/qdr/qdr.go:88-186 | an Add method fills one slot, with the defaults for names and certificate files, a Remove method clears one, and no other slot changes |
| RouterConfigs.DecodeKeepsLast | pkg/qdr/qdr.go:290-390 | parsing fails exactly on malformed items, and otherwise keeps exactly the last item of each slot |
| RouterConfigs.DecodeIdempotent | pkg/qdr/qdr.go:290-460 | printing what was parsed and parsing it again changes nothing, and prints only items that are the last of their slot |
| RouterConfigs.ItoaMeans | pkg/qdr/qdr.go:488 | a printed port is the decimal numeral of the number, with a sign if it is negative |
| RouterConfigs.ItoaInjective | pkg/qdr/qdr.go:488 | different ports are printed differently |
| RouterConfigs.UnmarshalRouterConfig | pkg/qdr/qdr.go:290-390 | the parser's loop computes the decoding and fails where it fails |
| RouterConfigs.MarshalRouterConfig | pkg/qdr/qdr.go:392-460 | the printer emits one tuple for the metadata and one for each map entry |
| RouterConfigs.RouterConfig.AddListener | pkg/qdr/qdr.go:88-93 | the listener is added under its name, which defaults to host and port |
| RouterConfigs.RouterConfig.AddConnector | pkg/qdr/qdr.go:95-97 | the connector is added under its name |
| RouterConfigs.RouterConfig.RemoveConnector | pkg/qdr/qdr.go:99-107 | the connector goes, and the result says whether it was there |
| RouterConfigs.RouterConfig.AddSslProfile | pkg/qdr/qdr.go:113-120 | the profile is added with the site's certificate files unless it names its own |
| RouterConfigs.RouterConfig.AddConnSslProfile | pkg/qdr/qdr.go:122-130 | the profile is added with its connection's certificate files unless it names its own |
| RouterConfigs.RouterConfig.RemoveConnSslProfile | pkg/qdr/qdr.go:132-141 | the connector's profile goes, and the result says whether it was there |
| ProxyConfigs.EgressesReach | pkg/qdr/qdr.go:492-581 | the decoded proxy of a local definition has an egress called "egress-" and the host for exactly the hosts at which targets are reached: a container at its name, a host service at its name up to the first colon, others nowhere; it connects there at the port of the last such target or the service's |
| ProxyConfigs.ProxyExact | pkg/qdr/qdr.go:480-616 | the decoded proxy has exactly one ingress, no egress for a definition with an origin, and else one egress a name, to the host and port of its last target |
| ProxyConfigs.ProxyFrame | pkg/qdr/qdr.go:463-479 | apart from its bridges the decoded proxy is an edge router of the site with one uplink to skupper-router at 45671, that uplink's profile, and one listener at localhost and 5672, field by field |
| ProxyConfigs.UnknownProtocolExact | pkg/qdr/qdr.go:583-584 | the decoded proxy has no bridges at all if and only if the protocol is not one of the three |
| ProxyConfigs.EgressesExact | pkg/qdr/qdr.go:492-515 | there is an egress exactly for the names that targets give, and the last such target decides it |
| ProxyConfigs.GetRouterConfigForProxy | pkg/qdr/qdr.go:462-618 | the printed tuples are those of the compiled configuration and parse back to it |
| ProxyConfigs.RoutesAgreeExactly | cmd/service-controller/bridges.go:35-54 | a proxy compiled from a binding with the definition's address, port, origin and protocol equals the definition's in every target order if and only if there is no egress or the bound targets, with whatever selectors they have, offer exactly the egresses that the definition's list compiles to |
| ProxyConfigs.RoutesOverHistory | cmd/service-controller/bridges.go:91-139 | after any history of registries the live binding's proxy equals the last definition's in every target order if and only if there is no egress or the targets, with the selectors they were filed with, offer exactly the egresses that the last definition's list compiles to |
| ProxyConfigs.RoutesAgree | cmd/service-controller/bridges.go:35-54 | for a binding whose view and selectors are current that condition is that the last mentions of the definition's targets offer exactly the egresses that its whole list compiles to |
| ProxyConfigs.UniqueMentionsAgree | pkg/qdr/qdr.go:492-515 | for unique target names that condition holds if and only if no two targets want one egress at different ports |
| ProxyConfigs.ReconciledUpToDate | cmd/service-controller/bridges.go:104-137 | a reconciled binding is up to date if and only if the selectors that its targets had, or the first mentions' for new targets, are those of the last mentions |
| Connectors.CapturedMeans | client/connector_create.go:20-24 | the pattern captures nothing exactly where no "conn" is followed by a digit, and else the last digit of the run after the first such "conn" |
| Connectors.GenerateConnectorName | client/connector_create.go:16-34 | the name carries one more than the largest captured digit of the listing, and at least 1 |
| Connectors.GeneratedNameTaken | client/connector_create.go:16-34 | the generated name is taken if and only if conn10 is listed together with a name that captures 9 |
| Connectors.SessionSound | client/connector_create.go:96-119 | over all sessions the profiles are the initial ones and one for each connector with its own files, roles follow the router's mode, and nothing else changes |
| NewRouters.NewRouterSound | client/router_create.go:105-177 | the file of a new router, in mode edge or interior, is a sound start for any session |
| NewRouters.NewRouterExact | client/router_create.go:105-177 | the decoded file of a new router has exactly the listeners, the address and the profiles of its mode and console, field by field, and no connectors or bridges |
| Connectors.CreateMeans | client/connector_create.go:59-122 | a creation is refused exactly for a token without origin or of this site, or for an existing directory, fails on an unreadable file, and else adds one connector to the token's edge end if the router is an edge and to its inter-router end if not, with the given cost, and one profile with the files of its own directory, and nothing else |
| Connectors.RemoveMeans | client/connector_remove.go:28-46 | a removal fails exactly on an unreadable file and takes the connector, its profile and its directory if the connector is there, and nothing otherwise |
| Connectors.SessionConnects | client/connector_create.go:96-119 | over all sessions each connector has the role, end and cost that the last creation of its name asked for |
| Connectors.ConnectionProfileOwn | pkg/qdr/qdr.go:122-130 | a connector's profile points at that connector's own directory, whatever its name ends in |
| Connectors.CreateRemoveRestores | client/connector_remove.go:33-36 | creating and removing a connector restores the configuration if and only if neither its name nor its profile was there |
| Connectors.CreateRemoveThroughFile | client/connector_remove.go:28-46 | the same if and only if through the file: the first write can be read back, and the second write decodes to the old configuration exactly under that condition |
| Connectors.CreateUndone | client/connector_remove.go:28-46 | in any sound store, removing what a successful creation reports restores directories and configuration |
| Connectors.UnnamedRefused | client/connector_create.go:68-78 | with a valid token, creation without a name is refused for its directory if and only if conn10 and a 9 are listed |
| Connectors.ConnectorClient.ConnectorCreate | client/connector_create.go:59-122 | the outcome and the new directories and file are those of the creation step, with every refusal |
| Connectors.ConnectorClient.ConnectorRemove | client/connector_remove.go:28-46 | the outcome and the new directories and file are those of the removal step |
| ServiceCli.ValidExactly | client/serviceinterface_update.go:104-128 | validation accepts exactly services with ports in range and options that fit their protocol |
| ServiceCli.AddTargetToServiceInterface | client/serviceinterface_update.go:14-29 | the target takes the place of its namesakes or comes last |
| ServiceCli.RemoveMatching | client/serviceinterface_update.go:238-261 | the targets that the rule does not match remain in order, and the flag says whether one matched |
| ServiceCli.UnmatchedExactly | client/serviceinterface_update.go:242-261 | a target remains after unbinding if and only if it was there and the rule, with the default host filled in for host services, does not match it |
| ServiceCli.UnbindUndoesBind | client/serviceinterface_update.go:31-71 | binding then unbinding restores the target list in order if and only if no target has the bound name and none matched already |
| ServiceCli.UnbindCommandUndoesBind | client/serviceinterface_update.go:158-204 | the same for the two commands, the second of which always succeeds and touches only that key; the whole registry returns if and only if, besides, the entry already was a local one with a port |
| ServiceCli.Rebind | client/serviceinterface_update.go:181-203 | binding again changes nothing if and only if the port is in range and was not used to deduce the service's; it never changes an effective port, and a third time changes nothing |
| ServiceCli.BindMeans | client/serviceinterface_update.go:158-204 | exactly when a bind succeeds, which port the service then has, and the one target it places: its name with the default address for a host service without one, its selector, its port, an empty service, in the place of its namesakes or last, all other targets staying in place |
| ServiceCli.BindRefused | client/serviceinterface_update.go:174-201 | which fault a refused bind reports: the first of a bad service, another protocol, an unknown container or target type, and no port |
| ServiceCli.BindPorts | client/serviceinterface_update.go:185-201 | a successful bind leaves the service port and every effective target port in 1..65535 if and only if the given port is in 0..65535 |
| CommandMeanings.CreateMeans | client/serviceinterface_create.go:9-32 | a create adds a valid service under a free address as a local one, changes nothing at a known address, and reports what is wrong with an invalid one |
| CommandMeanings.BindCommandMeans | client/serviceinterface_update.go:158-204 | a bind works on the service that is there and changes that entry alone, or reports that there is none |
| CommandMeanings.ExposeMeans | cmd/skupper-exp/main.go:69-95 | an expose binds the known service, with all its targets, or a new one of the given protocol and port, refuses another protocol than the known one, and changes that entry alone |
| CommandMeanings.UnbindMeans | client/serviceinterface_update.go:206-306 | an unbind fails exactly for another target type, an unknown service or no matching target; the service goes if and only if deletion was asked for and every target matches, and else keeps all but the matching targets, in order |
| CommandMeanings.RemoveMeans | client/serviceinterface_remove.go:38-54 | a remove fails exactly at an unknown address, and else that entry alone is gone |
| CommandMeanings.FaultsMean | client/serviceinterface_update.go:104-128 | the fault of an invalid service names something wrong with it, and nothing that is checked earlier is wrong |
| ServiceCli.RunTidy | client/serviceinterface_update.go:73-102 | a successful command touches one key, leaves there a local definition, the old one with other targets, or nothing, and keeps keys and target names right |
| ServiceCli.CommandsTidy | client/serviceinterface_update.go:206-282 | over every sequence of commands entries are filed under their address and name each target once |
| ServiceCli.RunValid | client/serviceinterface_update.go:104-128 | on a registry of valid entries a successful command leaves only valid entries if and only if the target port that it gives, if it does, is in 0..65535 |
| ServiceCli.RefusedForPorts | client/serviceinterface_update.go:104-128 | on a registry of valid entries a bind or expose is refused for its service's ports if and only if it is an expose of a new service with a port out of range |
| ServiceCli.CommandsValid | client/serviceinterface_update.go:158-204 | over every sequence of commands with target ports in range every entry of a valid registry stays valid, so no bind or expose is ever refused for the ports of a service that is there |
| ServiceCli.RunIsCliEdit | client/serviceinterface_update.go:265-270 | a command is an edit that the sync protocol allows if and only if it deletes no other site's entry |
| ServiceCli.ServiceClient.UpdateServiceInterface | client/serviceinterface_update.go:73-102 | the service is stored as a local one unless it exists and may not be overwritten |
| ServiceCli.ServiceClient.ServiceInterfaceCreate | client/serviceinterface_create.go:9-32 | a valid service is stored if its address is free, and an invalid one is refused |
| ServiceCli.ServiceClient.ServiceInterfaceBind | client/serviceinterface_update.go:158-204 | the registry and the fault are those of the bind operation |
| ServiceCli.ServiceClient.ServiceInterfaceUnbind | client/serviceinterface_update.go:206-306 | the registry and the fault are those of the unbind operation |
| ServiceCli.ServiceClient.ServiceInterfaceRemove | client/serviceinterface_remove.go:38-54 | the entry goes, or the operation is refused because there is none |
| ServiceCli.ServiceClient.Execute | cmd/skupper-exp/main.go:69-95 | the front end's look-ups and the operation behind them are one command |

## Left out

- BindingTables.ServiceBindings.PatchTargets: targets are values in the binding's map, not objects of their own, so that two keys could share one target object is not expressed; the source never shares them.
- RouterConfigs.RouterConfig.AddListener: the bridge maps are a struct held by value, as in the source; 32-bit fields are unbounded integers, because the model does no arithmetic on them.
- Controllers.Controller.ProcessServiceDefs: proxies are not updated; what remains of that in the source is calls to the container engine.
- Convergence.ConvergesExactly: a schedule delivers what its senders advertise now; messages left over from earlier are covered by Provenance only.
- Controllers.Controller.ServiceSyncDefinitionsUpdated: registries with an entry filed under a key other than its address are left out; no writer makes one (`ServiceCli.CommandsTidy`, `SiteSync.StepInSync`), and on one the result would depend on map order.
- BindingTables.BindingTable.ReconcileDefinitions: the same.
- BindingTables.BindingTable.ProcessDefinitions: the same.
- Connectors.ConnectorClient.ConnectorCreate: connector names are single path elements, and making, filling and removing their directories succeeds apart from the name being taken.
- Goroutines race on the controller's maps in the source; here each handler is atomic, and only `Provenance` interleaves handlers, watcher and command line.
- File, network, AMQP, TLS and JSON text: messages and files are values, malformed list items are one constructor, and reads and writes of the registry succeed.
- Lists of added, modified and removed services, which the source only logs.
- The checks that a site is configured and its router container exists, which come before every command.
- `ServiceInterfaceUpdate`, `UpdateBridgeConfig`, the unused selector and service targets of bindings, and listing and inspection: they would only add easy members.
- The container drivers, plug-ins, certificates, tokens, and the rest of router creation.
