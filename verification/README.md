# A verified model of clusterip-gw

clusterip-gw gives Kubernetes Gateways a virtual IP. A controller allocates a VIP per Gateway, attaches
TCPRoutes to listeners and writes EndpointSlices for the Pods behind them. An agent on each node reads the
Gateways and EndpointSlices and compiles them into an nftables table that rewrites packets for a VIP to a
ready Pod. This project models both halves and proves what they promise, down to what happens to a packet.

`dafny verify dfyconfig.toml` checks the whole project.

## How the model is built

- State that the source updates in place is a class: `GatewayController` and `SelectorController` hold the API
  objects a reconcile writes, `GatewayChangeTracker` and `EndpointsChangeTracker` the agent's trackers,
  `Conn` and `NetlinkApplier` the netlink connection and the kernel's tables, `Proxier` the agent's flags. Loops
  are loops; each method is proved against a function or a predicate on values, and the theorems are about those.
- The sync loop is a state machine whose steps are the places where handlers and the loop can interleave.
- nftables is a small packet semantics (`Nftables`): atomic batches, base chains, rule order, registers, payload
  loads at byte offsets (destination address at offset 16, section 3.1 of RFC 791; destination port at offset 2,
  section 3.1 of RFC 9293), jumps with return, a random number, verdict maps and terminal destination NAT.
- API calls may fail, before or after they took effect, wherever a controller has `faulty` set; without it they
  fail only for the API server's own reasons (already exists, not found, conflict). The API server drops an object
  that is being deleted once its last finalizer is gone, and accepts no new finalizer on it.
- A Gateway reconcile is one step with respect to cache delivery. The address cache lags by a list of
  undelivered events; a Gateway snapshot may be arbitrarily old.
- Foreign code is a record of functions (`Objects.Library`): IP and prefix parsing, label selectors, digests.
  What is needed of it is a named hypothesis (`ReadsDottedQuads`, `RejectsNul`, `HashSeparates`).
- `ApiMeaning` reads the fields of the API objects directly, with the literal group, kind, label and reason texts, and uses no
  helper of the source. What the helpers, the stored statuses, the records and the slices mean is stated in its terms.
- Names, namespaces, listener names and label values are of type `Segment`: the API server admits no `/` or `:`.
- Index and lister answers come in an arbitrary order wherever the source ranges over a map or an indexer.

## Main results

- `EndToEnd.PacketsReachReadyPods` and `OtherPacketsPass`: a packet to a published VIP and listener port goes to a ready Pod
  that matches the selector of that listener's one route, at that route's backend port, or is left alone if there is
  no such Pod; every other packet is left alone. They assume that every Gateway and selector is at its fixpoint, that no
  selector asks for two slices of one name, that every slice the agent reads carries some selector's key (`Claimed`), that
  IPv4 addresses are recorded as dotted quads (`CanonicalNames`), that dotted quads are read as such and Pod
  addresses hold no NUL (`ReadsDottedQuads`, `RejectsNul`), that service digests do not collide (`HashSeparates`), that no
  frontend has 2^32 endpoints (`BoundedEndpoints`), and a random source that stays below its modulus (`FairDraw`).
- `CompilerCorrectness.CompilerCorrect`: the table built from the queued batch does to any packet, at either hook and
  for any draw, what the frontend and endpoint maps mean. `DrawsMatchMultiplicity`: of the draws below the modulus,
  as many send a packet to an address and port as the frontend that takes it has endpoints there.
- `BringUp.BringUp`: without API errors, three rounds over the Gateways and two over the selectors reach such a fixpoint
  from every promising start state. A start state is promising if no selector asks for two slices of one name, and every
  desired slice is there already, or its place is empty or holds a slice that its own selector will give up, and no other
  selector of the namespace still has to create that name. Where no selector starts with two slices of one name, the
  rounds reach the fixpoint exactly from promising states. Of the above it assumes of the start state claimed
  slices, canonical names and a library that reads dotted quads. `EndToEnd.SyncNode`: a sync of a caught-up agent then
  gives its kernel exactly the behaviour above.
- `ControllerRuns.RunLagging`, `RunCaughtUp`, `Converge`, `ConvergeAll`: lagging-cache safety, finalizer protection under
  failing calls, convergence of one Gateway in two reconciles and of all of them together in three rounds.
- `GatewayEvaluation.OneToOneAttachment`, `Bindings.NoAmbiguousBinding`, `BindingIsUsable`, `UsableIsBinding`: Gateway,
  route and selector sides give the same answer.
- `Bindings.BindingExactly`: a selector is bound to exactly the listener that serves the route: the one the route's only
  parentRef asks for by name and port, to which no other route attaches, with a usable backend.
- `ControllerState.GoalSays`, `GoalReports`, `RouteStatus.RouteController.ReconcileRoute`, `EntryAgreesWithGateway`: what the stored
  statuses of Gateways, listeners and routes say, condition by condition, and that both sides say the same.
- `GatewayReconcile.GatewayController.Allocate`: the new record claims for its Gateway the first free dotted quad that reads as an
  address strictly inside a range, in range order.
- `SliceReconcile.SelectorController.ReconcileEndpointSelector`: the EndpointSlice diff converges and then stays silent;
  `SyncedSliceSays` and `BindingHasSlice` say what is in the slices then.
- `RouteStatus.SilentExactly`: when reconciling a route a second time is silent whatever its unstable sort does.
- `SyncLoop.NoLostUpdate`, `RateLimit` and `RetryOnTime`: over every interleaving of handlers and loop.

Some expectations turned out to need a condition. For each there is a concrete failing input or run, and a statement of
when the code meets it:

- A slice of another namespace is not taken for the desired one. The diff matches by bare name, so a slice elsewhere that
  carries the selector's key is (`SliceDiff.StrayCopyIsKept`). A successful run leaves the desired content in any case; it
  is in the selector's namespace exactly when the first listed slice of each desired name is (`SliceDiff.DiffGivesSync`).
- Reconciling every selector once serves all of them. A create is refused exactly when a slice without the selector's key
  sits in a desired place (`SliceDiff.VacantMeaning`). A slice whose backend moved to another selector goes away in
  that selector's run, so a second round is needed (`SelectorRounds.OneRoundIsNotEnough`); two selectors that want
  one name, and a slice of nobody listed, block for good (`ContestIsClosed`, `SquatterIsClosed`). Two rounds, or more,
  serve everybody exactly from open states (`BringUp.SettleSelectors`); only with stray copies of one name may a closed
  state be served, because the order in which the index lists the copies then decides which one goes.
- An unmanaged Gateway publishes nothing after its reconcile. One of another class that was never managed keeps its
  addresses (`ControllerState.ForeignStatusStays`); `GatewaySteps.WhenNothingIsPublished` says exactly when one publishes nothing.
- The status in the cluster becomes the evaluated one. The comparison ignores the groups of supported kinds, so a wrong
  group stays (`GatewayStatuses.WrongGroupStays`); in everything else it is exact (`StatusEqualMeaning`).
- A second reconcile of a route writes nothing. The merge sorts with an unstable sort: it is silent whatever the sort
  does exactly if entries of other controllers with one sort key agree on their conditions (`RouteStatus.SilentExactly`),
  and two entries that do not are a list whose second merge may differ (`RouteStatus.TwoOpinions`).
- A change is applied after the minimum period. After a failed apply nothing but the ticker wakes the sync loop
  (`SyncLoop.FailedApplyOnlyWaitsForTicker`); that is the one exception in `SyncLoop.NoLostUpdate`, and it covers only what the
  failed pass had read.

## Model

| member | source | states |
|---|---|---|
| `Addresses.NextAddr` | internal/controller/ipam.go:283-295 | the carry loop is plus one on the 32-bit value, and gives no address exactly at 255.255.255.255 or for an invalid input |
| `Addresses.LastAddr` | internal/controller/ipam.go:297-306 | the bit loop yields the masked base plus 2^(32-bits) minus 1, for every prefix length |
| `Addresses.SetHostBit` | internal/controller/ipam.go:300-304 | setting one host bit with all lower bits clear adds its power of two to the value |
| `Addresses.ContainsIsRange` | internal/controller/ipam.go:297-310 | a prefix contains exactly the addresses from its base to its last address |
| `Addresses.MaskedIsMasked` | internal/controller/ipam.go:216-220 | masking clears the host bits and keeps the covered addresses |
| `Addresses.QuadExactly` | internal/controller/ipam.go:135-140 | a text reads as an address, four numerals up to 255 with the most significant first, exactly if it is the one the address is printed as |
| `Addresses.DottedInjective` | internal/controller/ipam.go:135-140 | two addresses with the same text are the same address |
| `ServiceRanges.ServiceCIDRReady` | internal/controller/ipam.go:235-250 | ready unless the first Ready condition says otherwise |
| `ServiceRanges.ListIPv4ServiceCIDRs` | internal/controller/ipam.go:201-233 | sorted by text, a prefix is in the result exactly if some live range, whose first Ready condition if any is true, lists a text that masks to it; multiplicities are kept |
| `ServiceRanges.PrefixTextReads` | internal/controller/ipam.go:221-231 | the sort text splits into the dotted quad of the base and the number of bits |
| `ServiceRanges.MaskedExactly` | internal/controller/ipam.go:216-220 | the masked prefix is the one with these bits and no host bits that contains the address |
| `ServiceRanges.RangesOrderFree` | internal/controller/ipam.go:201-233 | the prefix sequence does not depend on the order the ranges are listed in |
| `Allocation.CandidateMeaning` | internal/controller/ipam.go:130-134 | the addresses offered are those in the prefix other than its base and last address |
| `Allocation.CandidatesAreBetween` | internal/controller/ipam.go:130-134 | they are those at distance 1 to size less two from the base |
| `Allocation.SmallPrefixesAreFull` | internal/controller/ipam.go:130-134 | /31 and /32 ranges offer nothing |
| `Allocation.FirstFitUnique` | internal/controller/ipam.go:130-163 | at most one address is the first free one in prefix order |
| `Allocation.FitOrExhausted` | internal/controller/ipam.go:130-166 | there is a first fit exactly when the ranges are not exhausted |
| `Allocation.FirstFitReads` | internal/controller/ipam.go:130-163 | the first fit is the first free text that reads as an address inside a range |
| `Allocation.ExhaustedReads` | internal/controller/ipam.go:130-166 | the ranges are exhausted exactly if every text that reads as an address inside one is taken |
| `GatewayReconcile.GatewayController.AllocateIn` | internal/controller/ipam.go:131-163 | the scan of one prefix terminates, takes the first address that is neither cached nor refused as existing, or finds the prefix full; a full prefix costs no write |
| `GatewayReconcile.GatewayController.Allocate` | internal/controller/ipam.go:117-166 | the new record claims for the Gateway the first free text that reads as an address strictly inside a range, and has no other label; whatever calls failed before, the exhausted error means that every such text is taken, and without faults it is the only error |
| `GatewayReconcile.GatewayController.KeepLeast` | internal/controller/ipam.go:99-115 | keeps the least owned name and deletes exactly the other owned ones |
| `GatewayReconcile.GatewayController.EnsureGatewayVIP` | internal/controller/ipam.go:94-167 | the VIP is the least owned address or else a new one as above; owning exactly one address costs no write; the exhausted error means none is owned and none is free |
| `GatewayReconcile.GatewayController.ListOwned` | internal/controller/ipam.go:182-199 | the cached addresses of the Gateway, each once, in any order |
| `GatewayReconcile.GatewayController.ReleaseAddresses` | internal/controller/ipam.go:169-180 | success removes exactly the addresses the cache lists for the Gateway; an error removes some of them |
| `GatewayReconcile.DeleteString` | internal/controller/ipam.go:268-277 | the in-place filter leaves the other values in order |
| `GatewayReconcile.GatewayController.EnsureFinalizer` | internal/controller/ipam.go:55-72 | appends the finalizer to those of the stored Gateway, or finds it in the copy or the stored object; nothing else changes |
| `GatewayReconcile.GatewayController.RemoveFinalizer` | internal/controller/ipam.go:74-92 | removes only this finalizer; a missing Gateway or finalizer is a success without a write |
| `GatewaySteps.WithoutFinalizerMeaning` | internal/controller/ipam.go:82-87 | exactly the other finalizers are left, and nothing else of the Gateway changed; it disappears exactly if it is being deleted and no other finalizer is left |
| `GatewayReconcile.GatewayController.Cleanup` | internal/controller/ipam.go:18-23 | the finalizer goes only after every cached address is gone; with nothing to clean it writes nothing |
| `GatewayReconcile.GatewayController.WriteStatus` | internal/controller/status.go:36-41 | writes only a differing status, only over an unchanged object |
| `GatewayReconcile.GatewayController.ReconcileUnmanaged` | internal/controller/gateway_reconcile.go:65-76 | clears status only of a previously managed Gateway, then cleans up; protection and coherence hold whatever fails |
| `GatewayReconcile.GatewayController.ReconcileDeleting` | internal/controller/gateway_reconcile.go:78-80 | cleans up and leaves the status as it was |
| `GatewayReconcile.GatewayController.AssignVIP` | internal/controller/gateway_reconcile.go:108-132 | the published evaluation carries the assigned VIP, or the reason there is none |
| `GatewayReconcile.GatewayController.Arrange` | internal/controller/gateway_reconcile.go:100-132 | releases for an invalid Gateway, assigns for a valid one; at the goal it changes nothing |
| `GatewayReconcile.GatewayController.ReconcileLive` | internal/controller/gateway_reconcile.go:82-134 | with the finalizer in place one fault-free run ends at the goal; at the goal it writes nothing |
| `GatewayReconcile.GatewayController.ReconcileGateway` | internal/controller/gateway_reconcile.go:56-135 | whatever fails, only this Gateway and its own addresses change and protection is kept; two fault-free runs reach the goal; at the goal nothing is written |
| `GatewaySteps.AssignedOwnsOne` | internal/controller/ipam.go:94-163 | with a caught-up cache the Gateway then owns exactly the assigned address |
| `GatewaySteps.GoalReached` | internal/controller/gateway_reconcile.go:90-135 | the status written by a fault-free live branch is a fixpoint of evaluating and writing again |
| `GatewaySteps.WhenNothingIsPublished` | internal/controller/ipam.go:25-53 | an unmanaged Gateway publishes no address afterwards exactly if it did not before, or its class changed away and it carries the finalizer or a claimed address |
| `GatewaySteps.ClearedSays` | internal/controller/ipam.go:25-53 | if its class changed away from ours, a Gateway with the finalizer or a claimed address is left without addresses, listener statuses, the two conditions and claims; otherwise its status stays |
| `ControllerState.ForeignStatusStays` | internal/controller/gateway_reconcile.go:65-76 | a never managed Gateway of another class keeps a status address at its fixpoint |
| `ControllerState.GoalMeaning` | internal/controller/gateway_reconcile.go:100-134 | at the goal a valid Gateway owns exactly one address, the one it publishes, or none of either with ranges exhausted; an invalid one owns and publishes none; an unmanaged one owns none |
| `ControllerState.GoalSays` | internal/controller/status.go:15-34 | at the goal the one Accepted condition of the stored Gateway is true exactly if the Gateway fits and some route is good for a listener, with the reason, and the one Programmed condition is false with its reason |
| `ControllerState.GoalReports` | internal/controller/gateway_reconcile.go:90-134 | at the goal the stored Gateway has a status per listener, with its name, kind and number of attached routes, accepted exactly if some route is good for it, and not programmed because of the VIP; for a Gateway that does not fit, which listeners are accepted and why not; none if the class is not ours |
| `ControllerState.ProtectedTouches` | internal/controller/gateway_reconcile.go:82-134 | address changes of a Gateway that carries the finalizer keep protection |
| `ControllerState.ProtectedGateway` | internal/controller/ipam.go:18-23 | a Gateway may lose the finalizer only when it owns nothing |
| `Records.IndexKeyMeansOwner` | internal/controller/indexers.go:136-145 | a Gateway owns a record exactly when labels and parent name it, and the record is indexed under its key then |
| `Records.CachedOwnerIsReal` | internal/controller/ipam.go:182-199 | a cached owner is the real owner, or the address is gone |
| `Records.CreatedCoherent` | internal/controller/ipam.go:135-162 | creating an address that is neither cached nor stored keeps at most one undelivered event per address |
| `Records.RemovedCoherent` | internal/controller/ipam.go:109-113 | so does deleting a cached address |
| `Records.DeliveredCoherent` | internal/controller/ipam.go:252-266 | so does delivering the oldest event |
| `Records.OnlyOwnAddressesGo` | internal/controller/ipam.go:169-180 | every address a reconcile deletes by name really belonged to its Gateway |
| `ControllerRuns.Act` | internal/controller/gateway_reconcile.go:56-135 | every action keeps coherence, deletes only the reconciled Gateway's addresses, and keeps protection if a reconcile finds caches caught up |
| `ControllerRuns.RunLagging` | internal/controller/ipam.go:94-199 | in every run with lagging caches, stale snapshots and failing calls, all states are coherent and all deletions are of the reconciled Gateway |
| `ControllerRuns.RunCaughtUp` | internal/controller/ipam.go:18-92 | in every run with caught-up caches and failing calls, each owned address has its Gateway present with the finalizer |
| `ControllerRuns.Converge` | internal/controller/gateway_reconcile.go:56-135 | from any state the first of two reconciles prepares the Gateway, the second reaches its goal, and after a third state and write count are still those, whatever order indexes answer in |
| `ControllerRuns.ConvergeAll` | internal/controller/gateway_reconcile.go:56-135 | from any state three rounds over all Gateways, in any order, bring every one of them to its goal; after reconciling all of them again state and write count are still those |
| `ControllerRuns.PrepareAll` | internal/controller/gateway_reconcile.go:82-88 | one round: every managed Gateway carries the finalizer |
| `ControllerRuns.QuietAll` | internal/controller/ipam.go:94-180 | a second round: no Gateway has an address left to give up |
| `ControllerRuns.SettleAll` | internal/controller/ipam.go:94-180 | a third round: every Gateway is at its goal, those that had found the ranges exhausted too |
| `ControllerState.GoalStays` | internal/controller/ipam.go:94-180 | while no address is deleted, reconciling one Gateway leaves the others at their goals |
| `ControllerRuns.GoalOrderFree` | internal/controller/route_reconcile.go:291-305 | the goal depends neither on the order of the route index nor on selector status |
| `GatewayStatuses.MergeStatusConditions` | internal/controller/status.go:44-54 | the unstable sort has one outcome for conditions of distinct kinds |
| `GatewayStatuses.MergeIdempotent` | internal/controller/status.go:44-54 | merging the same conditions again changes nothing |
| `GatewayStatuses.MergeMembers` | internal/controller/status.go:44-54 | merging puts in what is asked for and keeps exactly the conditions of other kinds |
| `GatewayStatuses.RemovedMeaning` | internal/controller/status.go:56-73 | removal drops exactly the named kinds |
| `GatewayStatuses.StatusEqualMeaning` | internal/controller/status.go:104-174 | the comparison with a status to be written holds exactly if they differ at most in groups of supported kinds |
| `GatewayStatuses.WrongGroupStays` | internal/controller/status.go:161-168 | a supported kind of a wrong group compares as equal |
| `GatewayStatuses.StatusSettles` | internal/controller/status.go:15-42 | writing the status twice is writing it once |
| `GatewayStatuses.StatusReports` | internal/controller/status.go:15-34 | the Accepted and Programmed conditions as evaluated, every other condition kept |
| `GatewayStatuses.AcceptedMeansValid` | internal/controller/gateway_reconcile.go:154-310 | accepted exactly when valid, and no VIP selected by the evaluation |
| `GatewayStatuses.ListenersReport` | internal/controller/gateway_reconcile.go:200-289 | a listener status per listener, accepted exactly when usable, with its attachment count |
| `GatewayStatuses.EvaluationReports` | internal/controller/gateway_reconcile.go:154-310 | what an evaluation says of each listener, in fields of Gateway and routes, whether the Gateway fits or not |
| `GatewayStatuses.EvaluationSays` | internal/controller/gateway_reconcile.go:154-310 | valid exactly if the Gateway fits and some route is good for a listener, and the reason if not |
| `GatewayStatuses.ProgrammedVerdict` | internal/controller/gateway_reconcile.go:482-504 | assigning or refusing a VIP changes what accepted listeners say of being programmed, and nothing else |
| `GatewayStatuses.ProgrammedMeaning` | internal/controller/gateway_reconcile.go:482-504 | only the Programmed condition changes, and only of accepted listeners |
| `GatewayStatuses.SetListenerProgrammedCondition` | internal/controller/gateway_reconcile.go:482-504 | the loop applies that change to every listener |
| `Listeners.ThreeConditionsMerged` | internal/controller/gateway_reconcile.go:449-458 | merging the three listener conditions sorts them by kind |
| `Listeners.ValidateGatewayListeners` | internal/controller/gateway_reconcile.go:312-410 | the counting loops compute the validation of the specification |
| `Listeners.ValidationMeaning` | internal/controller/gateway_reconcile.go:312-410 | valid exactly for one to ten TCP listeners with distinct names and ports, non-zero ports and no restriction on routes but the same namespace |
| `Listeners.ValidationReports` | internal/controller/gateway_reconcile.go:312-410 | a listener is reported as accepted exactly if there are at most ten, it has a name, a port, protocol TCP and no unsupported restriction on routes, and no other has its name or port; otherwise the reason |
| `Listeners.ListenersSupported` | internal/agent/state/gatewaytracker.go:101-119 | the seen-set loop accepts exactly such lists, allowedRoutes aside |
| `Listeners.GatewaySupported` | internal/agent/state/gatewaytracker.go:91-128 | the agent supports live Gateways of the class with such listeners and one IPAddress status address |
| `Listeners.ValidatorsAgree` | internal/controller/gateway_reconcile.go:312-410 | controller validity is agent support plus supported allowedRoutes, for every listener list |
| `Routes.AttachedRoutesForListener` | internal/controller/route_reconcile.go:243-285 | the listed routes, as often as listed, that are in the Gateway's namespace and have a Gateway parentRef that names it and asks for no other name or port, sorted |
| `Routes.AttachedCountOrderFree` | internal/controller/route_reconcile.go:243-289 | which routes attach does not depend on the order of the index |
| `Routes.ResolveGatewayListener` | internal/controller/route_reconcile.go:209-231 | the loop resolves a parentRef as specified, with its three errors |
| `Routes.ResolveExactly` | internal/controller/route_reconcile.go:209-241 | a parentRef resolves to a listener exactly when the listeners are valid and it is the only one whose name and port are those asked for |
| `Routes.EvaluationReadsCount` | internal/controller/route_reconcile.go:78-190 | a route's evaluation sees the other routes only through the attachment count |
| `Routes.BackendMeaning` | internal/controller/route_reconcile.go:129-190 | a backend resolves exactly if the one backendRef of the one rule names a valid stored selector of the route's namespace with a port, and the reason if not |
| `Routes.EvaluationOrderFree` | internal/controller/route_reconcile.go:78-190 | and does not depend on their order |
| `Routes.RouteGatewayParentKeys` | internal/controller/indexers.go:193-213 | the loop with its seen map computes the Gateway keys of a route, each once |
| `Routes.IndexedUnderGateway` | internal/controller/indexers.go:193-213 | a route is indexed under a Gateway exactly when a parentRef of it names the Gateway, by group, kind, namespace and name with their defaults |
| `Routes.RouteBackendSelectorKeys` | internal/controller/indexers.go:215-238 | the loop with its seen map computes the selector keys of a route, each once |
| `Routes.IndexedUnderSelector` | internal/controller/indexers.go:215-269 | a route is indexed under a selector exactly when some backendRef of some rule names it |
| `Routes.SingleBackendIndexed` | internal/controller/indexers.go:215-269 | a one-backend route is indexed under exactly its backend's selector |
| `Routes.IndexAgreesWithScan` | internal/controller/route_reconcile.go:243-305 | the index answer and a scan of all routes attach the same routes |
| `Routes.EvaluationAgreesWithScan` | internal/controller/route_reconcile.go:78-190 | and judge a route the same |
| `RouteStatus.SortKeyMeaning` | internal/controller/status.go:206-228 | equal sort keys mean the same controller, name, section name and port, and parentRefs that differ at most in writing a default, if none of their parts holds a slash |
| `RouteStatus.SortKeyReads` | internal/controller/status.go:206-228 | the sort key splits into controller, group, kind, namespace, name, section name and port |
| `RouteStatus.OwnKeyIsOwn` | internal/controller/status.go:206-228 | an entry of this controller shares its sort key with no entry of another, even one whose parentRef name holds slashes |
| `RouteStatus.MergeRouteParents` | internal/controller/status.go:176-189 | a sorted permutation of the other controllers' entries and the desired ones |
| `RouteStatus.MergeKeepsForeign` | internal/controller/status.go:176-189 | every entry of another controller survives, with its multiplicity |
| `RouteStatus.SortsAgree` | internal/controller/status.go:185-204 | if entries with one key agree on conditions, any two sorts of them compare equal |
| `RouteStatus.TiesCanFlip` | internal/controller/status.go:185-204 | if some entries with one key do not, another sorted permutation compares as different |
| `RouteStatus.OwnEntriesAgree` | internal/controller/route_reconcile.go:25-66 | parentRefs of one route with one key name the same Gateway and are judged the same |
| `RouteStatus.DesiredEntries` | internal/controller/route_reconcile.go:25-66 | the loop computes one entry per parentRef that names a stored Gateway of the class |
| `RouteStatus.EntryMeaning` | internal/controller/route_reconcile.go:25-66 | a parentRef gets an entry exactly if it names a stored Gateway of the class, and what its two conditions say |
| `RouteStatus.AttachmentMeaning` | internal/controller/route_reconcile.go:78-127 | a route is accepted exactly if it is in the Gateway's namespace and its only parentRef picks one listener of a valid list to which no other route attaches, and the reason if not |
| `RouteStatus.EntryAgreesWithGateway` | internal/controller/route_reconcile.go:78-190 | both conditions of an entry are true exactly if the Gateway counts the route among its good ones |
| `RouteStatus.MergedReports` | internal/controller/status.go:176-189 | the merged list has exactly one entry of this controller per parentRef that names a stored Gateway of the class, with those conditions |
| `RouteStatus.KeptReports` | internal/controller/route_reconcile.go:68-72 | so does a stored list that compares equal with it |
| `RouteStatus.RouteController.ReconcileRoute` | internal/controller/route_reconcile.go:16-76 | stores the merged list with one write, or nothing if the stored one compares equal; the stored list then has one entry of this controller per parentRef that names a stored Gateway of the class, whose two conditions say whether the route is accepted and its backend resolved |
| `RouteStatus.SecondRunIsSilent` | internal/controller/route_reconcile.go:68-75 | the next merge compares equal with what is stored, if entries of other controllers with one key agree |
| `RouteStatus.SecondRunMayWrite` | internal/controller/route_reconcile.go:68-75 | otherwise some outcome of the next merge compares as different from what is stored |
| `RouteStatus.SilentExactly` | internal/controller/route_reconcile.go:68-75 | every outcome of the next merge compares equal with what is stored exactly if entries of other controllers with one key agree |
| `RouteStatus.TwoOpinions` | internal/controller/status.go:176-204 | a list of two entries whose merge may return it and whose next merge may return the other order, which compares as different |
| `RouteStatus.ReconcileRouteTwice` | internal/controller/route_reconcile.go:16-76 | the first run stores a merge or leaves one that compares equal; if entries of other controllers with one key agree, the second leaves that state and writes nothing |
| `Objects.NamespacedKeyInjective` | internal/controller/indexers.go:27-29 | keys of different objects differ |
| `Objects.KeyRoundTrip` | internal/controller/indexers.go:19-29 | a key splits back into the object it was made from, exactly when neither part is empty |
| `Text.LessMeaning` | internal/controller/ipam.go:100-108 | one text sorts before another exactly if they first differ in a smaller character, or it ends first |
| `GatewayEvaluation.EvaluateGateway` | internal/controller/gateway_reconcile.go:154-310 | the branches and the listener loop compute the evaluation of the specification |
| `GatewayEvaluation.JudgeListener` | internal/controller/gateway_reconcile.go:203-288 | one turn of the loop: usable, status and error of a listener, whatever order its routes were found in |
| `GatewayEvaluation.GoodExactly` | internal/controller/route_reconcile.go:78-190 | exactly when a route is accepted and resolved |
| `GatewayEvaluation.GoodMeaning` | internal/controller/route_reconcile.go:78-241 | a route is good exactly if its class is ours, the listeners are valid, its only parentRef picks one of them, no other route attaches to that, and its backend is usable |
| `GatewayEvaluation.UsableMeaning` | internal/controller/gateway_reconcile.go:200-289 | a listener is usable exactly if some route is good for it |
| `GatewayEvaluation.AttachedNumber` | internal/controller/route_reconcile.go:287-289 | the count is the number of listed routes that attach |
| `GatewayEvaluation.GoodRouteOwnsListener` | internal/controller/route_reconcile.go:78-190 | a good route is the only one attached to the listener it resolves to, which is usable |
| `GatewayEvaluation.UsableListenerOwnsRoute` | internal/controller/gateway_reconcile.go:249-287 | the route of a usable listener is good and resolves to that listener |
| `GatewayEvaluation.OneToOneAttachment` | internal/controller/gateway_reconcile.go:200-296 | usable listeners and good routes are in bijection |
| `GatewayEvaluation.EvaluationMeaning` | internal/controller/gateway_reconcile.go:154-310 | valid exactly when eligible with some good route; the usable count is the number of good routes |
| `GatewayEvaluation.EvaluationStable` | internal/controller/gateway_reconcile.go:154-310 | the evaluation depends neither on status, finalizers or selector status nor on the order of the routes |
| `Bindings.GatewayBindingForRoute` | internal/controller/endpointselector_reconcile.go:241-308 | the parentRef loop returns the first binding |
| `Bindings.BindingExactly` | internal/controller/endpointselector_reconcile.go:241-308 | a route of the store is bound exactly if its one backend names the selector with that port and it is the route the listener serves |
| `Bindings.BindingNamesListener` | internal/controller/endpointselector_reconcile.go:259-304 | the listener of a binding has the section name and the port of the route's only parentRef where they are set |
| `Bindings.BindsMeaning` | internal/controller/gateway_reconcile.go:200-289 | a route is bound to a listener exactly if, of all stored routes, it alone attaches, by its only parentRef, with a usable backend |
| `Bindings.BindingIsUsable` | internal/controller/endpointselector_reconcile.go:259-304 | a binding names a stored Gateway and a usable listener whose one attached route is the bound route |
| `Bindings.UsableIsBinding` | internal/controller/endpointselector_reconcile.go:259-304 | the route of a usable listener binds its backend selector to that listener with its port |
| `Bindings.NoAmbiguousBinding` | internal/controller/endpointselector_reconcile.go:216-224 | two bindings of one Gateway and listener come from one route and one selector |
| `Bindings.BindingInSelectorNamespace` | internal/controller/endpointselector_reconcile.go:241-308 | every bound Gateway is in the selector's namespace, and the selector exists and is valid |
| `Bindings.SeenDropsNothing` | internal/controller/endpointselector_reconcile.go:201-225 | there are as many bindings as binding routes |
| `Bindings.BindingsOrderFree` | internal/controller/endpointselector_reconcile.go:192-239 | the bindings depend neither on index order nor on selector status |
| `Bindings.BindingRouteIsIndexed` | internal/controller/indexers.go:215-269 | every binding route is in the selector's index answer |
| `Bindings.ListReferencedGatewayBindings` | internal/controller/endpointselector_reconcile.go:192-239 | the sorted bindings found by scanning all routes, whatever order the index answers in |
| `Slices.PodReady` | internal/controller/endpointselector_reconcile.go:372-380 | the first Ready condition decides |
| `Slices.EndpointForPod` | internal/controller/endpointselector_reconcile.go:344-370 | an endpoint exactly for named, live, ready Pods with an IPv4 address |
| `Slices.SelectedMeaning` | internal/controller/endpointselector_reconcile.go:344-384 | a Pod is selected exactly if it matches in its namespace, is named, live, has a true first Ready condition and an IPv4 address |
| `Slices.KeyIsComparison` | internal/controller/endpointselector_reconcile.go:333-340 | the comparison of Pod endpoints is the order of one string key |
| `Slices.EndpointKeyDetermines` | internal/controller/endpointselector_reconcile.go:333-340 | ready Pods of a namespace with equal sort keys are one Pod |
| `Slices.BuildEndpointSliceEndpoints` | internal/controller/endpointselector_reconcile.go:310-342 | the ready matching Pods of the namespace in one order, whatever order they are listed in |
| `Slices.DesiredEndpointsSay` | internal/controller/endpointselector_reconcile.go:310-370 | each selected Pod once, with its address, identity and node, ordered by address and name |
| `Slices.EndpointSliceName` | internal/controller/endpointselector_reconcile.go:424-437 | Gateway and listener name joined by a dash, or the Gateway name alone without a listener, if that has at most 63 characters; otherwise its first 54 characters, a dash and its digest |
| `Slices.JoinedNamesClash` | internal/controller/endpointselector_reconcile.go:424-430 | two listeners whose dash-joined names coincide |
| `Slices.ShortNamesClash` | internal/controller/endpointselector_reconcile.go:424-431 | short names clash exactly when the joined texts coincide, never within one Gateway |
| `Slices.UnderMeaning` | internal/controller/indexers.go:271-287 | a slice is found under a selector exactly if its labels mark it as this controller's and name that selector, in the slice's own namespace without a namespace label |
| `Slices.UnderOne` | internal/controller/indexers.go:271-287 | a slice carries the key of at most one selector |
| `Slices.DesiredIsUnder` | internal/controller/endpointselector_reconcile.go:400-407 | a slice with the desired labels is found under its selector's key, in whatever namespace |
| `Slices.DesiredComesFrom` | internal/controller/endpointselector_reconcile.go:64-68 | every desired slice was asked for by a binding |
| `Slices.BindingGetsSlice` | internal/controller/endpointselector_reconcile.go:64-68 | with distinct names every binding has its slice |
| `Slices.Revised` | internal/controller/endpointselector_reconcile.go:84-94 | an update yields the desired content in the old place, and differs exactly when the comparison does |
| `SliceDiff.DiffMeaning` | internal/controller/endpointselector_reconcile.go:75-100 | the first slice of each desired name is revised, every other listed one is gone, the rest is untouched, and the unmatched names remain |
| `SliceDiff.DiffGivesSync` | internal/controller/endpointselector_reconcile.go:75-106 | then creating the rest leaves one slice per desired name with the desired content, at home exactly when each kept slice was |
| `SliceDiff.DiffTrims` | internal/controller/endpointselector_reconcile.go:75-106 | once the diff is through, whichever creates are refused, no unwanted slice is left, none of a desired name is lost, and each kept name has one |
| `SliceDiff.DiffOthers` | internal/controller/endpointselector_reconcile.go:75-100 | no slice under another key changes, after any number of turns |
| `SliceDiff.SyncedLeavesNothing` | internal/controller/endpointselector_reconcile.go:84-87 | a state in sync is left as it is, with nothing to create |
| `SliceDiff.VacantMeaning` | internal/controller/endpointselector_reconcile.go:102-106 | the creates find their places free exactly when no foreign slice sat in one from the start |
| `SliceDiff.StrayCopyIsKept` | internal/controller/endpointselector_reconcile.go:75-99 | a copy in another namespace is taken for the desired slice |
| `SliceReconcile.WantedAsks` | internal/controller/endpointselector_reconcile.go:64-68 | all desired slices are in the selector's namespace and carry its key |
| `SliceReconcile.SyncedSliceSays` | internal/controller/endpointselector_reconcile.go:386-422 | in sync, every slice under a selector's key belongs to a binding: labels, owner, address type, port and endpoints |
| `SliceReconcile.BindingHasSlice` | internal/controller/endpointselector_reconcile.go:64-106 | and with distinct names every binding has such a slice |
| `SliceReconcile.UnusableIsUnreferenced` | internal/controller/endpointselector_reconcile.go:35-57 | a missing or invalid selector has no bindings, so deleting everything is its diff |
| `SliceReconcile.SelectorController.ApplyDiff` | internal/controller/endpointselector_reconcile.go:75-100 | the loop, stopped by an error or not, does what some prefix of the diff does |
| `SliceReconcile.SelectorController.CreateRest` | internal/controller/endpointselector_reconcile.go:102-106 | creates the remaining slices in any order; without faults it succeeds exactly when all places are free |
| `SliceReconcile.SelectorController.DeleteManaged` | internal/controller/endpointselector_reconcile.go:452-463 | deletes the listed slices one by one |
| `SliceReconcile.SelectorController.UpdateSelectorStatus` | internal/controller/endpointselector_reconcile.go:154-184 | leaves one condition, Accepted, true exactly if the label selector is valid; writes nothing if it is current |
| `SliceReconcile.CurrentSays` | internal/controller/endpointselector_reconcile.go:111-117 | the status a successful reconcile leaves says whether the label selector is valid |
| `SliceReconcile.SelectorController.ReconcileEndpointSelector` | internal/controller/endpointselector_reconcile.go:29-109 | success leaves exactly the desired slices under the key; whatever fails, slices under other keys are untouched and new ones sit only in desired places; in sync it writes nothing; without faults it fails exactly for a malformed key or a squatted place, and a refused create leaves its diff complete |
| `SliceReconcile.OthersStayInSync` | internal/controller/endpointselector_reconcile.go:29-109 | reconciling one selector leaves every other one that is in sync in sync |
| `SliceReconcile.ReconcileTwice` | internal/controller/endpointselector_reconcile.go:29-109 | the first run, if it succeeds, leaves a state in sync; the second succeeds and leaves that state and write count |
| `SliceReconcile.StatusIsIrrelevant` | internal/controller/endpointselector_reconcile.go:192-239 | what a selector asks for depends neither on statuses and finalizers nor on the order of indexes |
| `AgentState.FrontendKeyStringInjective` | internal/agent/state/types.go:13-18 | equal sort strings mean equal frontend keys |
| `AgentState.FrontendKeyReads` | internal/agent/state/types.go:13-18 | the sort string splits into namespace, name and, if there is one, listener |
| `AgentState.EndpointReads` | internal/agent/state/endpointslicetracker.go:85-95 | the sort string of an IPv4 endpoint splits into address and port |
| `AgentState.EndpointStringInjective` | internal/agent/state/endpointslicetracker.go:85-95 | equal sort strings mean equal endpoints |
| `AgentState.FrontendsMeaning` | internal/agent/state/gatewaytracker.go:69-89 | a Gateway's frontends are exactly its listeners at its VIP, when supported |
| `AgentState.FrontendKeyMeaning` | internal/agent/state/endpointslicetracker.go:100-124 | the frontend of a slice is the Gateway and listener its labels name, in its own namespace without a namespace label |
| `AgentState.AllFrontendsMeaning` | internal/agent/state/gatewaytracker.go:56-67 | each frontend comes from the one Gateway its key names |
| `AgentState.ContributionCounts` | internal/agent/state/endpointslicetracker.go:52-82 | a slice contributes an endpoint to the frontend its labels name once for every TCP port, endpoint not marked as not ready and address that make it, and nothing to any other |
| `AgentState.HitsMeaning` | internal/agent/state/endpointslicetracker.go:60-82 | which port, endpoint and address positions make an endpoint, in fields of the slice |
| `AgentState.EndpointsDetermined` | internal/agent/state/endpointslicetracker.go:49-98 | visiting slices in any order and sorting gives the batch view |
| `AgentState.AllEndpointsMeaning` | internal/agent/state/endpointslicetracker.go:49-98 | the snapshot map holds the endpoints of every frontend that has any |
| `Trackers.TrackerFollowsStore` | internal/agent/state/gatewaytracker.go:26-53 | after any events the tracker is the live store with Gateways replaced by their frontends |
| `Trackers.SnapshotIsBatch` | internal/agent/state/gatewaytracker.go:56-67 | merging in any order gives the batch view of the store |
| `Trackers.GatewayToFrontendMap` | internal/agent/state/gatewaytracker.go:69-89 | the loop computes the frontends of a Gateway |
| `Trackers.GatewayChangeTracker.Update` | internal/agent/state/gatewaytracker.go:26-53 | the tracked map changes as the event says |
| `Trackers.GatewayChangeTracker.Snapshot` | internal/agent/state/gatewaytracker.go:56-67 | returns the batch view of the live store |
| `Trackers.EndpointsChangeTracker.Update` | internal/agent/state/endpointslicetracker.go:28-46 | the tracked map changes as the event says |
| `Trackers.EndpointsChangeTracker.Snapshot` | internal/agent/state/endpointslicetracker.go:49-98 | returns the batch view of the tracked slices |
| `Trackers.CollectSlice` | internal/agent/state/endpointslicetracker.go:60-82 | the nested loops collect what the slice contributes |
| `Ruleset.ToUint16Port` | internal/agent/nftables/proxier.go:324-329 | the given number exactly for 1 to 65535 |
| `Ruleset.BackendChainSpecsForEndpoints` | internal/agent/nftables/proxier.go:289-305 | the usable endpoints in order, numbered from zero |
| `Ruleset.DesiredRuleset` | internal/agent/nftables/proxier.go:237-287 | a function of the two snapshots alone, whatever map order and sort |
| `Ruleset.KeyOrderDetermined` | internal/agent/nftables/proxier.go:241-253 | any sorted permutation of the frontend keys is the same sequence |
| `Ruleset.CompiledNames` | internal/agent/nftables/proxier.go:307-322 | with separating digests service names are distinct, and chain, map and backend names are made of them as the source does |
| `Netlink.ServiceDispatchMapElements` | internal/agent/nftables/netlink.go:281-293 | one element per backend, keyed by its index |
| `Netlink.QueueRuleset` | internal/agent/nftables/netlink.go:140-224 | the loops append exactly the batch: table, chains and maps, then the rules that name them |
| `Netlink.BatchReplaces` | internal/agent/nftables/netlink.go:113-138 | a batch that deletes the table fails with ENOENT exactly when it is absent, and otherwise replaces it |
| `Netlink.NetlinkApplier.ApplyOnce` | internal/agent/nftables/netlink.go:113-138 | an error leaves the kernel as it was; success replaces the table |
| `Netlink.NetlinkApplier.Apply` | internal/agent/nftables/netlink.go:100-111 | success leaves the table equal to the spec whatever it held before, and no other table changes |
| `CompilerCorrectness.BuildPrograms` | internal/agent/nftables/netlink.go:140-312 | the batch succeeds and every chain and map holds exactly its rules and elements |
| `CompilerCorrectness.BaseChainsNamed` | internal/agent/nftables/netlink.go:54-72 | the base chains are the ones named prerouting and output, each at its hook, and no other |
| `CompilerCorrectness.JumpRule` | internal/agent/nftables/netlink.go:226-261 | the jump rule matches exactly TCP packets to the address and port |
| `CompilerCorrectness.DispatchRule` | internal/agent/nftables/netlink.go:263-293 | the verdict map is total: the draw selects the backend chain of that number |
| `CompilerCorrectness.DNATRule` | internal/agent/nftables/netlink.go:295-312 | the backend rule rewrites to its address and port |
| `CompilerCorrectness.DirectMeaning` | internal/agent/nftables/proxier.go:261-284 | the first frontend in key order that takes the packet decides, and without one nothing changes |
| `CompilerCorrectness.CompilerCorrect` | internal/agent/nftables/netlink.go:140-312 | for all maps, packets, hooks and draws the built table does what the maps mean |
| `CompilerCorrectness.DrawSelects` | internal/agent/nftables/netlink.go:263-312 | draw r sends the packet to backend number r of the first frontend that takes it |
| `CompilerCorrectness.DrawsMatchMultiplicity` | internal/agent/nftables/netlink.go:263-293 | of the draws below the modulus, as many redirect a packet to an address and port, in a run of the built table, as the first frontend that takes it has endpoints there |
| `SyncLoop.StepKeepsInv` | internal/agent/nftables/proxier.go:128-235 | every step of handlers and loop keeps the invariant |
| `SyncLoop.NoLostUpdate` | internal/agent/nftables/proxier.go:76-235 | in every interleaving an unapplied change has a handler under way, a token, a retry, a pass in progress, or is exactly what the latest pass read before an apply error |
| `SyncLoop.QuietMeansApplied` | internal/agent/nftables/proxier.go:76-235 | a quiet agent has applied exactly what its trackers hold, unless its latest pass failed on just that |
| `SyncLoop.FailedApplyOnlyWaitsForTicker` | internal/agent/nftables/proxier.go:180-184 | a run in which an apply error leaves only the ticker |
| `SyncLoop.RateLimit` | internal/agent/nftables/proxier.go:199-224 | every apply starts at least the minimum period after the last successful one ended |
| `SyncLoop.GateMeaning` | internal/agent/nftables/proxier.go:199-213 | a pass goes ahead exactly if both caches are synced and the period since the last sync is over; otherwise a pending one gets the delay that ends with the period |
| `SyncLoop.RetryOnTime` | internal/agent/nftables/proxier.go:160-213 | in every interleaving a delay ends exactly with the period, the retry it arms is later only by the time between the pass and its scheduling, and the pass it wakes is not held back |
| `SyncLoop.RetryStays` | internal/agent/nftables/proxier.go:151-192 | an armed retry stays until it fires, not before it is due, or until a pass that did not fail reschedules it |
| `Proxier.Proxier.RequestSync` | internal/agent/nftables/proxier.go:226-235 | flag and token are set |
| `Proxier.Proxier.OnGateway` | internal/agent/nftables/proxier.go:76-92 | the event reaches the tracker and a sync is requested |
| `Proxier.Proxier.OnGatewaySynced` | internal/agent/nftables/proxier.go:94-100 | the Gateway cache counts as synced and a sync is requested |
| `Proxier.Proxier.OnEndpointSlice` | internal/agent/nftables/proxier.go:102-118 | the event reaches the tracker and a sync is requested |
| `Proxier.Proxier.OnEndpointSlicesSynced` | internal/agent/nftables/proxier.go:120-126 | the EndpointSlice cache counts as synced and a sync is requested |
| `Proxier.Proxier.Sync` | internal/agent/nftables/proxier.go:199-224 | waits for both caches; before the period is over a pending call gets the delay that ends exactly with it and changes nothing; from then on success installs the compiled batch view of the live stores |
| `EndToEnd.EndpointIsFed` | internal/agent/state/endpointslicetracker.go:49-124 | at the fixpoint every endpoint the agent sees is a ready Pod of the listener's one route at its port |
| `EndToEnd.FedIsEndpoint` | internal/controller/endpointselector_reconcile.go:386-422 | and every such Pod is an endpoint |
| `EndToEnd.TargetIsServed` | internal/controller/endpointselector_reconcile.go:386-422 | what makes a Pod a target, in fields of Gateways, routes, selectors and Pods, is what the controller goes by |
| `EndToEnd.PublishedOnce` | internal/controller/gateway_reconcile.go:121-134 | two Gateways never publish the same address at the fixpoint |
| `EndToEnd.SupportedMeans` | internal/agent/state/gatewaytracker.go:91-128 | at the fixpoint the agent supports exactly the managed Gateways that publish an IPv4 address |
| `EndToEnd.BackendsAreTargets` | internal/agent/nftables/proxier.go:289-305 | the backends programmed for a listener are exactly the addresses of Pods that feed the selector of the one route it serves, at that route's port |
| `EndToEnd.PacketsReachReadyPods` | internal/agent/nftables/proxier.go:237-287 | a packet to a published VIP and listener port goes to a ready matching Pod at the one route's backend port, or is left alone if there is none |
| `EndToEnd.OtherPacketsPass` | internal/agent/nftables/proxier.go:237-287 | every other packet is left alone |
| `EndToEnd.SyncNode` | internal/agent/nftables/proxier.go:199-224 | a successful sync of a caught-up agent gives every packet that fate and changes no other table |
| `SelectorRounds.OpenIsVacant` | internal/controller/endpointselector_reconcile.go:102-106 | after one round from an open state no create is refused |
| `SelectorRounds.SyncedWasOpen` | internal/controller/endpointselector_reconcile.go:75-106 | if all selectors are in sync after any number of rounds, the start was open, unless some selector had two slices of one name |
| `SelectorRounds.SinceStep` | internal/controller/endpointselector_reconcile.go:75-106 | one more run keeps the slices of nobody listed, creates only desired names in their places and loses no desired name |
| `SelectorRounds.OneRoundIsNotEnough` | internal/controller/endpointselector_reconcile.go:102-106 | a slice whose backend moved to another selector makes the first run fail, though the state is open |
| `SelectorRounds.ContestIsClosed` | internal/controller/endpointselector_reconcile.go:102-106 | two selectors of a namespace that want one name block each other |
| `SelectorRounds.SquatterIsClosed` | internal/controller/endpointselector_reconcile.go:102-106 | a slice of nobody listed in a desired place blocks its selector |
| `BringUp.RunSelector` | internal/controller/endpointselector_reconcile.go:29-109 | one run with caught-up caches succeeds exactly if no desired place is squatted, and does what a round needs in either case |
| `BringUp.Round` | internal/controller/endpointselector_reconcile.go:29-109 | a round leaves no unwanted slice; if all its runs succeed every selector is in sync; in an open state without unwanted slices they all do |
| `BringUp.SettleSelectors` | internal/controller/endpointselector_reconcile.go:29-109 | two rounds or more over the selectors, going on past refused creates, bring all of them in sync from every open state, and, where none has two slices of one name, only from those |
| `BringUp.GatewaysFirst` | internal/controller/gateway_reconcile.go:56-135 | the Gateways' rounds settle all of them and change nothing that a selector asks for, given the Gateways that last |
| `BringUp.BringUp` | internal/controller/gateway_reconcile.go:56-135 | without API errors, three rounds over the Gateways and two over the selectors leave the fixpoint that the end-to-end theorems assume from every promising start state, and, where no selector starts with two slices of one name, only from those |

## Left out

- The command line, health and metrics servers, client configuration and informer wiring.
- The CoreDNS plugin.
- `reconcileGatewayClass`: a status merge like the one proved for Gateways.
- Texts of status messages: a message is a short tag that still names what the source's message names.
- Transition times of conditions, resource versions, and UIDs of owner references.
- Unstructured conversion, nil objects and tombstone handling in the informer callbacks.
- Label selectors, IP and prefix parsing and digests are functions of a record, not implementations.
- Interleavings inside one reconcile of two Gateway workers: the delete calls name an address without an owner precondition.
- Writers of IPAddress records other than this controller, and users who remove its finalizer.
- Uniqueness of published addresses at every instant: proved at fixpoints only, since an invalid Gateway releases its address before it rewrites its status.
- Leaks under a lagging address cache: cleanup trusts the cache.
- Big-endian hosts: the dispatch keys are in the byte order of a little-endian host.
- Connection tracking: the packet semantics is that of the first packet of a connection.
- SyncLoop.NoLostUpdate: excludes the very change that a pass read before its apply failed, because the loop then only waits for its ticker.
