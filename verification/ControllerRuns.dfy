/** Whole runs of the Gateway controller: reconciles between cache deliveries and user edits. */
module ControllerRuns {
  import opened Addresses
  import opened Objects
  import opened Conditions
  import opened Records
  import opened Allocation
  import opened GatewayEvaluation
  import opened ControllerState
  import opened GatewayReconcile

  datatype Action =
    | Reconcile(id: NamespacedName, env: Environment, prefixes: seq<Prefix>)
    | DeliverAddressEvent
    | ShowGateways(snapshot: Gateways)
    | UserStores(gateway: Gateway)
    | UserDeletes(target: NamespacedName)

  /** Inputs the API server and the informers produce. */
  ghost predicate Plausible(action: Action) {
    match action
    case Reconcile(_, _, prefixes) => AllMasked(prefixes)
    case ShowGateways(snapshot) => GatewaysValid(snapshot)
    case UserStores(g) => g.namespace != "" && g.name != "" && DistinctKinds(g.status.conditions)
    case DeliverAddressEvent => true
    case UserDeletes(_) => true
  }

  /** Users create and edit Gateways; they leave the deletion mark and this controller's finalizer alone. */
  predicate EditAllowed(gateways: Gateways, g: Gateway) {
    if g.Id() !in gateways then !g.deleting
    else
      var current := gateways[g.Id()];
      g.deleting == current.deleting && (HasFinalizer(current) ==> HasFinalizer(g))
  }

  function AfterEdit(gateways: Gateways, g: Gateway): Gateways {
    if EditAllowed(gateways, g) then StoreGateway(gateways, g) else gateways
  }

  /** Deleting marks an object that has finalizers, and removes any other. */
  function AfterDelete(gateways: Gateways, id: NamespacedName): Gateways {
    if id !in gateways then gateways else StoreGateway(gateways, gateways[id].(deleting := true))
  }

  lemma EditsKeep(api: map<string, IPAddress>, gateways: Gateways, g: Gateway)
    requires GatewaysValid(gateways) && g.namespace != "" && g.name != "" && DistinctKinds(g.status.conditions)
    ensures GatewaysValid(AfterEdit(gateways, g))
    ensures Protected(api, gateways) ==> Protected(api, AfterEdit(gateways, g))
  {
    var after := AfterEdit(gateways, g);
    assert OthersSame(gateways, after, g.Id());
    if Protected(api, gateways) {
      assert OwnedNames(api, g.Id()) == {} || (g.Id() in gateways && HasFinalizer(gateways[g.Id()])) by {
        if n :| n in OwnedNames(api, g.Id()) {
          assert OwnedBy(api[n], g.Id());
        }
      }
      ProtectedGateway(api, gateways, after, g.Id());
    }
  }

  lemma DeletesKeep(api: map<string, IPAddress>, gateways: Gateways, id: NamespacedName)
    requires GatewaysValid(gateways)
    ensures GatewaysValid(AfterDelete(gateways, id))
    ensures Protected(api, gateways) ==> Protected(api, AfterDelete(gateways, id))
  {
    var after := AfterDelete(gateways, id);
    assert OthersSame(gateways, after, id);
    if Protected(api, gateways) {
      assert OwnedNames(api, id) == {} || (id in gateways && HasFinalizer(gateways[id])) by {
        if n :| n in OwnedNames(api, id) {
          assert OwnedBy(api[n], id);
        }
      }
      ProtectedGateway(api, gateways, after, id);
    }
  }

  /** Addresses disappear only in a reconcile of the Gateway that owned them. */
  ghost predicate DeletesOwn(r: Records, r': Records, action: Action) {
    forall n :: n in r.api && n !in r'.api ==> action.Reconcile? && OwnedBy(r.api[n], action.id)
  }

  /** One action on the controller's world. */
  method Act(c: GatewayController, action: Action)
    requires GatewaysValid(c.gateways) && GatewaysValid(c.cachedGateways) && Plausible(action)
    modifies c
    ensures GatewaysValid(c.gateways) && GatewaysValid(c.cachedGateways)
    ensures Coherent(old(c.records)) ==> Coherent(c.records) && DeletesOwn(old(c.records), c.records, action)
    ensures (action.Reconcile? ==> old(c.CaughtUp())) && Protected(old(c.records.api), old(c.gateways)) ==>
              Protected(c.records.api, c.gateways)
    ensures !action.Reconcile? ==> c.records.api == old(c.records.api)
  {
    match action {
      case Reconcile(id, env, prefixes) =>
        var _ := c.ReconcileGateway(env, prefixes, id);
        if Coherent(old(c.records)) {
          forall n | n in old(c.records.api) && n !in c.records.api
            ensures OwnedBy(old(c.records.api)[n], id)
          {
            OnlyOwnAddressesGo(old(c.records), c.records, id, n);
          }
        }
      case DeliverAddressEvent =>
        if Coherent(c.records) {
          DeliveredCoherent(c.records);
        }
        c.records := Delivered(c.records);
      case ShowGateways(snapshot) =>
        c.cachedGateways := snapshot;
      case UserStores(g) =>
        EditsKeep(c.records.api, c.gateways, g);
        c.gateways := AfterEdit(c.gateways, g);
      case UserDeletes(id) =>
        DeletesKeep(c.records.api, c.gateways, id);
        c.gateways := AfterDelete(c.gateways, id);
    }
  }

  // ---- Runs with a lagging cache --------------------------------------------------------

  ghost predicate SafeAt(trace: seq<Records>, actions: seq<Action>, i: nat)
    requires i < |actions| && i + 1 < |trace|
  {
    Coherent(trace[i]) && Coherent(trace[i + 1]) && DeletesOwn(trace[i], trace[i + 1], actions[i])
  }

  lemma SafeGrows(trace: seq<Records>, actions: seq<Action>, k: nat, r: Records)
    requires |trace| == k + 1 && k < |actions| && forall i :: 0 <= i < k ==> SafeAt(trace, actions, i)
    requires Coherent(trace[k]) && Coherent(r) && DeletesOwn(trace[k], r, actions[k])
    ensures forall i :: 0 <= i <= k ==> SafeAt(trace + [r], actions, i)
  {
    forall i | 0 <= i <= k
      ensures SafeAt(trace + [r], actions, i)
    {
      assert i < k ==> SafeAt(trace, actions, i);
    }
  }

  /**
   In any run, with the address cache behind by any number of events, Gateway snapshots as old as one
   likes and calls failing anywhere: at most one event per address is under way, a cached owner is the
   real one or the address is gone, and no reconcile deletes an address of another Gateway.
   */
  method RunLagging(c: GatewayController, actions: seq<Action>) returns (ghost trace: seq<Records>)
    requires GatewaysValid(c.gateways) && GatewaysValid(c.cachedGateways) && Coherent(c.records)
    requires forall a :: a in actions ==> Plausible(a)
    modifies c
    ensures |trace| == |actions| + 1 && trace[0] == old(c.records) && trace[|actions|] == c.records
    ensures forall i :: 0 <= i < |actions| ==> SafeAt(trace, actions, i)
    ensures forall i, n :: 0 <= i <= |actions| && n in trace[i].cache && n in trace[i].api ==> trace[i].cache[n] == trace[i].api[n]
  {
    trace := [c.records];
    for k := 0 to |actions|
      invariant GatewaysValid(c.gateways) && GatewaysValid(c.cachedGateways)
      invariant |trace| == k + 1 && trace[0] == old(c.records) && trace[k] == c.records && Coherent(c.records)
      invariant forall i :: 0 <= i < k ==> SafeAt(trace, actions, i)
      invariant forall i :: 0 <= i <= k ==> Coherent(trace[i])
    {
      Act(c, actions[k]);
      SafeGrows(trace, actions, k, c.records);
      trace := trace + [c.records];
    }
    forall i, n | 0 <= i <= |actions| && n in trace[i].cache && n in trace[i].api
      ensures trace[i].cache[n] == trace[i].api[n]
    {
      CachedOwnerIsReal(trace[i], n);
    }
  }

  // ---- Runs with caches that have caught up ---------------------------------------------

  /** The informers deliver everything. */
  method SyncCaches(c: GatewayController)
    requires Coherent(c.records)
    modifies c
    ensures c.CaughtUp() && Coherent(c.records)
    ensures c.records.api == old(c.records.api) && c.gateways == old(c.gateways) && c.writes == old(c.writes)
  {
    c.cachedGateways := c.gateways;
    while c.records.undelivered != []
      invariant Coherent(c.records) && c.records.api == old(c.records.api)
      invariant c.gateways == old(c.gateways) && c.cachedGateways == c.gateways && c.writes == old(c.writes)
      decreases |c.records.undelivered|
    {
      DeliveredCoherent(c.records);
      c.records := Delivered(c.records);
    }
    assert forall n :: !Awaited(c.records, n);
  }

  /**
   Finalizer protection: when every reconcile finds its caches caught up, then at every point of every run,
   whatever calls fail, each owned address has its Gateway present and carrying the finalizer.
   */
  method RunCaughtUp(c: GatewayController, actions: seq<Action>)
    returns (ghost trace: seq<(map<string, IPAddress>, Gateways)>)
    requires GatewaysValid(c.gateways) && GatewaysValid(c.cachedGateways) && Coherent(c.records)
    requires Protected(c.records.api, c.gateways)
    requires forall a :: a in actions ==> Plausible(a)
    modifies c
    ensures |trace| == |actions| + 1 && trace[|actions|] == (c.records.api, c.gateways)
    ensures forall i :: 0 <= i < |trace| ==> Protected(trace[i].0, trace[i].1)
  {
    trace := [(c.records.api, c.gateways)];
    for k := 0 to |actions|
      invariant GatewaysValid(c.gateways) && GatewaysValid(c.cachedGateways) && Coherent(c.records)
      invariant Protected(c.records.api, c.gateways)
      invariant |trace| == k + 1 && trace[k] == (c.records.api, c.gateways)
      invariant forall i :: 0 <= i < |trace| ==> Protected(trace[i].0, trace[i].1)
    {
      if actions[k].Reconcile? {
        SyncCaches(c);
      }
      Act(c, actions[k]);
      trace := trace + [(c.records.api, c.gateways)];
    }
  }

  // ---- Convergence ----------------------------------------------------------------------

  /** The goal does not depend on the order in which an index lists the routes. */
  lemma GoalOrderFree(
    api: map<string, IPAddress>, gateways: Gateways, a: Environment, b: Environment, prefixes: seq<Prefix>, id: NamespacedName)
    requires AllMasked(prefixes) && SameInputs(a, b) && Goal(api, gateways, a, prefixes, id)
    ensures Goal(api, gateways, b, prefixes, id)
  {
    if id in gateways {
      EvaluationStable(a, b, gateways[id], gateways[id]);
    }
  }

  /**
   Convergence: from any state, without API errors and with caches that catch up in between, one reconcile
   leaves the Gateway `prepared`, a second reaches the goal in `api` and `gateways` after `writes` writes in
   all, and a third changes and writes nothing, in whatever order the route index answers each time.
   */
  method Converge(
    c: GatewayController, first: Environment, second: Environment, third: Environment, prefixes: seq<Prefix>, id: NamespacedName)
    returns (prepared: Gateways, writes: nat, ghost api: map<string, IPAddress>, gateways: Gateways)
    requires GatewaysValid(c.gateways) && AllMasked(prefixes) && Coherent(c.records) && !c.faulty
    requires SameInputs(second, third)
    modifies c
    ensures Evolves(old(c.gateways), prepared, id) && Prepared(prepared, id)
    ensures Evolves(prepared, gateways, id) && Goal(api, gateways, second, prefixes, id)
    ensures c.writes == writes && c.records.api == api && c.gateways == gateways
  {
    SyncCaches(c);
    var ok := c.ReconcileGateway(first, prefixes, id);
    prepared := c.gateways;
    SyncCaches(c);
    ok := c.ReconcileGateway(second, prefixes, id);
    SyncCaches(c);
    writes, api, gateways := c.writes, c.records.api, c.gateways;
    GoalOrderFree(api, gateways, second, third, prefixes, id);
    ok := c.ReconcileGateway(third, prefixes, id);
  }

  // ---- All Gateways together ------------------------------------------------------------

  ghost predicate AllPrepared(gs: Gateways, ids: seq<NamespacedName>) {
    forall id :: id in ids ==> Prepared(gs, id)
  }

  ghost predicate AllQuiet(
    api: map<string, IPAddress>, gs: Gateways, envs: NamespacedName -> Environment, ids: seq<NamespacedName>)
  {
    forall id :: id in ids ==> Quiet(api, gs, envs(id), id)
  }

  ghost predicate AllSettled(
    api: map<string, IPAddress>, gs: Gateways, envs: NamespacedName -> Environment, prefixes: seq<Prefix>, ids: seq<NamespacedName>)
    requires AllMasked(prefixes)
  {
    forall id :: id in ids ==> Goal(api, gs, envs(id), prefixes, id)
  }

  /** A reconcile of one Gateway that leaves it prepared keeps the others prepared; likewise for the later stages. */
  lemma PreparedStays(gs: Gateways, gs': Gateways, id: NamespacedName, ids: seq<NamespacedName>)
    requires OthersSame(gs, gs', id) && Prepared(gs', id) && AllPrepared(gs, ids)
    ensures AllPrepared(gs', ids)
  {
    forall other | other in ids && other != id
      ensures Prepared(gs', other)
    {
      OtherSame(gs, gs', id, other);
    }
  }

  lemma QuietStays(
    r: Records, r': Records, gs: Gateways, gs': Gateways, envs: NamespacedName -> Environment, id: NamespacedName,
    ids: seq<NamespacedName>)
    requires r.cache == r.api && OwnChanges(r, r', id) && OthersSame(gs, gs', id)
    requires Quiet(r'.api, gs', envs(id), id) && AllQuiet(r.api, gs, envs, ids)
    ensures AllQuiet(r'.api, gs', envs, ids)
  {
    forall other | other in ids && other != id
      ensures Quiet(r'.api, gs', envs(other), other)
    {
      OthersUndisturbed(r, r', gs, gs', id, other);
    }
  }

  lemma SettledStays(
    r: Records, r': Records, gs: Gateways, gs': Gateways, envs: NamespacedName -> Environment, prefixes: seq<Prefix>,
    id: NamespacedName, ids: seq<NamespacedName>)
    requires AllMasked(prefixes) && GatewaysValid(gs)
    requires r.cache == r.api && OwnChanges(r, r', id) && OthersSame(gs, gs', id) && forall n :: n in r.api ==> n in r'.api
    requires Goal(r'.api, gs', envs(id), prefixes, id) && AllSettled(r.api, gs, envs, prefixes, ids)
    ensures AllSettled(r'.api, gs', envs, prefixes, ids)
  {
    forall other | other in ids && other != id
      ensures Goal(r'.api, gs', envs(other), prefixes, other)
    {
      GoalStays(r, r', gs, gs', id, envs(other), prefixes, other);
    }
  }

  /** Reconcile one Gateway with caches caught up: it advances a stage. */
  method Advance(c: GatewayController, envs: NamespacedName -> Environment, prefixes: seq<Prefix>, id: NamespacedName)
    returns (ghost r: Records)
    requires GatewaysValid(c.gateways) && AllMasked(prefixes) && Coherent(c.records) && !c.faulty
    modifies c
    ensures GatewaysValid(c.gateways) && Coherent(c.records)
    ensures r.api == r.cache == old(c.records.api) && OwnChanges(r, c.records, id)
    ensures OthersSame(old(c.gateways), c.gateways, id) && Evolves(old(c.gateways), c.gateways, id)
    ensures Prepared(c.gateways, id)
    ensures old(Prepared(c.gateways, id)) ==> Goal(c.records.api, c.gateways, envs(id), prefixes, id)
    ensures old(Prepared(c.gateways, id)) ==> Quiet(c.records.api, c.gateways, envs(id), id)
    ensures old(Quiet(c.records.api, c.gateways, envs(id), id)) ==> forall n :: n in r.api ==> n in c.records.api
    ensures old(Goal(c.records.api, c.gateways, envs(id), prefixes, id)) ==>
              c.records.api == old(c.records.api) && c.gateways == old(c.gateways) && c.writes == old(c.writes)
  {
    SyncCaches(c);
    r := c.records;
    var _ := c.ReconcileGateway(envs(id), prefixes, id);
    if old(Prepared(c.gateways, id)) {
      GoalIsQuiet(c.records.api, c.gateways, envs(id), prefixes, id);
    }
  }

  lemma QuietIsPrepared(api: map<string, IPAddress>, gs: Gateways, env: Environment, id: NamespacedName)
    requires Quiet(api, gs, env, id)
    ensures Prepared(gs, id)
  {
  }

  ghost predicate EvolvesAll(gs: Gateways, gs': Gateways) {
    forall id :: Evolves(gs, gs', id)
  }

  lemma EvolvesFurther(start: Gateways, gs: Gateways, gs': Gateways, id: NamespacedName)
    requires EvolvesAll(start, gs) && OthersSame(gs, gs', id) && Evolves(gs, gs', id)
    ensures EvolvesAll(start, gs')
  {
    forall other
      ensures Evolves(start, gs', other)
    {
      assert Evolves(start, gs, other);
      if other != id {
        OtherSame(gs, gs', id, other);
      }
    }
  }

  /** The state the rounds start from. */
  datatype Start = Start(api: map<string, IPAddress>, gateways: Gateways)

  /** `ids` names every Gateway, Gateways evolved from the start, and addresses not there then have canonical names. */
  ghost predicate Sound(c: GatewayController, ids: seq<NamespacedName>, start: Start)
    reads c
  {
    && GatewaysValid(c.gateways) && Coherent(c.records) && EvolvesAll(start.gateways, c.gateways)
    && (forall id :: id in c.gateways ==> id in ids)
    && (forall n :: n in c.records.api ==> n in start.api || IsDotted(n))
  }

  lemma SoundStays(
    c: GatewayController, ids: seq<NamespacedName>, start: Start, r: Records, gs: Gateways, id: NamespacedName)
    requires GatewaysValid(c.gateways) && Coherent(c.records) && id in ids
    requires OwnChanges(r, c.records, id) && OthersSame(gs, c.gateways, id) && Evolves(gs, c.gateways, id)
    requires EvolvesAll(start.gateways, gs)
    requires (forall i :: i in gs ==> i in ids) && forall n :: n in r.api ==> n in start.api || IsDotted(n)
    ensures Sound(c, ids, start)
  {
    EvolvesFurther(start.gateways, gs, c.gateways, id);
    forall i | i in c.gateways
      ensures i in ids
    {
      if i != id {
        OtherSame(gs, c.gateways, id, i);
      }
    }
  }

  /** First round: afterwards every Gateway carries the finalizer if it should. */
  method PrepareAll(
    c: GatewayController, envs: NamespacedName -> Environment, prefixes: seq<Prefix>, ids: seq<NamespacedName>,
    ghost start: Start)
    requires Sound(c, ids, start) && AllMasked(prefixes) && !c.faulty
    modifies c
    ensures Sound(c, ids, start) && AllPrepared(c.gateways, ids)
  {
    for i := 0 to |ids|
      invariant Sound(c, ids, start) && AllPrepared(c.gateways, ids[..i])
    {
      ghost var gs := c.gateways;
      ghost var r := Advance(c, envs, prefixes, ids[i]);
      SoundStays(c, ids, start, r, gs, ids[i]);
      PreparedStays(gs, c.gateways, ids[i], ids[..i]);
      assert forall id :: id in ids[..i + 1] <==> id in ids[..i] || id == ids[i];
    }
    assert ids[..|ids|] == ids;
  }

  /** Second round: afterwards no Gateway has an address left to give up. */
  method QuietAll(
    c: GatewayController, envs: NamespacedName -> Environment, prefixes: seq<Prefix>, ids: seq<NamespacedName>,
    ghost start: Start)
    requires Sound(c, ids, start) && AllMasked(prefixes) && !c.faulty && AllPrepared(c.gateways, ids)
    modifies c
    ensures Sound(c, ids, start) && AllQuiet(c.records.api, c.gateways, envs, ids)
  {
    for i := 0 to |ids|
      invariant Sound(c, ids, start)
      invariant AllPrepared(c.gateways, ids) && AllQuiet(c.records.api, c.gateways, envs, ids[..i])
    {
      ghost var gs := c.gateways;
      assert ids[i] in ids;
      ghost var r := Advance(c, envs, prefixes, ids[i]);
      SoundStays(c, ids, start, r, gs, ids[i]);
      PreparedStays(gs, c.gateways, ids[i], ids);
      QuietStays(r, c.records, gs, c.gateways, envs, ids[i], ids[..i]);
      assert forall id :: id in ids[..i + 1] <==> id in ids[..i] || id == ids[i];
    }
    assert ids[..|ids|] == ids;
  }

  /** Third round: afterwards every Gateway is at its goal. */
  method SettleAll(
    c: GatewayController, envs: NamespacedName -> Environment, prefixes: seq<Prefix>, ids: seq<NamespacedName>,
    ghost start: Start)
    requires Sound(c, ids, start) && AllMasked(prefixes) && !c.faulty && AllQuiet(c.records.api, c.gateways, envs, ids)
    modifies c
    ensures Sound(c, ids, start) && AllSettled(c.records.api, c.gateways, envs, prefixes, ids)
  {
    for i := 0 to |ids|
      invariant Sound(c, ids, start)
      invariant AllQuiet(c.records.api, c.gateways, envs, ids) && AllSettled(c.records.api, c.gateways, envs, prefixes, ids[..i])
    {
      ghost var gs := c.gateways;
      assert ids[i] in ids;
      QuietIsPrepared(c.records.api, gs, envs(ids[i]), ids[i]);
      ghost var r := Advance(c, envs, prefixes, ids[i]);
      SoundStays(c, ids, start, r, gs, ids[i]);
      QuietStays(r, c.records, gs, c.gateways, envs, ids[i], ids);
      SettledStays(r, c.records, gs, c.gateways, envs, prefixes, ids[i], ids[..i]);
      assert forall id :: id in ids[..i + 1] <==> id in ids[..i] || id == ids[i];
    }
    assert ids[..|ids|] == ids;
  }

  ghost predicate Starts(c: GatewayController, ids: seq<NamespacedName>)
    reads c
  {
    GatewaysValid(c.gateways) && Coherent(c.records) && forall id :: id in c.gateways ==> id in ids
  }

  /**
   Global convergence: three rounds over all Gateways, in any order, settle every one of them, in `api` and
   `gs` after `writes` writes in all; a Gateway that found the ranges exhausted gets its address in the third
   round if others released theirs. After that reconciling any Gateway changes and writes nothing.
   */
  method ConvergeAll(c: GatewayController, envs: NamespacedName -> Environment, prefixes: seq<Prefix>, ids: seq<NamespacedName>)
    returns (writes: nat, ghost api: map<string, IPAddress>, ghost gs: Gateways)
    requires Starts(c, ids) && AllMasked(prefixes) && !c.faulty
    modifies c
    ensures Sound(c, ids, old(Start(c.records.api, c.gateways)))
    ensures AllSettled(api, gs, envs, prefixes, ids)
    ensures c.writes == writes && c.records.api == api && c.gateways == gs
  {
    ghost var start := Start(c.records.api, c.gateways);
    PrepareAll(c, envs, prefixes, ids, start);
    QuietAll(c, envs, prefixes, ids, start);
    SettleAll(c, envs, prefixes, ids, start);
    writes, api, gs := c.writes, c.records.api, c.gateways;
    for i := 0 to |ids|
      invariant GatewaysValid(c.gateways) && Coherent(c.records)
      invariant c.writes == writes && c.records.api == api && c.gateways == gs
    {
      assert ids[i] in ids;
      ghost var r := Advance(c, envs, prefixes, ids[i]);
    }
  }
}
