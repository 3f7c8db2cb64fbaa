/** What the parts of a Gateway reconcile do, on values. */
module GatewaySteps {
  import opened Sorting
  import opened Folds
  import opened Addresses
  import opened Objects
  import opened ApiMeaning
  import opened Conditions
  import opened Records
  import opened Allocation
  import opened GatewayEvaluation
  import opened GatewayStatuses
  import opened ControllerState

  // ---- Choosing an address -------------------------------------------------------------

  /** The name `owned[0]` after sorting: the least one. */
  ghost predicate IsLeast(name: string, names: set<string>) {
    name in names && forall n :: n in names ==> LessEqual(name, n)
  }

  lemma SortedIsDistinct(owned: seq<string>, sorted: seq<string>, names: set<string>)
    requires Enumerates(owned, names) && multiset(sorted) == multiset(owned)
    ensures Enumerates(sorted, names)
  {
    EnumerationBag(owned, names);
    MultisetMembers(sorted, owned);
    DistinctFromBag(sorted, names);
  }

  /** The address a Gateway gets: its least owned one, or else the first free one. */
  ghost predicate Assigned(r: Records, r': Records, prefixes: seq<Prefix>, id: NamespacedName, vip: string)
    requires AllMasked(prefixes)
  {
    var owned := OwnedNames(r.cache, id);
    if owned != {} then
      IsLeast(vip, owned) && forall n :: n in r'.api <==> n in r.api && (n !in owned || n == vip)
    else
      exists a: Addr ::
        && FirstFit(prefixes, r.cache.Keys + r.api.Keys, a) && vip == Dotted(a) && r' == Created(r, vip, RecordFor(id))
  }

  /** `a` was the first free address of the prefix, and now belongs to `id`. */
  ghost predicate Allocated(r: Records, r': Records, id: NamespacedName, prefix: Prefix, a: Addr)
    requires prefix.IsMasked()
  {
    var busy := r.cache.Keys + r.api.Keys;
    && Candidate(prefix, a) && Dotted(a) !in busy && BusyBelow(prefix, busy, Value(a))
    && r' == Created(r, Dotted(a), RecordFor(id))
  }

  /** The one new address claims itself for the Gateway and carries nothing else. */
  ghost predicate AddedFor(id: NamespacedName, before: map<string, IPAddress>, after: map<string, IPAddress>, name: string) {
    && name in after && Claims(after[name], id) && OnlyOurLabels(after[name])
    && name !in before && after - {name} == before
  }

  /** What creating the record of a fit means, in terms of texts and labels. */
  lemma FitRecorded(r: Records, prefixes: seq<Prefix>, k: nat, a: Addr, id: NamespacedName)
    requires AllMasked(prefixes) && k < |prefixes| && id.namespace != "" && id.name != ""
    requires FitsAt(prefixes, r.cache.Keys + r.api.Keys, k, a)
    ensures FirstFit(prefixes, r.cache.Keys + r.api.Keys, a)
    ensures exists j: nat :: FirstFree(prefixes, r.cache.Keys + r.api.Keys, j, Dotted(a))
    ensures AddedFor(id, r.api, Created(r, Dotted(a), RecordFor(id)).api, Dotted(a))
  {
    FirstFitReads(prefixes, r.cache.Keys + r.api.Keys, a);
    RecordSays(id);
    assert Dotted(a) !in r.api;
  }

  lemma CreatedTouchesIf(r: Records, a: Addr, id: NamespacedName)
    requires id.namespace != "" && id.name != "" && Dotted(a) !in r.cache
    ensures Touches(r, r, id)
    ensures Dotted(a) !in r.api ==> Touches(r, Created(r, Dotted(a), RecordFor(id)), id)
  {
    QuadReadsBack(a);
    if Dotted(a) !in r.api {
      CreatedTouches(r, Dotted(a), id);
    }
  }

  lemma PastIsFull(prefix: Prefix, busy: set<string>, a: Addr)
    requires prefix.IsMasked() && Value(a) >= Value(prefix.addr) + prefix.Size() - 1 && BusyBelow(prefix, busy, Value(a))
    ensures Full(prefix, busy)
  {
  }

  /** Stands for whatever text an API error carries. */
  const API_ERROR := "api error"

  // ---- Finalizers ----------------------------------------------------------------------

  function WithFinalizer(gateways: Gateways, id: NamespacedName): Gateways
    requires id in gateways
  {
    gateways[id := gateways[id].(finalizers := gateways[id].finalizers + [CONTROLLER_FINALIZER])]
  }

  function WithoutFinalizer(gateways: Gateways, id: NamespacedName): Gateways {
    if id !in gateways || !HasFinalizer(gateways[id]) then gateways
    else StoreGateway(gateways, gateways[id].(finalizers := FinalizersLeft(gateways[id])))
  }

  lemma {:induction false} FilterDrops(values: seq<string>, target: string)
    ensures target !in Filter(v => v != target, values)
  {
    FilterMembers(v => v != target, values, target);
  }

  /** Exactly the other finalizers are left. */
  lemma FinalizersLeftCount(gateway: Gateway)
    ensures forall v :: multiset(FinalizersLeft(gateway))[v] ==
                          if v == CONTROLLER_FINALIZER then 0 else multiset(gateway.finalizers)[v]
    ensures FinalizersLeft(gateway) == [] <==> forall v :: v in gateway.finalizers ==> v == CONTROLLER_FINALIZER
    ensures !HasFinalizer(gateway) ==> forall v :: multiset(FinalizersLeft(gateway))[v] == multiset(gateway.finalizers)[v]
  {
    var others := (v: string) => v != CONTROLLER_FINALIZER;
    forall v
      ensures multiset(FinalizersLeft(gateway))[v] == if v == CONTROLLER_FINALIZER then 0 else multiset(gateway.finalizers)[v]
      ensures v in FinalizersLeft(gateway) <==> v in gateway.finalizers && v != CONTROLLER_FINALIZER
    {
      FilterCount(others, gateway.finalizers, v);
      FilterMembers(others, gateway.finalizers, v);
      assert FinalizersLeft(gateway) == Filter(others, gateway.finalizers);
    }
    if FinalizersLeft(gateway) != [] {
      assert FinalizersLeft(gateway)[0] in FinalizersLeft(gateway);
    }
  }

  lemma WithoutFinalizerMeaning(gs: Gateways, id: NamespacedName)
    requires GatewaysValid(gs)
    ensures var gs' := WithoutFinalizer(gs, id);
            && OthersSame(gs, gs', id) && Evolves(gs, gs', id) && GatewaysValid(gs')
            && (id in gs' ==> id in gs && !HasFinalizer(gs'[id]) && gs'[id].(finalizers := gs[id].finalizers) == gs[id])
    ensures var gs', ours := WithoutFinalizer(gs, id), "grosskur.github.io/clusterip-gw-ip-address-protection";
            && (id in gs' ==> forall v ::
                  multiset(gs'[id].finalizers)[v] == if v == ours then 0 else multiset(gs[id].finalizers)[v])
            && (id in gs && id !in gs' <==>
                  id in gs && gs[id].deleting && gs[id].finalizers != [] && forall v :: v in gs[id].finalizers ==> v == ours)
  {
    if id in gs {
      FilterDrops(gs[id].finalizers, CONTROLLER_FINALIZER);
      FinalizersLeftCount(gs[id]);
    }
  }

  // ---- What every part of a reconcile keeps --------------------------------------------

  /** The copy being reconciled is the stored Gateway, and the address cache has caught up. */
  ghost predicate CaughtTo(r: Records, gateways: Gateways, gateway: Gateway) {
    AddressesCaughtUp(r) && gateway.Id() in gateways && gateways[gateway.Id()] == gateway
  }

  /** What every part of a reconcile of `id` keeps, whatever call fails; `current` says that it works on the stored Gateway. */
  ghost predicate Step(r: Records, r': Records, gs: Gateways, gs': Gateways, id: NamespacedName, current: bool) {
    && Touches(r, r', id) && OthersSame(gs, gs', id) && Evolves(gs, gs', id) && GatewaysValid(gs')
    && (current && r.cache == r.api && Protected(r.api, gs) ==> Protected(r'.api, gs'))
  }

  /** A status write, done or not. */
  ghost predicate StatusWritten(gs: Gateways, gs': Gateways, gateway: Gateway, status: GatewayStatus) {
    || gs' == gs
    || (gateway.Id() in gs && gs[gateway.Id()] == gateway && gs' == gs[gateway.Id() := gateway.(status := status)])
  }

  lemma StatusStep(r: Records, gs: Gateways, gs': Gateways, gateway: Gateway, status: GatewayStatus)
    requires GatewaysValid(gs) && DistinctKinds(status.conditions) && StatusWritten(gs, gs', gateway, status)
    ensures Step(r, r, gs, gs', gateway.Id(), true) && (Protected(r.api, gs) ==> Protected(r.api, gs'))
  {
    var id := gateway.Id();
    assert OthersSame(gs, gs', id);
    if Protected(r.api, gs) && gs' != gs {
      forall n, other | n in r.api && OwnedBy(r.api[n], other)
        ensures other in gs' && HasFinalizer(gs'[other])
      {
      }
    }
  }

  lemma StatusFirst(r: Records, r': Records, gs: Gateways, between: Gateways, gs': Gateways, id: NamespacedName)
    requires Step(r, r, gs, between, id, true) && Step(r, r', between, gs', id, true)
    ensures Step(r, r', gs, gs', id, true)
  {
  }

  lemma StatusLast(
    r: Records, r': Records, gs: Gateways, gs': Gateways, gateway: Gateway, status: GatewayStatus, current: bool)
    requires GatewaysValid(gs) && DistinctKinds(status.conditions)
    requires Step(r, r', gs, gs, gateway.Id(), current) && StatusWritten(gs, gs', gateway, status)
    ensures Step(r, r', gs, gs', gateway.Id(), current)
  {
    StatusStep(r', gs, gs', gateway, status);
  }

  /** Every address the cache lists for `id` is gone, and only those. */
  ghost predicate Released(r: Records, r': Records, id: NamespacedName) {
    forall n :: n in r'.api <==> n in r.api && n !in OwnedNames(r.cache, id)
  }

  lemma ReleasedOwnsNothing(r: Records, r': Records, id: NamespacedName)
    requires r.cache == r.api && OwnChanges(r, r', id) && Released(r, r', id)
    ensures OwnedNames(r'.api, id) == {}
  {
    forall n | n in r'.api
      ensures !OwnedBy(r'.api[n], id)
    {
      assert r'.api[n] == r.api[n];
    }
  }

  lemma CleanupStep(r: Records, r': Records, gs: Gateways, gs': Gateways, id: NamespacedName)
    requires GatewaysValid(gs) && Touches(r, r', id) && forall n :: n in r'.api ==> n in r.api
    requires gs' == gs || (gs' == WithoutFinalizer(gs, id) && Released(r, r', id))
    ensures Step(r, r', gs, gs', id, true)
  {
    WithoutFinalizerMeaning(gs, id);
    if r.cache == r.api && Protected(r.api, gs) {
      ProtectedShrinks(r.api, r'.api, gs);
      if gs' != gs {
        ReleasedOwnsNothing(r, r', id);
        ProtectedGateway(r'.api, gs, gs', id);
      }
    }
  }

  lemma FinalizerStep(r: Records, gs: Gateways, gs': Gateways, id: NamespacedName)
    requires GatewaysValid(gs) && (gs' == gs || (id in gs && !gs[id].deleting && gs' == WithFinalizer(gs, id)))
    ensures Step(r, r, gs, gs', id, true)
  {
    if Protected(r.api, gs) && gs' != gs {
      ProtectedGateway(r.api, gs, gs', id);
    }
  }

  /** Changing addresses of a Gateway that carries the finalizer. */
  lemma OwnStep(r: Records, r': Records, gs: Gateways, gateway: Gateway)
    requires GatewaysValid(gs) && Touches(r, r', gateway.Id())
    requires HasFinalizer(gateway) || (gateway.Id() in gs && HasFinalizer(gs[gateway.Id()]))
    ensures Step(r, r', gs, gs, gateway.Id(), CaughtTo(r, gs, gateway))
  {
    if CaughtTo(r, gs, gateway) && Protected(r.api, gs) {
      ProtectedTouches(r, r', gs, gateway.Id());
    }
  }

  // ---- What a reconcile achieves -------------------------------------------------------

  predicate PreviouslyManaged(api: map<string, IPAddress>, gateway: Gateway) {
    HasFinalizer(gateway) || OwnedNames(api, gateway.Id()) != {}
  }

  /** Nothing is left of a Gateway's management: no address, no finalizer, and no status if there was any of them. */
  ghost predicate ClearedAway(r: Records, r': Records, gateway: Gateway, gs': Gateways) {
    var id := gateway.Id();
    && OwnedNames(r'.api, id) == {}
    && (id in gs' ==>
          && !HasFinalizer(gs'[id])
          && gs'[id].(status := gateway.status, finalizers := gateway.finalizers) == gateway
          && gs'[id].status == if PreviouslyManaged(r.api, gateway) && gateway.spec.className != GATEWAY_CLASS_NAME
                               then ClearedStatus(gateway.status) else gateway.status)
  }

  lemma CleanupClears(
    r: Records, r': Records, gs: Gateways, between: Gateways, gs': Gateways, gateway: Gateway, clear: bool)
    requires GatewaysValid(gs) && CaughtTo(r, gs, gateway)
    requires clear == (PreviouslyManaged(r.api, gateway) && gateway.spec.className != GATEWAY_CLASS_NAME)
    requires between == gs[gateway.Id() := gateway.(status := if clear then ClearedStatus(gateway.status) else gateway.status)]
    requires DistinctKinds(ClearedStatus(gateway.status).conditions)
    requires OwnChanges(r, r', gateway.Id()) && Released(r, r', gateway.Id()) && gs' == WithoutFinalizer(between, gateway.Id())
    ensures ClearedAway(r, r', gateway, gs')
  {
    ReleasedOwnsNothing(r, r', gateway.Id());
    WithoutFinalizerMeaning(between, gateway.Id());
  }

  /** A record claims an address for the Gateway, or the Gateway carries the finalizer. */
  ghost predicate BearsTraces(api: map<string, IPAddress>, gateway: Gateway) {
    || "grosskur.github.io/clusterip-gw-ip-address-protection" in gateway.finalizers
    || exists n :: n in api && Claims(api[n], gateway.Id())
  }

  lemma TracesMeaning(api: map<string, IPAddress>, gateway: Gateway)
    ensures PreviouslyManaged(api, gateway) <==> BearsTraces(api, gateway)
  {
    forall n | n in api
      ensures n in OwnedNames(api, gateway.Id()) <==> Claims(api[n], gateway.Id())
    {
      IndexKeyMeansOwner(api[n], gateway.Id());
    }
    if OwnedNames(api, gateway.Id()) != {} {
      var n :| n in OwnedNames(api, gateway.Id());
      assert Claims(api[n], gateway.Id());
    }
  }

  /**
   What is left of an unmanaged Gateway: no record claims an address for it, and if its class changed away, neither
   address nor listener status nor the two conditions of this controller are left.
   */
  lemma ClearedSays(r: Records, r': Records, gateway: Gateway, gs': Gateways)
    requires ClearedAway(r, r', gateway, gs') && gateway.Id() in gs' && DistinctKinds(gateway.status.conditions)
    ensures forall n :: n in r'.api ==> !Claims(r'.api[n], gateway.Id())
    ensures var status := gs'[gateway.Id()].status;
            if gateway.spec.className != "clusterip-gw" && BearsTraces(r.api, gateway) then
              && status.addresses == [] && status.listeners == []
              && forall x :: x in status.conditions <==> x in gateway.status.conditions && x.kind !in {"Accepted", "Programmed"}
            else status == gateway.status
  {
    TracesMeaning(r.api, gateway);
    RemovedMeaning(gateway.status.conditions, {ACCEPTED, PROGRAMMED});
    forall n | n in r'.api
      ensures !Claims(r'.api[n], gateway.Id())
    {
      IndexKeyMeansOwner(r'.api[n], gateway.Id());
      assert n !in OwnedNames(r'.api, gateway.Id());
    }
  }

  /** So an unmanaged Gateway publishes nothing afterwards exactly if it did not before or its class changed away. */
  lemma WhenNothingIsPublished(r: Records, r': Records, gateway: Gateway, gs': Gateways)
    requires ClearedAway(r, r', gateway, gs') && gateway.Id() in gs'
    ensures gs'[gateway.Id()].status.addresses == [] <==>
            || gateway.status.addresses == []
            || (gateway.spec.className != "clusterip-gw" && BearsTraces(r.api, gateway))
  {
    TracesMeaning(r.api, gateway);
  }

  /** The outcome of asking for a VIP; without faults it fails only if there is none. */
  ghost predicate Chosen(
    r: Records, r': Records, prefixes: seq<Prefix>, gateway: Gateway, e: Evaluation, published: Evaluation, faulty: bool)
    requires AllMasked(prefixes)
  {
    || (exists vip :: Assigned(r, r', prefixes, gateway.Id(), vip) && published == WithVIP(e, vip, gateway.generation))
    || (exists message :: published == WithoutVIP(e, message, gateway.generation)
          && (!faulty ==> OwnedNames(r.cache, gateway.Id()) == {} && Exhausted(prefixes, r.cache.Keys + r.api.Keys)
                          && r' == r && message == NoVIPMessage(prefixes)))
  }

  /** Addresses and evaluation as a run of the live branch without faults leaves them. */
  ghost predicate Arranged(r: Records, r': Records, gateway: Gateway, e: Evaluation, prefixes: seq<Prefix>, published: Evaluation)
    requires AllMasked(prefixes)
  {
    if e.valid then Chosen(r, r', prefixes, gateway, e, published, false)
    else Released(r, r', gateway.Id()) && published == e
  }

  lemma AssignedOwnsOne(r: Records, r': Records, prefixes: seq<Prefix>, id: NamespacedName, vip: string)
    requires AllMasked(prefixes) && AddressesCaughtUp(r) && OwnChanges(r, r', id) && Assigned(r, r', prefixes, id, vip)
    requires id.namespace != "" && id.name != ""
    ensures OwnedNames(r'.api, id) == {vip}
  {
    var owned := OwnedNames(r.api, id);
    if owned != {} {
      forall n | n in r'.api
        ensures OwnedBy(r'.api[n], id) <==> n == vip
      {
        assert n in r.api && r'.api[n] == r.api[n];
      }
    } else {
      assert OwnedBy(RecordFor(id), id);
    }
  }

  /** The evaluation is the same once the controller has written the status. */
  lemma RestatedEvaluation(env: Environment, gateway: Gateway, status: GatewayStatus)
    ensures Evaluate(env, Restated(gateway, status)) == Evaluate(env, gateway)
  {
    EvaluationStable(env, env, gateway, Restated(gateway, status));
  }

  lemma ArrangedIsGoal(
    r: Records, r': Records, gateway: Gateway, e: Evaluation, prefixes: seq<Prefix>, published: Evaluation)
    requires AllMasked(prefixes) && AddressesCaughtUp(r) && OwnChanges(r, r', gateway.Id())
    requires gateway.namespace != "" && gateway.name != "" && DistinctKinds(gateway.status.conditions)
    requires Arranged(r, r', gateway, e, prefixes, published)
    ensures GoalLive(r'.api, Restated(gateway, StatusFor(gateway, published)), e, prefixes)
  {
    var settled := Restated(gateway, StatusFor(gateway, published));
    StatusSettles(gateway, published);
    if !e.valid {
      ReleasedOwnsNothing(r, r', gateway.Id());
    } else if vip :| Assigned(r, r', prefixes, gateway.Id(), vip) && published == WithVIP(e, vip, gateway.generation) {
      AssignedOwnsOne(r, r', prefixes, gateway.Id(), vip);
      assert Publishes(settled, OwnedNames(r'.api, gateway.Id()), e, vip);
    } else {
      assert r.cache.Keys + r.api.Keys == r.api.Keys;
    }
  }

  /** Without faults the live branch ends at the goal. */
  lemma GoalReached(
    r: Records, r': Records, gateway: Gateway, env: Environment, prefixes: seq<Prefix>, published: Evaluation)
    requires AllMasked(prefixes) && AddressesCaughtUp(r) && OwnChanges(r, r', gateway.Id())
    requires gateway.namespace != "" && gateway.name != "" && DistinctKinds(gateway.status.conditions)
    requires Arranged(r, r', gateway, Evaluate(env, gateway), prefixes, published)
    ensures var settled := Restated(gateway, StatusFor(gateway, published));
            GoalLive(r'.api, settled, Evaluate(env, settled), prefixes)
  {
    RestatedEvaluation(env, gateway, StatusFor(gateway, published));
    ArrangedIsGoal(r, r', gateway, Evaluate(env, gateway), prefixes, published);
  }
}
