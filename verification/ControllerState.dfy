/** What a Gateway reconcile may change, and the invariants its steps keep. */
module ControllerState {
  import opened Wrappers
  import opened Folds
  import opened Objects
  import opened ApiMeaning
  import opened Conditions
  import opened Records
  import opened Allocation
  import opened Addresses
  import opened GatewayEvaluation
  import opened GatewayStatuses

  type Gateways = map<NamespacedName, Gateway>

  predicate HasFinalizer(gateway: Gateway) {
    CONTROLLER_FINALIZER in gateway.finalizers
  }

  /** Gateways as the API server stores them. */
  ghost predicate GatewaysValid(gateways: Gateways) {
    forall id :: id in gateways ==>
      && gateways[id].Id() == id && id.namespace != "" && id.name != ""
      && DistinctKinds(gateways[id].status.conditions)
  }

  /** The API server drops an object that is being deleted once its last finalizer is gone. */
  function StoreGateway(gateways: Gateways, gateway: Gateway): Gateways {
    if gateway.deleting && gateway.finalizers == [] then gateways - {gateway.Id()} else gateways[gateway.Id() := gateway]
  }

  /** Only the Gateway `id` may differ. */
  ghost predicate OthersSame(gateways: Gateways, gateways': Gateways, id: NamespacedName) {
    gateways' - {id} == gateways - {id}
  }

  lemma OtherSame(gateways: Gateways, gateways': Gateways, id: NamespacedName, other: NamespacedName)
    requires OthersSame(gateways, gateways', id) && other != id
    ensures (other in gateways <==> other in gateways') && (other in gateways ==> gateways[other] == gateways'[other])
  {
    assert other in gateways - {id} <==> other in gateways;
    assert other in gateways' - {id} <==> other in gateways';
    if other in gateways {
      assert (gateways - {id})[other] == (gateways' - {id})[other];
    }
  }

  function FinalizersLeft(gateway: Gateway): seq<string> {
    Filter(v => v != CONTROLLER_FINALIZER, gateway.finalizers)
  }

  /** Cleaning up a Gateway makes it disappear exactly if it is being deleted and nobody else holds it. */
  predicate Lasts(gateway: Gateway) {
    !(gateway.deleting && HasFinalizer(gateway) && FinalizersLeft(gateway) == [])
  }

  /** The controller may change status and finalizers of a Gateway, and lose it only if it does not last. */
  ghost predicate Evolves(gateways: Gateways, gateways': Gateways, id: NamespacedName) {
    && (id in gateways' ==>
          id in gateways && SameSpec(gateways[id], gateways'[id]) && (Lasts(gateways[id]) <==> Lasts(gateways'[id])))
    && (id in gateways && Lasts(gateways[id]) ==> id in gateways')
  }

  // ---- Finalizer protection -----------------------------------------------------------

  /** Every address that names a Gateway as its owner has that Gateway present and carrying the finalizer. */
  ghost predicate Protected(api: map<string, IPAddress>, gateways: Gateways) {
    forall n, id :: n in api && OwnedBy(api[n], id) ==> id in gateways && HasFinalizer(gateways[id])
  }

  lemma ProtectedShrinks(api: map<string, IPAddress>, api': map<string, IPAddress>, gateways: Gateways)
    requires Protected(api, gateways) && forall n :: n in api' ==> n in api && api'[n] == api[n]
    ensures Protected(api', gateways)
  {
  }

  lemma OwnerStaysProtected(r: Records, r': Records, gateways: Gateways, id: NamespacedName, n: string, other: NamespacedName)
    requires Protected(r.api, gateways) && OwnChanges(r, r', id) && id in gateways && HasFinalizer(gateways[id])
    requires n in r'.api && Owner(r'.api[n]) == Some(other)
    ensures other in gateways && HasFinalizer(gateways[other])
  {
    if n in r.api {
      assert OwnedBy(r.api[n], other);
    } else {
      assert OwnedBy(r'.api[n], id);
    }
  }

  lemma ProtectedTouches(r: Records, r': Records, gateways: Gateways, id: NamespacedName)
    requires Protected(r.api, gateways) && OwnChanges(r, r', id)
    requires id in gateways && HasFinalizer(gateways[id])
    ensures Protected(r'.api, gateways)
  {
    forall n, other | n in r'.api && OwnedBy(r'.api[n], other)
      ensures other in gateways && HasFinalizer(gateways[other])
    {
      assert Owner(r'.api[n]) == Some(other);
      OwnerStaysProtected(r, r', gateways, id, n, other);
    }
  }

  /** Changing one Gateway is safe if it keeps the finalizer or owns nothing. */
  lemma ProtectedGateway(api: map<string, IPAddress>, gateways: Gateways, gateways': Gateways, id: NamespacedName)
    requires Protected(api, gateways) && OthersSame(gateways, gateways', id)
    requires OwnedNames(api, id) == {} || (id in gateways' && HasFinalizer(gateways'[id]))
    ensures Protected(api, gateways')
  {
    forall n, other | n in api && OwnedBy(api[n], other)
      ensures other in gateways' && HasFinalizer(gateways'[other])
    {
      if other == id {
        assert n in OwnedNames(api, id);
      } else {
        OtherSame(gateways, gateways', id, other);
      }
    }
  }

  // ---- The fixpoint -------------------------------------------------------------------

  predicate Managed(gateway: Gateway) {
    gateway.spec.className == GATEWAY_CLASS_NAME && !gateway.deleting
  }

  function NoVIPMessage(prefixes: seq<Prefix>): string {
    if prefixes == [] then "no IPv4 ServiceCIDR ranges" else "all IPv4 ServiceCIDR addresses are allocated"
  }

  /** The Gateway owns exactly this address and publishes it. */
  ghost predicate Publishes(gateway: Gateway, owned: set<string>, e: Evaluation, vip: string) {
    owned == {vip} && StatusEqual(gateway.status, StatusFor(gateway, WithVIP(e, vip, gateway.generation)))
  }

  /** No address could be had, and the status says so. */
  ghost predicate WithoutAddress(gateway: Gateway, owned: set<string>, e: Evaluation, prefixes: seq<Prefix>, busy: set<string>)
    requires AllMasked(prefixes)
  {
    && owned == {} && Exhausted(prefixes, busy)
    && StatusEqual(gateway.status, StatusFor(gateway, WithoutVIP(e, NoVIPMessage(prefixes), gateway.generation)))
  }

  ghost predicate GoalLive(api: map<string, IPAddress>, g: Gateway, e: Evaluation, prefixes: seq<Prefix>)
    requires AllMasked(prefixes)
  {
    var owned := OwnedNames(api, g.Id());
    if !e.valid then owned == {} && StatusEqual(g.status, StatusFor(g, e))
    else (exists vip :: Publishes(g, owned, e, vip)) || WithoutAddress(g, owned, e, prefixes, api.Keys)
  }

  /** The state a reconcile of `id` aims at. */
  ghost predicate Goal(api: map<string, IPAddress>, gateways: Gateways, env: Environment, prefixes: seq<Prefix>, id: NamespacedName)
    requires AllMasked(prefixes)
  {
    id in gateways ==>
      var g := gateways[id];
      if Managed(g) then HasFinalizer(g) && GoalLive(api, g, Evaluate(env, g), prefixes)
      else OwnedNames(api, id) == {} && !HasFinalizer(g)
  }

  /** One more reconcile reaches the goal: a managed Gateway already carries the finalizer. */
  ghost predicate Prepared(gateways: Gateways, id: NamespacedName) {
    id in gateways && Managed(gateways[id]) ==> HasFinalizer(gateways[id])
  }

  ghost predicate Singleton(names: set<string>) {
    exists n :: names == {n}
  }

  /** A reconcile will find no address to delete. */
  ghost predicate Quiet(api: map<string, IPAddress>, gateways: Gateways, env: Environment, id: NamespacedName) {
    id in gateways ==>
      var g, owned := gateways[id], OwnedNames(api, id);
      if Managed(g) then HasFinalizer(g) && (owned == {} || (Evaluate(env, g).valid && Singleton(owned)))
      else owned == {}
  }

  lemma GoalIsQuiet(api: map<string, IPAddress>, gateways: Gateways, env: Environment, prefixes: seq<Prefix>, id: NamespacedName)
    requires AllMasked(prefixes) && GatewaysValid(gateways) && Goal(api, gateways, env, prefixes, id)
    ensures Quiet(api, gateways, env, id)
  {
    if id in gateways && Managed(gateways[id]) {
      var g := gateways[id];
      if vip :| Publishes(g, OwnedNames(api, g.Id()), Evaluate(env, g), vip) {
        assert OwnedNames(api, id) == {vip};
      }
    }
  }

  /** Changing only what belongs to `id` leaves every other Gateway and its addresses alone. */
  lemma OthersUndisturbed(r: Records, r': Records, gs: Gateways, gs': Gateways, id: NamespacedName, other: NamespacedName)
    requires r.cache == r.api && OwnChanges(r, r', id) && OthersSame(gs, gs', id) && other != id
    ensures OwnedNames(r'.api, other) == OwnedNames(r.api, other)
    ensures (other in gs <==> other in gs') && (other in gs ==> gs[other] == gs'[other])
  {
    OtherSame(gs, gs', id, other);
    forall n
      ensures n in OwnedNames(r'.api, other) <==> n in OwnedNames(r.api, other)
    {
      assert n in r.api && n in r'.api ==> r.api[n] == r'.api[n];
    }
  }

  lemma ExhaustedStays(prefixes: seq<Prefix>, busy: set<string>, more: set<string>)
    requires AllMasked(prefixes) && Exhausted(prefixes, busy) && busy <= more
    ensures Exhausted(prefixes, more)
  {
  }

  /** With no address deleted, another Gateway that is at its goal stays there. */
  lemma GoalStays(
    r: Records, r': Records, gs: Gateways, gs': Gateways, id: NamespacedName, env: Environment, prefixes: seq<Prefix>,
    other: NamespacedName)
    requires AllMasked(prefixes) && GatewaysValid(gs)
    requires r.cache == r.api && OwnChanges(r, r', id) && OthersSame(gs, gs', id) && other != id
    requires Goal(r.api, gs, env, prefixes, other) && forall n :: n in r.api ==> n in r'.api
    ensures Goal(r'.api, gs', env, prefixes, other)
  {
    OthersUndisturbed(r, r', gs, gs', id, other);
    if other in gs && Managed(gs[other]) {
      var g, owned := gs[other], OwnedNames(r.api, other);
      var e := Evaluate(env, g);
      if e.valid && WithoutAddress(g, owned, e, prefixes, r.api.Keys) {
        ExhaustedStays(prefixes, r.api.Keys, r'.api.Keys);
        assert WithoutAddress(g, owned, e, prefixes, r'.api.Keys);
      }
    }
  }

  lemma LiveGoalMeaning(api: map<string, IPAddress>, g: Gateway, e: Evaluation, prefixes: seq<Prefix>)
    requires AllMasked(prefixes) && GoalLive(api, g, e, prefixes) && "" !in api && e.selectedVIP == ""
    ensures var owned := OwnedNames(api, g.Id());
            && (!e.valid ==> owned == {} && g.status.addresses == [])
            && (e.valid ==>
                  || (exists vip :: vip in api && owned == {vip} && g.status.addresses == [StatusAddress(Some("IPAddress"), vip)])
                  || (owned == {} && g.status.addresses == [] && Exhausted(prefixes, api.Keys)))
  {
    var owned := OwnedNames(api, g.Id());
    if e.valid && !WithoutAddress(g, owned, e, prefixes, api.Keys) {
      var vip :| Publishes(g, owned, e, vip);
      assert vip in owned;
      StatusEqualMeaning(g.status, StatusFor(g, WithVIP(e, vip, g.generation)));
    }
  }

  /** At the goal, what a Gateway owns is what it publishes. */
  lemma GoalMeaning(api: map<string, IPAddress>, gateways: Gateways, env: Environment, prefixes: seq<Prefix>, id: NamespacedName)
    requires AllMasked(prefixes) && Goal(api, gateways, env, prefixes, id) && GatewaysValid(gateways) && id in gateways && "" !in api
    ensures var g, owned := gateways[id], OwnedNames(api, id);
            && (!Managed(g) ==> owned == {})
            && (Managed(g) && !Evaluate(env, g).valid ==> owned == {} && g.status.addresses == [])
            && (Managed(g) && Evaluate(env, g).valid ==>
                  || (exists vip :: vip in api && owned == {vip} && g.status.addresses == [StatusAddress(Some("IPAddress"), vip)])
                  || (owned == {} && g.status.addresses == [] && Exhausted(prefixes, api.Keys)))
  {
    var g := gateways[id];
    if Managed(g) {
      AcceptedMeansValid(env, g);
      LiveGoalMeaning(api, g, Evaluate(env, g), prefixes);
    }
  }

  /** The evaluation a status at the goal was written from. */
  lemma PublishedEvaluation(api: map<string, IPAddress>, g: Gateway, e: Evaluation, prefixes: seq<Prefix>)
    returns (p: Evaluation, reason: string, message: string)
    requires AllMasked(prefixes) && GoalLive(api, g, e, prefixes) && "" !in api && e.selectedVIP == ""
    ensures StatusEqual(g.status, StatusFor(g, p)) && p.accepted == e.accepted && p.acceptedReason == e.acceptedReason
    ensures !e.valid ==> p == e
    ensures e.valid ==>
              && reason == (if g.status.addresses == [] then "AddressNotAssigned" else "Pending") && p.programmedReason == reason
              && p.listeners == SetListenerProgrammed(e.listeners, reason, message, g.generation)
  {
    p, reason, message := e, "", "";
    var owned := OwnedNames(api, g.Id());
    if e.valid {
      if vip :| Publishes(g, owned, e, vip) {
        assert vip in owned;
        p, reason, message := WithVIP(e, vip, g.generation), "Pending", "VIP reserved";
      } else {
        reason, message := "AddressNotAssigned", NoVIPMessage(prefixes);
        p := WithoutVIP(e, message, g.generation);
      }
    }
  }

  lemma ConditionSays(conditions: seq<Condition>, c: Condition, status: bool)
    requires DistinctKinds(conditions) && c in conditions && c.status == if status then "True" else "False"
    ensures OnlySays(conditions, c.kind, status, c.reason, c.generation)
  {
    var i :| 0 <= i < |conditions| && conditions[i] == c;
    forall j | 0 <= j < |conditions| && j != i
      ensures conditions[j].kind != c.kind
    {
      assert j < i ==> conditions[j].kind != conditions[i].kind;
    }
  }

  lemma StatusSays(g: Gateway, p: Evaluation)
    requires DistinctKinds(g.status.conditions) && StatusEqual(g.status, StatusFor(g, p))
    ensures p.accepted == "True" ==> OnlySays(g.status.conditions, "Accepted", true, p.acceptedReason, g.generation)
    ensures p.accepted == "False" ==> OnlySays(g.status.conditions, "Accepted", false, p.acceptedReason, g.generation)
    ensures OnlySays(g.status.conditions, "Programmed", false, p.programmedReason, g.generation)
  {
    var desired := GatewayConditions(p, g.generation);
    assert ACCEPTED[0] != PROGRAMMED[0];
    MergeMeaning(g.status.conditions, desired);
    assert desired[0] in desired && desired[1] in desired;
    if p.accepted == "True" {
      ConditionSays(g.status.conditions, desired[0], true);
    } else if p.accepted == "False" {
      ConditionSays(g.status.conditions, desired[0], false);
    }
    ConditionSays(g.status.conditions, desired[1], false);
  }

  /** At the goal the stored status of a Gateway says whether it is accepted, why, and why it is not programmed. */
  lemma GoalSays(api: map<string, IPAddress>, gateways: Gateways, env: Environment, prefixes: seq<Prefix>, id: NamespacedName)
    requires AllMasked(prefixes) && GatewaysValid(gateways) && Goal(api, gateways, env, prefixes, id) && "" !in api
    requires id in gateways && Managed(gateways[id]) && Indexed(env, gateways[id])
    ensures var g := gateways[id];
            var valid := GatewayFits(env.gatewayClass, g) && SomeGoodRoute(env, g);
            && OnlySays(g.status.conditions, "Accepted", valid, GatewayReason(env, g), g.generation)
            && OnlySays(g.status.conditions, "Programmed", false,
                 if !valid then "Invalid" else if g.status.addresses == [] then "AddressNotAssigned" else "Pending", g.generation)
  {
    var g := gateways[id];
    AcceptedMeansValid(env, g);
    EvaluationSays(env, g);
    var p, reason, message := PublishedEvaluation(api, g, Evaluate(env, g), prefixes);
    StatusSays(g, p);
  }

  lemma GoalReportsOne(env: Environment, g: Gateway, p: Evaluation, reason: string, message: string, i: nat)
    requires Indexed(env, g) && ClassIsOurs(env.gatewayClass) && i < |g.spec.listeners|
    requires ListenersEqual(g.status.listeners, p.listeners)
    requires reason == if g.status.addresses == [] then "AddressNotAssigned" else "Pending"
    requires var e := Evaluate(env, g);
             && (e.valid <==> GatewayFits(env.gatewayClass, g) && SomeGoodRoute(env, g))
             && p.listeners == if e.valid then SetListenerProgrammed(e.listeners, reason, message, g.generation) else e.listeners
    ensures |g.status.listeners| == |g.spec.listeners| && ListenerVerdict(env, g, i, g.status.listeners[i], reason)
  {
    var e := Evaluate(env, g);
    EvaluationReports(env, g, i);
    if e.valid {
      ProgrammedVerdict(env, g, e.listeners, reason, message, i);
    } else if GatewayFits(env.gatewayClass, g) {
      assert !HasGoodRoute(env, g, g.spec.listeners[i]);
    }
    EqualVerdict(env, g, i, g.status.listeners[i], p.listeners[i], reason);
  }

  /** And there is one listener status per listener, which says how many routes attach and whether one of them is good for it. */
  lemma GoalReports(api: map<string, IPAddress>, gateways: Gateways, env: Environment, prefixes: seq<Prefix>, id: NamespacedName, i: nat)
    requires AllMasked(prefixes) && GatewaysValid(gateways) && Goal(api, gateways, env, prefixes, id) && "" !in api
    requires id in gateways && Managed(gateways[id]) && Indexed(env, gateways[id])
    ensures var g := gateways[id];
            && (!ClassIsOurs(env.gatewayClass) ==> g.status.listeners == [])
            && (ClassIsOurs(env.gatewayClass) ==> |g.status.listeners| == |g.spec.listeners|)
            && (ClassIsOurs(env.gatewayClass) && i < |g.spec.listeners| ==>
                  ListenerVerdict(env, g, i, g.status.listeners[i],
                    if g.status.addresses == [] then "AddressNotAssigned" else "Pending"))
  {
    var g, e := gateways[id], Evaluate(env, gateways[id]);
    AcceptedMeansValid(env, g);
    ValidMeaning(env, g);
    var p, reason, message := PublishedEvaluation(api, g, e, prefixes);
    assert ListenersEqual(g.status.listeners, p.listeners);
    if !ClassIsOurs(env.gatewayClass) || g.spec.listeners == [] {
      NothingReported(env, g);
    } else {
      var why := if g.status.addresses == [] then "AddressNotAssigned" else "Pending";
      assert e.valid ==> reason == why;
      GoalReportsOne(env, g, p, why, message, if i < |g.spec.listeners| then i else 0);
    }
  }

  /** A Gateway of another class that was never managed keeps whatever addresses others published. */
  lemma ForeignStatusStays(env: Environment, prefixes: seq<Prefix>)
    requires AllMasked(prefixes)
    ensures var g := Gateway("ns", "gw", 1, false, [], GatewaySpec("other", [], []),
                       GatewayStatus([StatusAddress(Some("IPAddress"), "192.0.2.1")], [], []));
            Goal(map[], map[g.Id() := g], env, prefixes, g.Id()) && g.status.addresses != []
  {
  }
}
