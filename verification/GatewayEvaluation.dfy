/** Evaluating a Gateway listener by listener (internal/controller/gateway_reconcile.go). */
module GatewayEvaluation {
  import opened Wrappers
  import opened Sorting
  import opened Objects
  import opened ApiMeaning
  import opened Listeners
  import opened Routes
  import opened Folds

  /** What an evaluation reads besides the Gateway: the class, the indexed routes and the selectors. */
  datatype Environment = Environment(
    lib: Library, gatewayClass: Option<GatewayClass>, routes: seq<Route>, selectors: map<NamespacedName, Selector>)

  datatype Evaluation = Evaluation(
    accepted: string, acceptedReason: string, acceptedMessage: string,
    programmedReason: string, programmedMessage: string,
    listeners: seq<ListenerStatus>, valid: bool, selectedVIP: string)

  function Judge(env: Environment, gateway: Gateway, route: Route): RouteEvaluation {
    EvaluateRoute(env.lib, env.selectors, route, MatchingParentRef(route, gateway), gateway, env.gatewayClass, env.routes)
  }

  /** A listener is usable when exactly one route attaches and that route is accepted and resolved. */
  predicate Usable(env: Environment, gateway: Gateway, listener: Listener) {
    var attached := AttachedRoutes(gateway, listener, env.routes);
    |attached| == 1 && Judge(env, gateway, attached[0]).Good()
  }

  function RouteMessage(route: Route, e: RouteEvaluation): string {
    "route is not supported: " + KeyOf(route.Id()) + ": " + e.acceptedMessage + "; " + e.resolvedMessage
  }

  /** Why a listener is not usable; empty if it is. */
  function ErrorOf(env: Environment, gateway: Gateway, listener: Listener): string {
    var attached := AttachedRoutes(gateway, listener, env.routes);
    if Usable(env, gateway, listener) then ""
    else if |attached| == 0 then "listener requires exactly one route: " + listener.name
    else if |attached| > 1 then "listener has several routes: " + listener.name
    else
      RouteMessage(attached[0], Judge(env, gateway, attached[0]))
  }

  function StatusOf(env: Environment, gateway: Gateway, listener: Listener): ListenerStatus {
    if Usable(env, gateway, listener) then PendingStatus(listener, 1, gateway.generation)
    else RejectedStatus(listener, |AttachedRoutes(gateway, listener, env.routes)|, "UnsupportedValue",
           ErrorOf(env, gateway, listener), gateway.generation)
  }

  function UsableIn(env: Environment, gateway: Gateway): Listener -> bool {
    l => Usable(env, gateway, l)
  }

  function ErrorIn(env: Environment, gateway: Gateway): Listener -> string {
    l => ErrorOf(env, gateway, l)
  }

  function StatusIn(env: Environment, gateway: Gateway): Listener -> ListenerStatus {
    l => StatusOf(env, gateway, l)
  }

  function MessageStatuses(listeners: seq<Listener>, message: string, generation: int): seq<ListenerStatus> {
    if listeners == [] then []
    else
      var n := |listeners| - 1;
      MessageStatuses(listeners[..n], message, generation)
        + [RejectedStatus(listeners[n], 0, "UnsupportedValue", message, generation)]
  }

  function Invalid(reason: string, message: string, listeners: seq<ListenerStatus>): Evaluation {
    Evaluation("False", reason, message, "Invalid", message, listeners, false, "")
  }

  const ADDRESSES_UNSUPPORTED := "spec.addresses is not supported"

  /** `evaluateGateway`. */
  function Evaluate(env: Environment, gateway: Gateway): Evaluation {
    if env.gatewayClass.None? then Invalid("InvalidParameters", "GatewayClass was not found", [])
    else if env.gatewayClass.value.controllerName != CONTROLLER_NAME
    then Invalid("InvalidParameters", "GatewayClass has another controller: " + env.gatewayClass.value.controllerName, [])
    else
      var v := ValidateListeners(gateway.spec.listeners, gateway.generation);
      if !v.valid then Invalid("ListenersNotValid", v.message, v.statuses)
      else if |gateway.spec.addresses| > 0
      then Invalid("UnsupportedAddress", ADDRESSES_UNSUPPORTED,
             MessageStatuses(gateway.spec.listeners, ADDRESSES_UNSUPPORTED, gateway.generation))
      else
        var usable := CountIf(UsableIn(env, gateway), v.listeners);
        var statuses := Map(StatusIn(env, gateway), v.listeners);
        if usable == 0 then Invalid("Invalid", FirstText(ErrorIn(env, gateway), v.listeners), statuses)
        else Evaluation("True", "Accepted",
               if usable == |v.listeners| then "accepted" else "accepted; some listeners are not supported",
               "Pending", "waiting for VIP", statuses, true, "")
  }

  lemma NotOneRoute(env: Environment, gateway: Gateway, listener: Listener, message: string)
    requires var n := |AttachedRoutes(gateway, listener, env.routes)|;
             || (n == 0 && message == "listener requires exactly one route: " + listener.name)
             || (n > 1 && message == "listener has several routes: " + listener.name)
    ensures !UsableIn(env, gateway)(listener) && ErrorIn(env, gateway)(listener) == message
    ensures StatusIn(env, gateway)(listener) == RejectedStatus(
              listener, |AttachedRoutes(gateway, listener, env.routes)|, "UnsupportedValue", message, gateway.generation)
  {
  }

  lemma OneRoute(env: Environment, gateway: Gateway, listener: Listener, route: Route)
    requires AttachedRoutes(gateway, listener, env.routes) == [route]
    ensures UsableIn(env, gateway)(listener) == Judge(env, gateway, route).Good()
    ensures ErrorIn(env, gateway)(listener) ==
            if Judge(env, gateway, route).Good() then "" else RouteMessage(route, Judge(env, gateway, route))
    ensures StatusIn(env, gateway)(listener) ==
            if Judge(env, gateway, route).Good() then PendingStatus(listener, 1, gateway.generation)
            else RejectedStatus(listener, 1, "UnsupportedValue", RouteMessage(route, Judge(env, gateway, route)), gateway.generation)
  {
  }

  /** One turn of the loop: a single attached route is the same whatever order it was found in. */
  method JudgeListener(env: Environment, gateway: Gateway, listener: Listener)
    returns (ok: bool, status: ListenerStatus, message: string)
    ensures ok == UsableIn(env, gateway)(listener)
    ensures status == StatusIn(env, gateway)(listener)
    ensures message == ErrorIn(env, gateway)(listener)
  {
    var attached := AttachedRoutesForListener(gateway, listener, env.routes);
    MultisetMembers(attached, AttachedRoutes(gateway, listener, env.routes));
    if |attached| == 0 {
      message := "listener requires exactly one route: " + listener.name;
      NotOneRoute(env, gateway, listener, message);
      return false, RejectedStatus(listener, 0, "UnsupportedValue", message, gateway.generation), message;
    }
    if |attached| > 1 {
      message := "listener has several routes: " + listener.name;
      NotOneRoute(env, gateway, listener, message);
      return false, RejectedStatus(listener, |attached|, "UnsupportedValue", message, gateway.generation), message;
    }
    var route := attached[0];
    assert route in attached;
    OneRoute(env, gateway, listener, route);
    var e := Judge(env, gateway, route);
    if !e.Good() {
      message := RouteMessage(route, e);
      return false, RejectedStatus(listener, 1, "UnsupportedValue", message, gateway.generation), message;
    }
    return true, PendingStatus(listener, 1, gateway.generation), "";
  }

  /** The loop over the listeners of a valid Gateway. */
  method EvaluateListeners(env: Environment, gateway: Gateway, listeners: seq<Listener>)
    returns (statuses: seq<ListenerStatus>, firstError: string, usable: nat)
    ensures statuses == Map(StatusIn(env, gateway), listeners)
    ensures firstError == FirstText(ErrorIn(env, gateway), listeners)
    ensures usable == CountIf(UsableIn(env, gateway), listeners)
  {
    var status, error, isUsable := StatusIn(env, gateway), ErrorIn(env, gateway), UsableIn(env, gateway);
    statuses, firstError, usable := [], "", 0;
    for i := 0 to |listeners|
      invariant statuses == Map(status, listeners[..i])
      invariant firstError == FirstText(error, listeners[..i])
      invariant usable == CountIf(isUsable, listeners[..i])
    {
      assert listeners[..i + 1][..i] == listeners[..i];
      var ok, s, message := JudgeListener(env, gateway, listeners[i]);
      statuses := statuses + [s];
      if firstError == "" {
        firstError := message;
      }
      if ok {
        usable := usable + 1;
      }
    }
    assert listeners[..|listeners|] == listeners;
  }

  method ListenerStatusesForGatewayMessage(listeners: seq<Listener>, message: string, generation: int)
    returns (out: seq<ListenerStatus>)
    ensures out == MessageStatuses(listeners, message, generation)
  {
    out := [];
    for i := 0 to |listeners|
      invariant out == MessageStatuses(listeners[..i], message, generation)
    {
      assert listeners[..i + 1][..i] == listeners[..i];
      out := out + [RejectedStatus(listeners[i], 0, "UnsupportedValue", message, generation)];
    }
    assert listeners[..|listeners|] == listeners;
  }

  method EvaluateGateway(env: Environment, gateway: Gateway) returns (evaluation: Evaluation)
    ensures evaluation == Evaluate(env, gateway)
  {
    if env.gatewayClass.None? {
      return Invalid("InvalidParameters", "GatewayClass was not found", []);
    }
    if env.gatewayClass.value.controllerName != CONTROLLER_NAME {
      return Invalid("InvalidParameters", "GatewayClass has another controller: " + env.gatewayClass.value.controllerName, []);
    }
    var validation := ValidateGatewayListeners(gateway.spec.listeners, gateway.generation);
    if !validation.valid {
      return Invalid("ListenersNotValid", validation.message, validation.statuses);
    }
    if |gateway.spec.addresses| > 0 {
      var rejected := ListenerStatusesForGatewayMessage(gateway.spec.listeners, ADDRESSES_UNSUPPORTED, gateway.generation);
      return Invalid("UnsupportedAddress", ADDRESSES_UNSUPPORTED, rejected);
    }
    var statuses, firstError, usable := EvaluateListeners(env, gateway, validation.listeners);
    if usable == 0 {
      return Invalid("Invalid", firstError, statuses);
    }
    var message := if usable == |validation.listeners| then "accepted" else "accepted; some listeners are not supported";
    return Evaluation("True", "Accepted", message, "Pending", "waiting for VIP", statuses, true, "");
  }

  // ---- Usable listeners and good routes correspond one to one -----------------------

  /** The routes an index lookup returns: no duplicates, each naming the Gateway. */
  ghost predicate Indexed(env: Environment, gateway: Gateway) {
    && Distinct(env.routes)
    && forall r :: r in env.routes ==> KeyOf(gateway.Id()) in GatewayKeys(r)
  }

  lemma SoleParentMatches(gateway: Gateway, route: Route)
    requires |route.parentRefs| == 1 && KeyOf(gateway.Id()) in GatewayKeys(route)
    ensures MatchingParentRef(route, gateway) == route.parentRefs[0] && RefersTo(route, route.parentRefs[0], gateway.Id())
  {
    IndexedUnderGateway(route, gateway.Id());
  }

  /** What it takes for a route to be accepted and resolved. */
  lemma GoodMeans(env: Environment, gateway: Gateway, route: Route)
    requires Judge(env, gateway, route).Good()
    ensures ClassAccepted(env.gatewayClass) && route.namespace == gateway.namespace && |route.parentRefs| == 1
    ensures EvaluateBackend(env.lib, env.selectors, route).ok
    ensures var r := ResolveListener(gateway, MatchingParentRef(route, gateway));
            r.Resolved? && |AttachedRoutes(gateway, r.listener, env.routes)| == 1
  {
  }

  /** A backend resolves: the one selector reference of the route, in its own namespace, with a port, to a valid selector. */
  predicate BackendResolves(lib: Library, selectors: map<NamespacedName, Selector>, route: Route) {
    && |route.rules| == 1 && |route.rules[0]| == 1
    && var b := route.rules[0][0];
       && b.group == Some(SELECTOR_API_GROUP) && OrDefault(b.kind, SELECTOR_KIND) == SELECTOR_KIND
       && NamespaceOr(b.namespace, route.namespace) == route.namespace && b.port.Some?
       && IsSegment(b.name) && NamespacedName(route.namespace, b.name) in selectors
       && lib.selectorValid(selectors[NamespacedName(route.namespace, b.name)].selector)
  }

  /** Exactly when a route is both accepted and resolved. */
  lemma GoodExactly(env: Environment, gateway: Gateway, route: Route)
    ensures Judge(env, gateway, route).Good() <==>
            && ClassAccepted(env.gatewayClass) && route.namespace == gateway.namespace && |route.parentRefs| == 1
            && BackendResolves(env.lib, env.selectors, route)
            && (exists l :: ResolveListener(gateway, MatchingParentRef(route, gateway)) == Resolved(l)
                  && |AttachedRoutes(gateway, l, env.routes)| == 1)
  {
    assert EvaluateBackend(env.lib, env.selectors, route).ok <==> BackendResolves(env.lib, env.selectors, route);
  }

  /** A good route is the only one attached to the listener it resolves to. */
  lemma GoodRouteOwnsListener(env: Environment, gateway: Gateway, route: Route)
    requires Indexed(env, gateway) && route in env.routes && Judge(env, gateway, route).Good()
    ensures var r := ResolveListener(gateway, MatchingParentRef(route, gateway));
            && r.Resolved? && r.listener in gateway.spec.listeners
            && AttachedRoutes(gateway, r.listener, env.routes) == [route]
            && Usable(env, gateway, r.listener)
  {
    GoodMeans(env, gateway, route);
    SoleParentMatches(gateway, route);
    var p := route.parentRefs[0];
    var l := ResolveListener(gateway, p).listener;
    ResolveMeaning(gateway, p, l);
    assert p in route.parentRefs && AttachesVia(gateway, l, route, p);
    AttachedMembers(gateway, l, env.routes, route);
    var attached := AttachedRoutes(gateway, l, env.routes);
    assert |attached| == 1 && route in attached;
    assert attached == [route];
  }

  lemma SoleParentAttaches(gateway: Gateway, listener: Listener, route: Route)
    requires |route.parentRefs| == 1 && Attaches(gateway, listener, route)
    ensures ParentMatchesListener(route.parentRefs[0], listener)
  {
    var p :| p in route.parentRefs && AttachesVia(gateway, listener, route, p);
    assert p == route.parentRefs[0];
  }

  /** The route of a usable listener is good and resolves to that listener. */
  lemma UsableListenerOwnsRoute(env: Environment, gateway: Gateway, listener: Listener)
    requires Indexed(env, gateway) && listener in gateway.spec.listeners && Usable(env, gateway, listener)
    ensures var route := AttachedRoutes(gateway, listener, env.routes)[0];
            && route in env.routes && Judge(env, gateway, route).Good()
            && ResolveListener(gateway, MatchingParentRef(route, gateway)) == Resolved(listener)
  {
    var route := AttachedRoutes(gateway, listener, env.routes)[0];
    AttachedMembers(gateway, listener, env.routes, route);
    GoodMeans(env, gateway, route);
    SoleParentMatches(gateway, route);
    SoleParentAttaches(gateway, listener, route);
    ResolveMeaning(gateway, route.parentRefs[0], listener);
  }

  lemma UsableMeansListenersOk(env: Environment, gateway: Gateway, listener: Listener)
    requires Indexed(env, gateway) && listener in gateway.spec.listeners && Usable(env, gateway, listener)
    ensures ListenersOk(gateway.spec.listeners)
  {
    UsableListenerOwnsRoute(env, gateway, listener);
    ResolveMeaning(gateway, MatchingParentRef(AttachedRoutes(gateway, listener, env.routes)[0], gateway), listener);
  }

  // ---- Good and usable, in terms of the API fields ------------------------------------

  /** The routes of a list that attach to the listener. */
  ghost function AttachedSet(routes: seq<Route>, gateway: NamespacedName, listener: Listener): set<Route> {
    set r | r in routes && AttachesTo(r, gateway, listener)
  }

  lemma {:induction false} DistinctSize<T>(s: seq<T>, members: set<T>)
    requires Distinct(s) && forall x :: x in members <==> x in s
    ensures |members| == |s|
  {
    if s != [] {
      var n := |s| - 1;
      assert s[n] !in s[..n];
      DistinctSize(s[..n], members - {s[n]});
    } else {
      assert members == {};
    }
  }

  lemma {:induction false} AttachedDistinct(gateway: Gateway, listener: Listener, routes: seq<Route>)
    requires Distinct(routes)
    ensures Distinct(AttachedRoutes(gateway, listener, routes))
  {
    if routes != [] {
      var n := |routes| - 1;
      AttachedDistinct(gateway, listener, routes[..n]);
      AttachedMembers(gateway, listener, routes[..n], routes[n]);
      assert routes[n] !in routes[..n];
    }
  }

  lemma AttachedNumber(gateway: Gateway, listener: Listener, routes: seq<Route>)
    requires Distinct(routes)
    ensures |AttachedRoutes(gateway, listener, routes)| == |AttachedSet(routes, gateway.Id(), listener)|
  {
    var attached := AttachedRoutes(gateway, listener, routes);
    forall r
      ensures r in AttachedSet(routes, gateway.Id(), listener) <==> r in attached
    {
      AttachedMembers(gateway, listener, routes, r);
      AttachesMeaning(gateway, listener, r);
    }
    AttachedDistinct(gateway, listener, routes);
    DistinctSize(attached, AttachedSet(routes, gateway.Id(), listener));
  }

  lemma SoleElement<T>(all: set<T>, x: T)
    requires x in all && |all| == 1
    ensures all == {x}
  {
    assert |all - {x}| == 0;
  }

  /** Of distinct routes, one attaches alone exactly if no other does. */
  lemma AttachedAlone(gateway: Gateway, listener: Listener, routes: seq<Route>, route: Route)
    requires Distinct(routes) && route in routes && AttachesTo(route, gateway.Id(), listener)
    ensures |AttachedRoutes(gateway, listener, routes)| == 1 <==> OnlyRoute(routes, gateway.Id(), listener, route)
    ensures |AttachedRoutes(gateway, listener, routes)| == 1 <==> AttachedRoutes(gateway, listener, routes) == [route]
  {
    var attached, all := AttachedRoutes(gateway, listener, routes), AttachedSet(routes, gateway.Id(), listener);
    AttachedNumber(gateway, listener, routes);
    AttachedMembers(gateway, listener, routes, route);
    AttachesMeaning(gateway, listener, route);
    assert route in all && route in attached;
    if OnlyRoute(routes, gateway.Id(), listener, route) {
      assert all == {route};
    }
    if |attached| == 1 {
      SoleElement(all, route);
      assert attached == [attached[0]] && attached[0] == route;
      assert forall r :: r in routes && AttachesTo(r, gateway.Id(), listener) ==> r in all;
    }
  }

  /** The route chooses the listener: it has one parentRef, and that resolves to the listener. */
  lemma ChoosesMeaning(gateway: Gateway, route: Route, l: Listener)
    requires KeyOf(gateway.Id()) in GatewayKeys(route) && |route.parentRefs| == 1 && route.namespace == gateway.namespace
    ensures ResolveListener(gateway, MatchingParentRef(route, gateway)) == Resolved(l) <==>
            ListenersFit(gateway.spec.listeners) && Chooses(route, gateway, l)
    ensures Chooses(route, gateway, l) ==> AttachesTo(route, gateway.Id(), l)
  {
    SoleParentMatches(gateway, route);
    RefersMeaning(route, route.parentRefs[0], gateway.Id());
    ResolveExactly(gateway, route.parentRefs[0], l);
    if Chooses(route, gateway, l) {
      assert route.parentRefs[0] in route.parentRefs;
    }
  }

  /** What makes a route good for a listener: it alone attaches, by its one parentRef, and its backend is usable. */
  ghost predicate GoodFor(env: Environment, gateway: Gateway, l: Listener, route: Route) {
    && ClassIsOurs(env.gatewayClass) && ListenersFit(gateway.spec.listeners)
    && Chooses(route, gateway, l) && OnlyRoute(env.routes, gateway.Id(), l, route)
    && BackendUsable(env.lib, env.selectors, route)
  }

  /** A route is good exactly if it is good for some listener. */
  lemma GoodMeaning(env: Environment, gateway: Gateway, route: Route)
    requires Indexed(env, gateway) && route in env.routes
    ensures Judge(env, gateway, route).Good() <==> exists l :: GoodFor(env, gateway, l, route)
  {
    GoodExactly(env, gateway, route);
    BackendMeaning(env.lib, env.selectors, route);
    assert EvaluateBackend(env.lib, env.selectors, route).ok <==> BackendResolves(env.lib, env.selectors, route);
    if Judge(env, gateway, route).Good() {
      var l :| ResolveListener(gateway, MatchingParentRef(route, gateway)) == Resolved(l)
        && |AttachedRoutes(gateway, l, env.routes)| == 1;
      ChoosesMeaning(gateway, route, l);
      AttachedAlone(gateway, l, env.routes, route);
      assert GoodFor(env, gateway, l, route);
    }
    if l :| GoodFor(env, gateway, l, route) {
      ChoosesMeaning(gateway, route, l);
      AttachedAlone(gateway, l, env.routes, route);
    }
  }

  /** A listener is usable exactly if some route is good for it. */
  lemma UsableMeaning(env: Environment, gateway: Gateway, l: Listener)
    requires Indexed(env, gateway) && l in gateway.spec.listeners
    ensures Usable(env, gateway, l) <==> exists r :: GoodFor(env, gateway, l, r)
  {
    if Usable(env, gateway, l) {
      UsableListenerOwnsRoute(env, gateway, l);
      var r := AttachedRoutes(gateway, l, env.routes)[0];
      GoodMeans(env, gateway, r);
      ChoosesMeaning(gateway, r, l);
      AttachedAlone(gateway, l, env.routes, r);
      BackendMeaning(env.lib, env.selectors, r);
      assert GoodFor(env, gateway, l, r);
    }
    if r :| GoodFor(env, gateway, l, r) {
      GoodMeaning(env, gateway, r);
      ChoosesMeaning(gateway, r, l);
      AttachedAlone(gateway, l, env.routes, r);
    }
  }

  ghost function UsableListeners(env: Environment, gateway: Gateway): set<Listener> {
    Where(UsableIn(env, gateway), gateway.spec.listeners)
  }

  ghost function GoodRoutes(env: Environment, gateway: Gateway): set<Route> {
    set r | r in env.routes && Judge(env, gateway, r).Good()
  }

  /** Two finite sets with mutually inverse maps between them have the same size. */
  lemma {:induction false} SameSize<A, B>(xs: set<A>, ys: set<B>, f: A -> B, g: B -> A)
    requires forall x :: x in xs ==> f(x) in ys && g(f(x)) == x
    requires forall y :: y in ys ==> g(y) in xs && f(g(y)) == y
    ensures |xs| == |ys|
  {
    if xs == {} {
      assert ys == {};
    } else {
      var x :| x in xs;
      SameSize(xs - {x}, ys - {f(x)}, f, g);
    }
  }

  ghost function ListenerOf(env: Environment, gateway: Gateway): Route -> Listener {
    r => match ResolveListener(gateway, MatchingParentRef(r, gateway))
      case Resolved(l) => l
      case Unresolved(_) => Listener("", 0, "", None)
  }

  ghost function RouteOf(env: Environment, gateway: Gateway): Listener -> Route {
    l => if |AttachedRoutes(gateway, l, env.routes)| > 0 then AttachedRoutes(gateway, l, env.routes)[0]
         else Route("", "", [], [])
  }

  /** Usable listeners and good routes are in bijection, so there are equally many. */
  lemma OneToOneAttachment(env: Environment, gateway: Gateway)
    requires Indexed(env, gateway)
    ensures var listenerOf, routeOf := ListenerOf(env, gateway), RouteOf(env, gateway);
            && (forall r :: r in GoodRoutes(env, gateway) ==>
                  listenerOf(r) in UsableListeners(env, gateway) && routeOf(listenerOf(r)) == r)
            && (forall l :: l in UsableListeners(env, gateway) ==>
                  routeOf(l) in GoodRoutes(env, gateway) && listenerOf(routeOf(l)) == l)
    ensures |UsableListeners(env, gateway)| == |GoodRoutes(env, gateway)|
  {
    var listenerOf, routeOf := ListenerOf(env, gateway), RouteOf(env, gateway);
    forall r | r in GoodRoutes(env, gateway)
      ensures listenerOf(r) in UsableListeners(env, gateway) && routeOf(listenerOf(r)) == r
    {
      GoodRouteOwnsListener(env, gateway, r);
    }
    forall l | l in UsableListeners(env, gateway)
      ensures routeOf(l) in GoodRoutes(env, gateway) && listenerOf(routeOf(l)) == l
    {
      UsableListenerOwnsRoute(env, gateway, l);
    }
    SameSize(UsableListeners(env, gateway), GoodRoutes(env, gateway), routeOf, listenerOf);
  }

  /** The conditions under which `evaluateGateway` gets as far as its listeners. */
  predicate Eligible(env: Environment, gateway: Gateway) {
    && ClassAccepted(env.gatewayClass)
    && ListenersOk(gateway.spec.listeners)
    && gateway.spec.addresses == []
  }

  lemma UsableCount(env: Environment, gateway: Gateway)
    requires ListenersOk(gateway.spec.listeners)
    ensures CountIf(UsableIn(env, gateway), gateway.spec.listeners) == |UsableListeners(env, gateway)|
  {
    NamesTellApart(gateway.spec.listeners);
    CountIfIsSize(UsableIn(env, gateway), gateway.spec.listeners);
  }

  lemma ValidMeansSomeUsable(env: Environment, gateway: Gateway)
    ensures Evaluate(env, gateway).valid <==>
            Eligible(env, gateway) && CountIf(UsableIn(env, gateway), gateway.spec.listeners) > 0
  {
    ValidationMeaning(gateway.spec.listeners, gateway.generation);
  }

  /** A Gateway is valid exactly when it is eligible and some route is good; the usable count is the number of good routes. */
  lemma EvaluationMeaning(env: Environment, gateway: Gateway)
    requires Indexed(env, gateway)
    ensures Evaluate(env, gateway).valid <==> Eligible(env, gateway) && GoodRoutes(env, gateway) != {}
    ensures Eligible(env, gateway) ==>
            CountIf(UsableIn(env, gateway), gateway.spec.listeners) == |GoodRoutes(env, gateway)|
  {
    ValidMeansSomeUsable(env, gateway);
    if Eligible(env, gateway) {
      UsableCount(env, gateway);
      OneToOneAttachment(env, gateway);
    }
  }

  // ---- What an evaluation does not depend on ------------------------------------------

  /** The same Gateway, apart from what the controller itself writes. */
  ghost predicate SameSpec(g: Gateway, h: Gateway) {
    g.(status := h.status, finalizers := h.finalizers) == h
  }

  /** The same inputs, with the routes in any order and any selector status. */
  ghost predicate SameInputs(a: Environment, b: Environment) {
    && a.(routes := b.routes, selectors := b.selectors) == b
    && multiset(a.routes) == multiset(b.routes) && SameSelectors(a.selectors, b.selectors)
  }

  lemma {:induction false} AttachedSame(g: Gateway, h: Gateway, listener: Listener, routes: seq<Route>)
    requires SameSpec(g, h)
    ensures AttachedRoutes(g, listener, routes) == AttachedRoutes(h, listener, routes)
  {
    if routes != [] {
      var n := |routes| - 1;
      AttachedSame(g, h, listener, routes[..n]);
      assert forall p :: AttachesVia(g, listener, routes[n], p) <==> AttachesVia(h, listener, routes[n], p);
      assert Attaches(g, listener, routes[n]) <==> Attaches(h, listener, routes[n]);
    }
  }

  lemma {:induction false} ReferringSame(route: Route, g: Gateway, h: Gateway, parents: seq<ParentRef>)
    requires SameSpec(g, h)
    ensures FirstReferring(route, g, parents) == FirstReferring(route, h, parents)
  {
    if parents != [] {
      ReferringSame(route, g, h, parents[1..]);
    }
  }

  /** A route is judged the same through either copy of the Gateway. */
  lemma RouteJudgedSame(a: Environment, b: Environment, g: Gateway, h: Gateway, route: Route, parent: ParentRef)
    requires SameInputs(a, b) && SameSpec(g, h)
    ensures EvaluateRoute(a.lib, a.selectors, route, parent, g, a.gatewayClass, a.routes)
            == EvaluateRoute(b.lib, b.selectors, route, parent, h, b.gatewayClass, b.routes)
  {
    EvaluationOrderFree(a.lib, a.selectors, route, parent, g, a.gatewayClass, a.routes, b.routes);
    var r := ResolveListener(g, parent);
    assert r == ResolveListener(h, parent);
    if r.Resolved? {
      AttachedSame(g, h, r.listener, b.routes);
    }
    assert EvaluateAttachment(route, parent, g, b.routes) == EvaluateAttachment(route, parent, h, b.routes);
    SameBackend(a.lib, a.selectors, b.selectors, route);
  }

  lemma JudgeSame(a: Environment, b: Environment, g: Gateway, h: Gateway, route: Route)
    requires SameInputs(a, b) && SameSpec(g, h)
    ensures Judge(a, g, route) == Judge(b, h, route)
  {
    ReferringSame(route, g, h, route.parentRefs);
    RouteJudgedSame(a, b, g, h, route, MatchingParentRef(route, g));
  }

  lemma AttachedAgree(a: seq<Route>, b: seq<Route>, g: Gateway, h: Gateway, listener: Listener)
    requires multiset(a) == multiset(b) && SameSpec(g, h)
    ensures var x, y := AttachedRoutes(g, listener, a), AttachedRoutes(h, listener, b);
            |x| == |y| && (|x| == 1 ==> x == y)
  {
    AttachedSame(g, h, listener, b);
    AttachedCountOrderFree(g, listener, a, b);
    var x, y := AttachedRoutes(g, listener, a), AttachedRoutes(h, listener, b);
    MultisetMembers(x, y);
    if |x| == 1 {
      assert x[0] in x;
    }
  }

  lemma ListenerSame(a: Environment, b: Environment, g: Gateway, h: Gateway, listener: Listener)
    requires SameInputs(a, b) && SameSpec(g, h)
    ensures UsableIn(a, g)(listener) == UsableIn(b, h)(listener)
    ensures ErrorIn(a, g)(listener) == ErrorIn(b, h)(listener)
    ensures StatusIn(a, g)(listener) == StatusIn(b, h)(listener)
  {
    AttachedAgree(a.routes, b.routes, g, h, listener);
    var attached := AttachedRoutes(g, listener, a.routes);
    if |attached| == 1 {
      OneRoute(a, g, listener, attached[0]);
      OneRoute(b, h, listener, attached[0]);
      JudgeSame(a, b, g, h, attached[0]);
    } else {
      var message :=
        if |attached| == 0 then "listener requires exactly one route: " + listener.name
        else "listener has several routes: " + listener.name;
      NotOneRoute(a, g, listener, message);
      NotOneRoute(b, h, listener, message);
    }
  }

  /** The evaluation depends neither on anything the controllers write nor on the order of the index answer. */
  lemma EvaluationStable(a: Environment, b: Environment, g: Gateway, h: Gateway)
    requires SameInputs(a, b) && SameSpec(g, h)
    ensures Evaluate(a, g) == Evaluate(b, h)
  {
    var listeners := ValidateListeners(g.spec.listeners, g.generation).listeners;
    forall l | l in listeners
      ensures UsableIn(a, g)(l) == UsableIn(b, h)(l) && ErrorIn(a, g)(l) == ErrorIn(b, h)(l) && StatusIn(a, g)(l) == StatusIn(b, h)(l)
    {
      ListenerSame(a, b, g, h, l);
    }
    SameFolds(UsableIn(a, g), UsableIn(b, h), StatusIn(a, g), StatusIn(b, h), ErrorIn(a, g), ErrorIn(b, h), listeners);
  }
}
