/** The selector side: which (Gateway, listener) pairs a selector backs (internal/controller/endpointselector_reconcile.go). */
module Bindings {
  import opened Wrappers
  import opened Text
  import opened Sorting
  import opened Folds
  import opened Objects
  import opened ApiMeaning
  import opened Listeners
  import opened Routes
  import opened GatewayEvaluation

  /**
   The informer stores the selector reconcile reads. `routesByGateway` and `routesBySelector` are the
   index answers, each in whatever order the index returns them.
   */
  datatype Stores = Stores(
    lib: Library,
    gatewayClass: Option<GatewayClass>,
    gateways: map<NamespacedName, Gateway>,
    routes: map<NamespacedName, Route>,
    selectors: map<NamespacedName, Selector>,
    routesByGateway: NamespacedName -> seq<Route>,
    routesBySelector: NamespacedName -> seq<Route>)
  {
    ghost predicate Valid() {
      && (forall id :: id in gateways ==> gateways[id].Id() == id)
      && (forall id :: id in routes ==> routes[id].Id() == id)
      && (forall id :: id in selectors ==> selectors[id].Id() == id && id.namespace != "" && id.name != "")
      && (forall id :: Enumerates(routesByGateway(id), RoutesUnderGateway(id)))
      && (forall id :: Enumerates(routesBySelector(id), RoutesUnderSelector(id)))
    }

    ghost function RoutesUnderGateway(id: NamespacedName): set<Route> {
      set r | r in routes.Values && KeyOf(id) in GatewayKeys(r)
    }

    ghost function RoutesUnderSelector(id: NamespacedName): set<Route> {
      set r | r in routes.Values && KeyOf(id) in SelectorKeys(r)
    }

    function EnvironmentOf(gateway: Gateway): Environment {
      Environment(lib, gatewayClass, routesByGateway(gateway.Id()), selectors)
    }
  }

  /** A bound listener; of the Gateway only its name is used. */
  datatype Binding = Binding(gateway: NamespacedName, listenerName: Segment, backendPort: int) {
    function Key(): string {
      KeyOf(gateway) + ":" + listenerName
    }
  }

  function FindGateway(gateways: map<NamespacedName, Gateway>, namespace: Segment, name: string): Option<Gateway> {
    if IsSegment(name) && NamespacedName(namespace, name) in gateways
    then Some(gateways[NamespacedName(namespace, name)]) else None
  }

  /** The parentRef loop body of `gatewayBindingForRoute`. */
  function BindingVia(s: Stores, route: Route, parent: ParentRef, port: int): Option<Binding> {
    if !IsGatewayParentRef(parent) then None
    else match FindGateway(s.gateways, ParentNamespace(route, parent), parent.name)
      case None => None
      case Some(gateway) =>
        if gateway.spec.className != GATEWAY_CLASS_NAME then None
        else if !EvaluateRoute(s.lib, s.selectors, route, parent, gateway, s.gatewayClass, s.routesByGateway(gateway.Id())).Good()
        then None
        else match ResolveListener(gateway, parent)
          case Unresolved(_) => None
          case Resolved(l) => Some(Binding(gateway.Id(), l.name, port))
  }

  function FirstBinding(s: Stores, route: Route, parents: seq<ParentRef>, port: int): Option<Binding> {
    if parents == [] then None
    else
      var n := |parents| - 1;
      var before := FirstBinding(s, route, parents[..n], port);
      if before.Some? then before else BindingVia(s, route, parents[n], port)
  }

  /** The route's one backend is this selector, with a port. */
  predicate Backs(route: Route, selector: NamespacedName) {
    && |route.rules| == 1 && |route.rules[0]| == 1
    && var b := route.rules[0][0];
       && IsSelectorBackendRef(route.namespace, b)
       && BackendNamespace(route, b) == selector.namespace && b.name == selector.name && b.port.Some?
  }

  function BindingForRoute(s: Stores, selector: NamespacedName, route: Route): Option<Binding> {
    if !Backs(route, selector) then None
    else FirstBinding(s, route, route.parentRefs, route.rules[0][0].port.value)
  }

  lemma {:induction false} FirstBindingStays(s: Stores, route: Route, parents: seq<ParentRef>, n: nat, port: int)
    requires n <= |parents| && FirstBinding(s, route, parents[..n], port).Some?
    ensures FirstBinding(s, route, parents, port) == FirstBinding(s, route, parents[..n], port)
  {
    if n == |parents| {
      assert parents[..n] == parents;
    } else {
      var m := |parents| - 1;
      assert parents[..m][..n] == parents[..n];
      FirstBindingStays(s, route, parents[..m], n, port);
    }
  }

  /** `gatewayBindingForRoute`. */
  method GatewayBindingForRoute(s: Stores, selector: NamespacedName, route: Route) returns (binding: Option<Binding>)
    ensures binding == BindingForRoute(s, selector, route)
  {
    if |route.rules| != 1 || |route.rules[0]| != 1 {
      return None;
    }
    var backend := route.rules[0][0];
    if !IsSelectorBackendRef(route.namespace, backend) {
      return None;
    }
    var namespace := BackendNamespace(route, backend);
    if namespace != selector.namespace || backend.name != selector.name || backend.port.None? {
      return None;
    }
    var parents := route.parentRefs;
    for i := 0 to |parents|
      invariant FirstBinding(s, route, parents[..i], backend.port.value).None?
    {
      assert parents[..i + 1][..i] == parents[..i];
      var b := BindingVia(s, route, parents[i], backend.port.value);
      if b.Some? {
        FirstBindingStays(s, route, parents, i + 1, backend.port.value);
        return b;
      }
    }
    assert parents[..|parents|] == parents;
    return None;
  }

  // ---- The three sides agree ------------------------------------------------------

  lemma IndexedEnvironment(s: Stores, gateway: Gateway)
    requires s.Valid()
    ensures Indexed(s.EnvironmentOf(gateway), gateway)
  {
    assert Enumerates(s.routesByGateway(gateway.Id()), s.RoutesUnderGateway(gateway.Id()));
  }

  /** A route in the store that names the Gateway is in the Gateway's index answer. */
  lemma InIndexAnswer(s: Stores, gateway: Gateway, id: NamespacedName)
    requires s.Valid() && id in s.routes
    ensures s.routes[id] in s.routesByGateway(gateway.Id()) <==> KeyOf(gateway.Id()) in GatewayKeys(s.routes[id])
  {
    assert Enumerates(s.routesByGateway(gateway.Id()), s.RoutesUnderGateway(gateway.Id()));
    assert s.routes[id] in s.routes.Values;
  }

  /** A binding through a parentRef means that parentRef is the only one and names the Gateway. */
  lemma BindingViaMeans(s: Stores, route: Route, parent: ParentRef, port: int)
    requires s.Valid() && parent in route.parentRefs && BindingVia(s, route, parent, port).Some?
    ensures var id := BindingVia(s, route, parent, port).value.gateway;
            && id in s.gateways
            && var g := s.gateways[id];
               && g.spec.className == GATEWAY_CLASS_NAME
               && route.parentRefs == [parent] && RefersTo(route, parent, g.Id())
               && KeyOf(g.Id()) in GatewayKeys(route)
               && MatchingParentRef(route, g) == parent && Judge(s.EnvironmentOf(g), g, route).Good()
  {
    var g := s.gateways[BindingVia(s, route, parent, port).value.gateway];
    assert |route.parentRefs| == 1;
    assert RefersTo(route, parent, g.Id());
    IndexedUnderGateway(route, g.Id());
    SoleParentMatches(g, route);
  }

  lemma {:induction false} FirstBindingComesFrom(s: Stores, route: Route, parents: seq<ParentRef>, port: int)
    requires FirstBinding(s, route, parents, port).Some?
    ensures exists p :: p in parents && BindingVia(s, route, p, port) == FirstBinding(s, route, parents, port)
  {
    var n := |parents| - 1;
    if FirstBinding(s, route, parents[..n], port).Some? {
      FirstBindingComesFrom(s, route, parents[..n], port);
      var p :| p in parents[..n] && BindingVia(s, route, p, port) == FirstBinding(s, route, parents[..n], port);
      assert p in parents;
    } else {
      assert parents[n] in parents;
    }
  }

  /** What a binding says, in the Gateway's own terms. */
  ghost predicate BindsTo(s: Stores, route: Route, gateway: Gateway, listener: Listener) {
    && gateway.spec.className == GATEWAY_CLASS_NAME
    && listener in gateway.spec.listeners
    && Usable(s.EnvironmentOf(gateway), gateway, listener)
    && AttachedRoutes(gateway, listener, s.routesByGateway(gateway.Id())) == [route]
  }

  /** Selector side to Gateway side: a bound listener is usable, and the bound route is the one attached to it. */
  lemma BindingIsUsable(s: Stores, selector: NamespacedName, id: NamespacedName)
    requires s.Valid() && id in s.routes && BindingForRoute(s, selector, s.routes[id]).Some?
    ensures var b, r := BindingForRoute(s, selector, s.routes[id]).value, s.routes[id];
            && b.gateway in s.gateways
            && Backs(r, selector) && b.backendPort == r.rules[0][0].port.value
            && exists l :: BindsTo(s, r, s.gateways[b.gateway], l) && l.name == b.listenerName
  {
    var route := s.routes[id];
    var port := route.rules[0][0].port.value;
    FirstBindingComesFrom(s, route, route.parentRefs, port);
    var p :| p in route.parentRefs && BindingVia(s, route, p, port) == FirstBinding(s, route, route.parentRefs, port);
    BindingViaMeans(s, route, p, port);
    var g := s.gateways[BindingVia(s, route, p, port).value.gateway];
    IndexedEnvironment(s, g);
    InIndexAnswer(s, g, id);
    GoodRouteOwnsListener(s.EnvironmentOf(g), g, route);
    assert BindsTo(s, route, g, ResolveListener(g, p).listener);
  }

  /** A resolved backend is a selector that exists, in the route's namespace, with a port. */
  lemma ResolvedBackend(s: Stores, route: Route)
    requires s.Valid() && EvaluateBackend(s.lib, s.selectors, route).ok
    ensures var b := route.rules[0][0];
            && IsSegment(b.name) && b.port.Some? && BackendNamespace(route, b) == route.namespace
            && NamespacedName(route.namespace, b.name) in s.selectors
            && s.lib.selectorValid(s.selectors[NamespacedName(route.namespace, b.name)].selector)
            && Backs(route, NamespacedName(route.namespace, b.name))
  {
  }

  /** Gateway side to selector side: the route of a usable listener binds its backend selector to that listener. */
  lemma UsableIsBinding(s: Stores, gatewayId: NamespacedName, listener: Listener, route: Route)
    requires s.Valid() && gatewayId in s.gateways && BindsTo(s, route, s.gateways[gatewayId], listener)
    ensures EvaluateBackend(s.lib, s.selectors, route).ok
    ensures var b := route.rules[0][0];
            && IsSegment(b.name) && b.port.Some?
            && BindingForRoute(s, NamespacedName(route.namespace, b.name), route)
               == Some(Binding(gatewayId, listener.name, b.port.value))
  {
    var g := s.gateways[gatewayId];
    var env := s.EnvironmentOf(g);
    IndexedEnvironment(s, g);
    UsableListenerOwnsRoute(env, g, listener);
    GoodMeans(env, g, route);
    ResolvedBackend(s, route);
    SoleParentMatches(g, route);
    var p := route.parentRefs[0];
    var port := route.rules[0][0].port.value;
    assert BindingVia(s, route, p, port) == Some(Binding(gatewayId, listener.name, port));
    assert route.parentRefs[..0] == [];
    assert FirstBinding(s, route, route.parentRefs[..0], port) == None;
    assert FirstBinding(s, route, route.parentRefs, port) == BindingVia(s, route, p, port);
  }

  lemma BindingKeyInjective(b: Binding, b': Binding)
    requires b.Key() == b'.Key()
    ensures b.gateway == b'.gateway && b.listenerName == b'.listenerName
  {
    CutUnique(KeyOf(b.gateway), b.listenerName, ':', KeyOf(b'.gateway), b'.listenerName);
    NamespacedKeyInjective(b.gateway.namespace, b.gateway.name, b'.gateway.namespace, b'.gateway.name);
  }

  lemma SameNameSameListener(s: Stores, gateway: Gateway, route: Route, l: Listener, l': Listener)
    requires s.Valid() && BindsTo(s, route, gateway, l)
    requires l' in gateway.spec.listeners && l'.name == l.name
    ensures l == l'
  {
    IndexedEnvironment(s, gateway);
    UsableMeansListenersOk(s.EnvironmentOf(gateway), gateway, l);
    SameNameListener(gateway.spec.listeners, l, l');
  }

  /** Two routes never bind the same Gateway and listener, whatever selectors they name. */
  lemma NoAmbiguousBinding(s: Stores, selector: NamespacedName, id: NamespacedName, selector': NamespacedName, id': NamespacedName)
    requires s.Valid() && id in s.routes && id' in s.routes
    requires BindingForRoute(s, selector, s.routes[id]).Some? && BindingForRoute(s, selector', s.routes[id']).Some?
    requires BindingForRoute(s, selector, s.routes[id]).value.Key() == BindingForRoute(s, selector', s.routes[id']).value.Key()
    ensures id == id' && selector == selector'
  {
    var b, b' := BindingForRoute(s, selector, s.routes[id]).value, BindingForRoute(s, selector', s.routes[id']).value;
    BindingIsUsable(s, selector, id);
    BindingIsUsable(s, selector', id');
    BindingKeyInjective(b, b');
    var g := s.gateways[b.gateway];
    var l :| BindsTo(s, s.routes[id], g, l) && l.name == b.listenerName;
    var l' :| BindsTo(s, s.routes[id'], g, l') && l'.name == b'.listenerName;
    SameNameSameListener(s, g, s.routes[id], l, l');
  }

  /** Every bound Gateway is in the selector's namespace, so bare slice names are enough. */
  lemma BindingInSelectorNamespace(s: Stores, selector: NamespacedName, id: NamespacedName)
    requires s.Valid() && id in s.routes && BindingForRoute(s, selector, s.routes[id]).Some?
    ensures BindingForRoute(s, selector, s.routes[id]).value.gateway.namespace == selector.namespace
    ensures selector in s.selectors && s.lib.selectorValid(s.selectors[selector].selector)
  {
    var route := s.routes[id];
    var b := BindingForRoute(s, selector, route).value;
    BindingIsUsable(s, selector, id);
    var g := s.gateways[b.gateway];
    var l :| BindsTo(s, route, g, l) && l.name == b.listenerName;
    IndexedEnvironment(s, g);
    UsableListenerOwnsRoute(s.EnvironmentOf(g), g, l);
    GoodMeans(s.EnvironmentOf(g), g, route);
    ResolvedBackend(s, route);
  }

  // ---- Bindings in terms of the API fields ----------------------------------------------

  /** The route is the one that the listener serves: no other route of the store attaches to it, and its backend is usable. */
  ghost predicate RouteServes(s: Stores, gateway: Gateway, l: Listener, route: Route) {
    && gateway.spec.className == "clusterip-gw" && ClassIsOurs(s.gatewayClass) && ListenersFit(gateway.spec.listeners)
    && route in s.routes.Values && Chooses(route, gateway, l)
    && (forall r :: r in s.routes.Values && AttachesTo(r, gateway.Id(), l) ==> r == route)
    && BackendUsable(s.lib, s.selectors, route)
  }

  lemma AttachingIsAnswered(s: Stores, gateway: Gateway, l: Listener, r: Route)
    requires s.Valid() && r in s.routes.Values && AttachesTo(r, gateway.Id(), l)
    ensures r in s.routesByGateway(gateway.Id())
  {
    IndexedUnderGateway(r, gateway.Id());
    InIndexAnswer(s, gateway, r.Id());
  }

  /** Looking at the index answer is looking at all routes. */
  lemma ServesMeaning(s: Stores, gateway: Gateway, l: Listener, route: Route)
    requires s.Valid() && gateway.spec.className == GATEWAY_CLASS_NAME
    ensures RouteServes(s, gateway, l, route) <==> GoodFor(s.EnvironmentOf(gateway), gateway, l, route)
  {
    assert Enumerates(s.routesByGateway(gateway.Id()), s.RoutesUnderGateway(gateway.Id()));
    if RouteServes(s, gateway, l, route) {
      assert route.parentRefs[0] in route.parentRefs;
      AttachingIsAnswered(s, gateway, l, route);
    }
    if GoodFor(s.EnvironmentOf(gateway), gateway, l, route) {
      forall r | r in s.routes.Values && AttachesTo(r, gateway.Id(), l)
        ensures r == route
      {
        AttachingIsAnswered(s, gateway, l, r);
      }
    }
  }

  lemma BoundIsGood(env: Environment, gateway: Gateway, l: Listener, route: Route, good: Route)
    requires Indexed(env, gateway) && GoodFor(env, gateway, l, good)
    ensures AttachedRoutes(gateway, l, env.routes) == [route] <==> route == good
  {
    IndexedUnderGateway(good, gateway.Id());
    ChoosesMeaning(gateway, good, l);
    AttachedAlone(gateway, l, env.routes, good);
  }

  /** The route bound to a listener is the one it serves. */
  lemma BindsMeaning(s: Stores, gateway: Gateway, l: Listener, route: Route)
    requires s.Valid() && l in gateway.spec.listeners
    ensures BindsTo(s, route, gateway, l) <==> RouteServes(s, gateway, l, route)
  {
    var env := s.EnvironmentOf(gateway);
    IndexedEnvironment(s, gateway);
    if BindsTo(s, route, gateway, l) {
      UsableMeaning(env, gateway, l);
      var r :| GoodFor(env, gateway, l, r);
      BoundIsGood(env, gateway, l, route, r);
      ServesMeaning(s, gateway, l, route);
    }
    if RouteServes(s, gateway, l, route) {
      ServesMeaning(s, gateway, l, route);
      UsableMeaning(env, gateway, l);
      BoundIsGood(env, gateway, l, route, route);
    }
  }

  /** What binds a route of the store to a selector: its one backend names it, and a listener of the Gateway serves the route. */
  ghost predicate Bound(s: Stores, selector: NamespacedName, route: Route, b: Binding) {
    && BackedBy(route, selector, b.backendPort) && b.gateway in s.gateways
    && exists l: Listener :: l.name == b.listenerName && RouteServes(s, s.gateways[b.gateway], l, route)
  }

  lemma BacksMeaning(route: Route, selector: NamespacedName, port: int)
    requires selector.namespace != "" && selector.name != "" && selector.namespace == route.namespace
    ensures BackedBy(route, selector, port) <==> Backs(route, selector) && route.rules[0][0].port.value == port
  {
    if |route.rules| == 1 && |route.rules[0]| == 1 {
      var b := route.rules[0][0];
      BackendRefMeaning(route, b, selector);
      if IsSelectorBackendRef(route.namespace, b) && NamespacedKey(BackendNamespace(route, b), b.name) == KeyOf(selector) {
        NamespacedKeyInjective(BackendNamespace(route, b), b.name, selector.namespace, selector.name);
      }
    }
  }

  /** A binding is found exactly if the listener it names serves the route. */
  lemma BindingExactly(s: Stores, selector: NamespacedName, id: NamespacedName, b: Binding)
    requires s.Valid() && id in s.routes
    ensures BindingForRoute(s, selector, s.routes[id]) == Some(b) <==> Bound(s, selector, s.routes[id], b)
  {
    var route := s.routes[id];
    if BindingForRoute(s, selector, route) == Some(b) {
      BindingIsUsable(s, selector, id);
      var l :| BindsTo(s, route, s.gateways[b.gateway], l) && l.name == b.listenerName;
      BindsMeaning(s, s.gateways[b.gateway], l, route);
      BindingInSelectorNamespace(s, selector, id);
      BacksMeaning(route, selector, b.backendPort);
      assert Bound(s, selector, route, b);
    }
    if Bound(s, selector, route, b) {
      var l: Listener :| l.name == b.listenerName && RouteServes(s, s.gateways[b.gateway], l, route);
      BindsMeaning(s, s.gateways[b.gateway], l, route);
      UsableIsBinding(s, b.gateway, l, route);
      assert selector == NamespacedName(route.namespace, route.rules[0][0].name);
    }
  }

  /** A binding goes to the listener its route asks for, by name and by port. */
  lemma BindingNamesListener(s: Stores, selector: NamespacedName, id: NamespacedName, b: Binding)
    requires s.Valid() && id in s.routes && BindingForRoute(s, selector, s.routes[id]) == Some(b)
    ensures b.gateway in s.gateways && |s.routes[id].parentRefs| == 1
    ensures var parent, listeners := s.routes[id].parentRefs[0], s.gateways[b.gateway].spec.listeners;
            && NamesGateway(s.routes[id].namespace, parent, b.gateway)
            && (parent.sectionName.Some? ==> parent.sectionName.value == b.listenerName)
            && (exists l :: l in listeners && l.name == b.listenerName)
            && (forall l :: l in listeners && l.name == b.listenerName && parent.port.Some? ==> parent.port.value == l.port)
  {
    BindingExactly(s, selector, id, b);
    var g := s.gateways[b.gateway];
    var l: Listener :| l.name == b.listenerName && RouteServes(s, g, l, s.routes[id]);
    ValidationMeaning(g.spec.listeners, g.generation);
    forall l' | l' in g.spec.listeners && l'.name == b.listenerName
      ensures l' == l
    {
      SameNameListener(g.spec.listeners, l, l');
    }
  }

  // ---- The binding list -------------------------------------------------------------

  const BINDING_KEY := (b: Binding) => b.Key()

  ghost predicate BindsSelector(s: Stores, selector: NamespacedName, id: NamespacedName) {
    id in s.routes && BindingForRoute(s, selector, s.routes[id]).Some?
  }

  /** The routes that bind the selector, found by scanning every route in the store. */
  ghost function BindingRoutes(s: Stores, selector: NamespacedName): set<NamespacedName> {
    set id | id in s.routes && BindsSelector(s, selector, id)
  }

  ghost function BoundBy(s: Stores, selector: NamespacedName): NamespacedName -> Binding {
    id => if BindsSelector(s, selector, id) then BindingForRoute(s, selector, s.routes[id]).value
          else Binding(NamespacedName("", ""), "", 0)
  }

  ghost function ReferencedBindings(s: Stores, selector: NamespacedName): set<Binding> {
    Image(BindingRoutes(s, selector), BoundBy(s, selector))
  }

  /** Bindings of a selector are determined by their key. */
  lemma BindingKeyDetermines(s: Stores, selector: NamespacedName, b: Binding, b': Binding)
    requires s.Valid() && b in ReferencedBindings(s, selector) && b' in ReferencedBindings(s, selector)
    requires b.Key() == b'.Key()
    ensures b == b'
  {
    var id :| id in BindingRoutes(s, selector) && b == BoundBy(s, selector)(id);
    var id' :| id' in BindingRoutes(s, selector) && b' == BoundBy(s, selector)(id');
    NoAmbiguousBinding(s, selector, id, selector, id');
  }

  /** There are as many bindings, told apart by their keys, as binding routes: the `seen` filter drops none. */
  lemma SeenDropsNothing(s: Stores, selector: NamespacedName)
    requires s.Valid()
    ensures |ReferencedBindings(s, selector)| == |BindingRoutes(s, selector)|
  {
    var ids, f := BindingRoutes(s, selector), BoundBy(s, selector);
    forall x, y | x in ids && y in ids && f(x) == f(y)
      ensures x == y
    {
      NoAmbiguousBinding(s, selector, x, selector, y);
    }
    ImageSize(ids, f);
  }

  /** The same Gateways, apart from status and finalizers. */
  ghost predicate SameGateways(a: map<NamespacedName, Gateway>, b: map<NamespacedName, Gateway>) {
    a.Keys == b.Keys && forall id :: id in a ==> SameSpec(a[id], b[id])
  }

  /** Two stores with the same objects up to what the controllers write, whose indexes may answer in different orders. */
  ghost predicate SameObjects(s: Stores, t: Stores) {
    && s.Valid() && t.Valid()
    && SameSelectors(s.selectors, t.selectors) && SameGateways(s.gateways, t.gateways)
    && t.lib == s.lib && t.gatewayClass == s.gatewayClass && t.routes == s.routes
  }

  lemma SameIndexAnswers(s: Stores, t: Stores, id: NamespacedName)
    requires SameObjects(s, t)
    ensures multiset(s.routesByGateway(id)) == multiset(t.routesByGateway(id))
  {
    EnumerationBag(s.routesByGateway(id), s.RoutesUnderGateway(id));
    EnumerationBag(t.routesByGateway(id), t.RoutesUnderGateway(id));
    assert s.RoutesUnderGateway(id) == t.RoutesUnderGateway(id);
  }

  lemma SameBindingVia(s: Stores, t: Stores, route: Route, parent: ParentRef, port: int)
    requires SameObjects(s, t)
    ensures BindingVia(s, route, parent, port) == BindingVia(t, route, parent, port)
  {
    var found := FindGateway(s.gateways, ParentNamespace(route, parent), parent.name);
    if found.Some? {
      var g := found.value;
      var h := t.gateways[g.Id()];
      assert SameSpec(g, h);
      SameIndexAnswers(s, t, g.Id());
      RouteJudgedSame(s.EnvironmentOf(g), t.EnvironmentOf(h), g, h, route, parent);
      assert ResolveListener(g, parent) == ResolveListener(h, parent);
    }
  }

  lemma {:induction false} FirstBindingOrderFree(s: Stores, t: Stores, route: Route, parents: seq<ParentRef>, port: int)
    requires SameObjects(s, t)
    ensures FirstBinding(s, route, parents, port) == FirstBinding(t, route, parents, port)
  {
    if parents != [] {
      var n := |parents| - 1;
      FirstBindingOrderFree(s, t, route, parents[..n], port);
      SameBindingVia(s, t, route, parents[n], port);
    }
  }

  /** The bindings, with their backend ports, depend neither on index order nor on anything the controllers write. */
  lemma BindingsOrderFree(s: Stores, t: Stores, selector: NamespacedName)
    requires SameObjects(s, t)
    ensures ReferencedBindings(s, selector) == ReferencedBindings(t, selector)
  {
    forall id | id in s.routes
      ensures BindingForRoute(s, selector, s.routes[id]) == BindingForRoute(t, selector, t.routes[id])
    {
      var route := s.routes[id];
      if Backs(route, selector) {
        FirstBindingOrderFree(s, t, route, route.parentRefs, route.rules[0][0].port.value);
      }
    }
    assert BindingRoutes(s, selector) == BindingRoutes(t, selector);
    assert forall id :: id in BindingRoutes(s, selector) ==> BoundBy(s, selector)(id) == BoundBy(t, selector)(id);
  }

  /** The index answer holds every route that binds the selector. */
  lemma BindingRouteIsIndexed(s: Stores, selector: NamespacedName, id: NamespacedName)
    requires s.Valid() && BindsSelector(s, selector, id)
    ensures s.routes[id] in s.routesBySelector(selector)
  {
    SingleBackendIndexed(s.routes[id], selector);
    assert Enumerates(s.routesBySelector(selector), s.RoutesUnderSelector(selector));
    assert s.routes[id] in s.routes.Values;
  }

  lemma IndexedRouteIsStored(s: Stores, selector: NamespacedName, route: Route)
    requires s.Valid() && route in s.routesBySelector(selector)
    ensures route.Id() in s.routes && s.routes[route.Id()] == route
  {
    assert Enumerates(s.routesBySelector(selector), s.RoutesUnderSelector(selector));
  }

  lemma FoundIsReferenced(s: Stores, selector: NamespacedName, id: NamespacedName)
    requires BindsSelector(s, selector, id)
    ensures BindingForRoute(s, selector, s.routes[id]).value in ReferencedBindings(s, selector)
  {
    assert id in BindingRoutes(s, selector);
    assert BoundBy(s, selector)(id) == BindingForRoute(s, selector, s.routes[id]).value;
  }

  /** What the loop found is every binding, once. */
  lemma AllBindingsFound(s: Stores, selector: NamespacedName, found: seq<Binding>)
    requires s.Valid()
    requires forall b :: b in found ==> b in ReferencedBindings(s, selector)
    requires forall j, k :: 0 <= j < k < |found| ==> found[j] != found[k]
    requires forall r :: r in s.routesBySelector(selector) && BindingForRoute(s, selector, r).Some? ==>
               BindingForRoute(s, selector, r).value in found
    ensures Enumerates(found, ReferencedBindings(s, selector))
  {
    forall b | b in ReferencedBindings(s, selector)
      ensures b in found
    {
      var id :| id in BindingRoutes(s, selector) && b == BoundBy(s, selector)(id);
      BindingRouteIsIndexed(s, selector, id);
    }
  }

  lemma SortedBindings(s: Stores, selector: NamespacedName, found: seq<Binding>, bindings: seq<Binding>)
    requires s.Valid() && Enumerates(found, ReferencedBindings(s, selector))
    requires multiset(bindings) == multiset(found) && SortedBy(BINDING_KEY, bindings)
    ensures bindings == SortedKeys(BINDING_KEY, ReferencedBindings(s, selector))
  {
    forall x, y | x in ReferencedBindings(s, selector) && y in ReferencedBindings(s, selector) && BINDING_KEY(x) == BINDING_KEY(y)
      ensures x == y
    {
      BindingKeyDetermines(s, selector, x, y);
    }
    SortedKeysUnique(BINDING_KEY, ReferencedBindings(s, selector), found, bindings);
  }

  function Binder(s: Stores, selector: NamespacedName): Route -> Option<Binding> {
    r => BindingForRoute(s, selector, r)
  }

  /** What the loop has after the first `i` routes of the index answer. */
  ghost predicate FoundUpTo(
    all: set<Binding>, binder: Route -> Option<Binding>, items: seq<Route>, i: nat, found: seq<Binding>, seen: set<string>)
    requires i <= |items|
  {
    && (forall b :: b in found ==> b in all && b.Key() in seen)
    && (forall k :: k in seen ==> exists b :: b in found && b.Key() == k)
    && (forall j, k :: 0 <= j < k < |found| ==> found[j] != found[k])
    && (forall j :: 0 <= j < i && binder(items[j]).Some? ==> binder(items[j]).value in found)
  }

  /** A key seen before is the key of this very binding. */
  lemma SeenIsFound(
    all: set<Binding>, binder: Route -> Option<Binding>, items: seq<Route>, i: nat, found: seq<Binding>, seen: set<string>,
    binding: Binding)
    requires forall b, b' :: b in all && b' in all && b.Key() == b'.Key() ==> b == b'
    requires i < |items| && FoundUpTo(all, binder, items, i, found, seen)
    requires binder(items[i]) == Some(binding) && binding in all && binding.Key() in seen
    ensures FoundUpTo(all, binder, items, i + 1, found, seen)
  {
    var b :| b in found && b.Key() == binding.Key();
  }

  lemma NewIsFound(
    all: set<Binding>, binder: Route -> Option<Binding>, items: seq<Route>, i: nat, found: seq<Binding>, seen: set<string>,
    binding: Binding)
    requires i < |items| && FoundUpTo(all, binder, items, i, found, seen)
    requires binder(items[i]) == Some(binding) && binding in all && binding.Key() !in seen
    ensures FoundUpTo(all, binder, items, i + 1, found + [binding], seen + {binding.Key()})
  {
    var found', seen' := found + [binding], seen + {binding.Key()};
    forall k | k in seen'
      ensures exists b :: b in found' && b.Key() == k
    {
      var b :| (b in found || b == binding) && b.Key() == k;
      assert b in found';
    }
  }

  lemma KeysDetermineBindings(s: Stores, selector: NamespacedName)
    requires s.Valid()
    ensures var all := ReferencedBindings(s, selector);
            forall b, b' :: b in all && b' in all && b.Key() == b'.Key() ==> b == b'
  {
    forall b, b' | b in ReferencedBindings(s, selector) && b' in ReferencedBindings(s, selector) && b.Key() == b'.Key()
      ensures b == b'
    {
      BindingKeyDetermines(s, selector, b, b');
    }
  }

  /** `listReferencedGatewayBindings`: the same sequence whatever order the index answers in. */
  method ListReferencedGatewayBindings(s: Stores, selector: NamespacedName) returns (bindings: seq<Binding>)
    requires s.Valid()
    ensures bindings == SortedKeys(BINDING_KEY, ReferencedBindings(s, selector))
  {
    var items := s.routesBySelector(selector);
    ghost var all, binder := ReferencedBindings(s, selector), Binder(s, selector);
    KeysDetermineBindings(s, selector);
    var seen: set<string> := {};
    var found: seq<Binding> := [];
    for i := 0 to |items|
      invariant FoundUpTo(all, binder, items, i, found, seen)
    {
      IndexedRouteIsStored(s, selector, items[i]);
      var binding := GatewayBindingForRoute(s, selector, items[i]);
      if binding.None? {
        continue;
      }
      FoundIsReferenced(s, selector, items[i].Id());
      var key := binding.value.Key();
      if key in seen {
        SeenIsFound(all, binder, items, i, found, seen, binding.value);
        continue;
      }
      NewIsFound(all, binder, items, i, found, seen, binding.value);
      seen := seen + {key};
      found := found + [binding.value];
    }
    AllBindingsFound(s, selector, found);
    bindings := SortFunc(BINDING_KEY, found);
    SortedBindings(s, selector, found, bindings);
  }
}
