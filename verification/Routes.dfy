/** Route attachment and evaluation (internal/controller/route_reconcile.go) and the route indexes (indexers.go). */
module Routes {
  import opened Wrappers
  import opened Sorting
  import opened Objects
  import opened ApiMeaning
  import opened Listeners

  // ---- References -------------------------------------------------------------

  predicate IsGatewayParentRef(parent: ParentRef) {
    OrDefault(parent.group, GATEWAY_API_GROUP) == GATEWAY_API_GROUP && OrDefault(parent.kind, "Gateway") == "Gateway"
  }

  function ParentNamespace(route: Route, parent: ParentRef): Segment {
    NamespaceOr(parent.namespace, route.namespace)
  }

  /** The parentRef names this Gateway. */
  predicate RefersTo(route: Route, parent: ParentRef, gateway: NamespacedName) {
    && IsGatewayParentRef(parent)
    && ParentNamespace(route, parent) == gateway.namespace
    && parent.name == gateway.name
  }

  predicate ParentMatchesListener(parent: ParentRef, listener: Listener) {
    && (parent.sectionName.Some? ==> parent.sectionName.value == listener.name)
    && (parent.port.Some? ==> parent.port.value == listener.port)
  }

  predicate AttachesVia(gateway: Gateway, listener: Listener, route: Route, parent: ParentRef) {
    RefersTo(route, parent, gateway.Id()) && ParentMatchesListener(parent, listener)
  }

  predicate Attaches(gateway: Gateway, listener: Listener, route: Route) {
    && route.namespace == gateway.namespace
    && exists p :: p in route.parentRefs && AttachesVia(gateway, listener, route, p)
  }

  /** The routes attached to a listener, in the order given. */
  function AttachedRoutes(gateway: Gateway, listener: Listener, routes: seq<Route>): seq<Route> {
    if routes == [] then []
    else
      var n := |routes| - 1;
      AttachedRoutes(gateway, listener, routes[..n]) + (if Attaches(gateway, listener, routes[n]) then [routes[n]] else [])
  }

  const ROUTE_NAME := (r: Route) => r.name

  // ---- What the helpers mean --------------------------------------------------------------

  lemma RefersMeaning(route: Route, parent: ParentRef, gateway: NamespacedName)
    ensures RefersTo(route, parent, gateway) <==> NamesGateway(route.namespace, parent, gateway)
  {
  }

  lemma MatchMeaning(parent: ParentRef, listener: Listener)
    ensures ParentMatchesListener(parent, listener) <==> Picks(parent, listener)
  {
  }

  lemma AttachesMeaning(gateway: Gateway, listener: Listener, route: Route)
    ensures Attaches(gateway, listener, route) <==> AttachesTo(route, gateway.Id(), listener)
  {
    forall p
      ensures AttachesVia(gateway, listener, route, p) <==>
              NamesGateway(route.namespace, p, gateway.Id()) && Picks(p, listener)
    {
      RefersMeaning(route, p, gateway.Id());
      MatchMeaning(p, listener);
    }
  }

  /** Exactly the listed routes that attach are kept, as often as they are listed. */
  lemma {:induction false} AttachedCount(gateway: Gateway, listener: Listener, routes: seq<Route>, r: Route)
    ensures multiset(AttachedRoutes(gateway, listener, routes))[r] ==
            if AttachesTo(r, gateway.Id(), listener) then multiset(routes)[r] else 0
  {
    if routes != [] {
      var n := |routes| - 1;
      AttachedCount(gateway, listener, routes[..n], r);
      AttachesMeaning(gateway, listener, routes[n]);
      assert routes == routes[..n] + [routes[n]];
    }
  }

  /** The inner loop of `attachedRoutesForListener`: stop at the first parentRef that attaches. */
  method AttachesToListener(gateway: Gateway, listener: Listener, route: Route) returns (attached: bool)
    ensures attached <==> exists p :: p in route.parentRefs && AttachesVia(gateway, listener, route, p)
  {
    for j := 0 to |route.parentRefs|
      invariant forall k :: 0 <= k < j ==> !AttachesVia(gateway, listener, route, route.parentRefs[k])
    {
      var parent := route.parentRefs[j];
      if !IsGatewayParentRef(parent) {
        continue;
      }
      if ParentNamespace(route, parent) != gateway.namespace || parent.name != gateway.name {
        continue;
      }
      if !ParentMatchesListener(parent, listener) {
        continue;
      }
      assert parent in route.parentRefs && AttachesVia(gateway, listener, route, parent);
      return true;
    }
    return false;
  }

  /** `attachedRoutesForListener`; all kept routes share the Gateway's namespace, so the sort is by name. */
  method AttachedRoutesForListener(gateway: Gateway, listener: Listener, routes: seq<Route>) returns (out: seq<Route>)
    ensures multiset(out) == multiset(AttachedRoutes(gateway, listener, routes))
    ensures forall r :: multiset(out)[r] == if AttachesTo(r, gateway.Id(), listener) then multiset(routes)[r] else 0
    ensures SortedBy(ROUTE_NAME, out)
  {
    forall r
      ensures multiset(AttachedRoutes(gateway, listener, routes))[r] ==
              if AttachesTo(r, gateway.Id(), listener) then multiset(routes)[r] else 0
    {
      AttachedCount(gateway, listener, routes, r);
    }
    out := [];
    for i := 0 to |routes|
      invariant out == AttachedRoutes(gateway, listener, routes[..i])
    {
      assert routes[..i + 1][..i] == routes[..i];
      var route := routes[i];
      if route.namespace != gateway.namespace {
        continue;
      }
      var attached := AttachesToListener(gateway, listener, route);
      if attached {
        out := out + [route];
      }
    }
    assert routes[..|routes|] == routes;
    out := SortFunc(ROUTE_NAME, out);
  }

  lemma {:induction false} AttachedMembers(gateway: Gateway, listener: Listener, routes: seq<Route>, route: Route)
    ensures route in AttachedRoutes(gateway, listener, routes) <==> route in routes && Attaches(gateway, listener, route)
  {
    if routes != [] {
      AttachedMembers(gateway, listener, routes[..|routes| - 1], route);
    }
  }

  ghost function AttachedBag(gateway: Gateway, listener: Listener): Route -> multiset<Route> {
    r => if Attaches(gateway, listener, r) then multiset{r} else multiset{}
  }

  lemma {:induction false} AttachedIsBagSum(gateway: Gateway, listener: Listener, routes: seq<Route>)
    ensures multiset(AttachedRoutes(gateway, listener, routes)) == BagSum(AttachedBag(gateway, listener), routes)
  {
    if routes != [] {
      AttachedIsBagSum(gateway, listener, routes[..|routes| - 1]);
    }
  }

  /** Which routes attach does not depend on the order the index returns them in. */
  lemma AttachedCountOrderFree(gateway: Gateway, listener: Listener, a: seq<Route>, b: seq<Route>)
    requires multiset(a) == multiset(b)
    ensures multiset(AttachedRoutes(gateway, listener, a)) == multiset(AttachedRoutes(gateway, listener, b))
    ensures |AttachedRoutes(gateway, listener, a)| == |AttachedRoutes(gateway, listener, b)|
  {
    AttachedIsBagSum(gateway, listener, a);
    AttachedIsBagSum(gateway, listener, b);
    BagSumOrderFree(AttachedBag(gateway, listener), a, b);
    MultisetMembers(AttachedRoutes(gateway, listener, a), AttachedRoutes(gateway, listener, b));
  }

  function FirstReferring(route: Route, gateway: Gateway, parents: seq<ParentRef>): ParentRef {
    if parents == [] then ParentRef(None, None, None, gateway.name, None, None)
    else if RefersTo(route, parents[0], gateway.Id()) then parents[0]
    else FirstReferring(route, gateway, parents[1..])
  }

  /** `matchingParentRef`: the first parentRef naming the Gateway, or a bare one. */
  function MatchingParentRef(route: Route, gateway: Gateway): ParentRef {
    FirstReferring(route, gateway, route.parentRefs)
  }

  // ---- Resolving a listener -----------------------------------------------------

  function MatchingListeners(parent: ParentRef, listeners: seq<Listener>): seq<Listener> {
    if listeners == [] then []
    else
      var n := |listeners| - 1;
      MatchingListeners(parent, listeners[..n]) + (if ParentMatchesListener(parent, listeners[n]) then [listeners[n]] else [])
  }

  datatype Resolution = Resolved(listener: Listener) | Unresolved(message: string)

  function ResolveListener(gateway: Gateway, parent: ParentRef): Resolution {
    if !ListenersOk(gateway.spec.listeners) then Unresolved(ValidateListeners(gateway.spec.listeners, gateway.generation).message)
    else
      var matches := MatchingListeners(parent, gateway.spec.listeners);
      if |matches| == 0 then Unresolved("no listener selected")
      else if |matches| == 1 then Resolved(matches[0])
      else Unresolved("more than one listener selected")
  }

  /** `resolveGatewayListener`. */
  method ResolveGatewayListener(gateway: Gateway, parent: ParentRef) returns (r: Resolution)
    ensures r == ResolveListener(gateway, parent)
  {
    var validation := ValidateGatewayListeners(gateway.spec.listeners, gateway.generation);
    ValidationMeaning(gateway.spec.listeners, gateway.generation);
    if !validation.valid {
      return Unresolved(validation.message);
    }
    var matches := [];
    var listeners := validation.listeners;
    for i := 0 to |listeners|
      invariant matches == MatchingListeners(parent, listeners[..i])
    {
      assert listeners[..i + 1][..i] == listeners[..i];
      if ParentMatchesListener(parent, listeners[i]) {
        matches := matches + [listeners[i]];
      }
    }
    assert listeners[..|listeners|] == listeners;
    if |matches| == 0 {
      return Unresolved("no listener selected");
    }
    if |matches| == 1 {
      return Resolved(matches[0]);
    }
    return Unresolved("more than one listener selected");
  }

  lemma {:induction false} MatchingMembers(parent: ParentRef, listeners: seq<Listener>, l: Listener)
    ensures l in MatchingListeners(parent, listeners) <==> l in listeners && ParentMatchesListener(parent, l)
  {
    if listeners != [] {
      MatchingMembers(parent, listeners[..|listeners| - 1], l);
    }
  }

  /** A resolved listener is the one listener of a valid Gateway that the parentRef matches. */
  lemma ResolveMeaning(gateway: Gateway, parent: ParentRef, l: Listener)
    requires ResolveListener(gateway, parent).Resolved?
    ensures ListenersOk(gateway.spec.listeners)
    ensures ResolveListener(gateway, parent).listener == l <==>
            l in gateway.spec.listeners && ParentMatchesListener(parent, l)
  {
    var matches := MatchingListeners(parent, gateway.spec.listeners);
    MatchingMembers(parent, gateway.spec.listeners, l);
    assert l in matches <==> l == matches[0];
  }

  lemma {:induction false} MatchingDistinct(parent: ParentRef, listeners: seq<Listener>)
    requires Distinct(listeners)
    ensures Distinct(MatchingListeners(parent, listeners))
  {
    if listeners != [] {
      var n := |listeners| - 1;
      MatchingDistinct(parent, listeners[..n]);
      MatchingMembers(parent, listeners[..n], listeners[n]);
      assert listeners[n] !in listeners[..n];
    }
  }

  /** One listener of a list without repetitions matches exactly if the parentRef picks it and no other. */
  lemma SoleMatch(parent: ParentRef, listeners: seq<Listener>, l: Listener)
    requires Distinct(listeners)
    ensures MatchingListeners(parent, listeners) == [l] <==> PicksOnly(parent, listeners, l)
  {
    var matches := MatchingListeners(parent, listeners);
    forall other
      ensures other in matches <==> other in listeners && Picks(parent, other)
    {
      MatchingMembers(parent, listeners, other);
      MatchMeaning(parent, other);
    }
    MatchingDistinct(parent, listeners);
    assert |matches| >= 2 ==> matches[0] != matches[1];
    if PicksOnly(parent, listeners, l) {
      assert l in matches;
      forall i | 0 <= i < |matches|
        ensures matches[i] == l
      {
        assert matches[i] in matches;
        MatchingMembers(parent, listeners, matches[i]);
        MatchMeaning(parent, matches[i]);
      }
    }
    assert matches == [l] ==> l in matches && forall other :: other in matches ==> other == l;
  }

  /** A parentRef resolves to a listener exactly when the listeners are valid and it is the only one selected. */
  lemma ResolveExactly(gateway: Gateway, parent: ParentRef, l: Listener)
    ensures ResolveListener(gateway, parent) == Resolved(l) <==>
            ListenersFit(gateway.spec.listeners) && PicksOnly(parent, gateway.spec.listeners, l)
  {
    ValidationMeaning(gateway.spec.listeners, gateway.generation);
    if ListenersOk(gateway.spec.listeners) {
      NamesTellApart(gateway.spec.listeners);
      SoleMatch(parent, gateway.spec.listeners, l);
      var matches := MatchingListeners(parent, gateway.spec.listeners);
      assert |matches| == 1 ==> (matches == [l] <==> matches[0] == l);
    }
  }

  // ---- Evaluating a route ---------------------------------------------------------

  datatype RouteEvaluation = RouteEvaluation(
    accepted: bool, acceptedReason: string, acceptedMessage: string,
    resolved: bool, resolvedReason: string, resolvedMessage: string)
  {
    predicate Good() {
      accepted && resolved
    }
  }

  predicate IsSegment(s: string) {
    '/' !in s && ':' !in s
  }

  function FindSelector(selectors: map<NamespacedName, Selector>, namespace: Segment, name: string): Option<Selector> {
    if IsSegment(name) && NamespacedName(namespace, name) in selectors
    then Some(selectors[NamespacedName(namespace, name)]) else None
  }

  datatype Outcome = Outcome(ok: bool, reason: string, message: string)

  predicate ClassAccepted(gatewayClass: Option<GatewayClass>) {
    gatewayClass.Some? && gatewayClass.value.controllerName == CONTROLLER_NAME
  }

  function EvaluateAttachment(route: Route, parent: ParentRef, gateway: Gateway, routes: seq<Route>): Outcome {
    if route.namespace != gateway.namespace then Outcome(false, "NotAllowedByListeners", "cross-namespace attachment")
    else if |route.parentRefs| != 1 then Outcome(false, "UnsupportedValue", "exactly one parentRef is supported")
    else match ResolveListener(gateway, parent)
      case Unresolved(m) => Outcome(false, "UnsupportedValue", m)
      case Resolved(l) =>
        if |AttachedRoutes(gateway, l, routes)| != 1
        then Outcome(false, "UnsupportedValue", "listener supports exactly one route: " + l.name)
        else Outcome(true, "Accepted", "accepted")
  }

  function BackendNamespace(route: Route, backend: BackendRef): Segment {
    NamespaceOr(backend.namespace, route.namespace)
  }

  function EvaluateBackend(lib: Library, selectors: map<NamespacedName, Selector>, route: Route): Outcome {
    if |route.rules| != 1 then Outcome(false, "UnsupportedValue", "exactly one rule is supported")
    else if |route.rules[0]| != 1 then Outcome(false, "UnsupportedValue", "exactly one backendRef is supported")
    else
      var backend := route.rules[0][0];
      var group := if backend.group.Some? then backend.group.value else "";
      var namespace := BackendNamespace(route, backend);
      if group != SELECTOR_API_GROUP || OrDefault(backend.kind, SELECTOR_KIND) != SELECTOR_KIND
      then Outcome(false, "InvalidKind", "unsupported backendRef kind")
      else if namespace != route.namespace then Outcome(false, "RefNotPermitted", "cross-namespace backendRef")
      else if backend.port.None? then Outcome(false, "BackendNotFound", "backendRef must set port")
      else match FindSelector(selectors, namespace, backend.name)
        case None => Outcome(false, "BackendNotFound", "not found: " + backend.name)
        case Some(selector) =>
          if lib.selectorValid(selector.selector) then Outcome(true, "ResolvedRefs", "resolved")
          else Outcome(false, "BackendNotFound", "not accepted: " + backend.name)
  }

  /** `evaluateRoute`. */
  function EvaluateRoute(
    lib: Library, selectors: map<NamespacedName, Selector>, route: Route, parent: ParentRef, gateway: Gateway,
    gatewayClass: Option<GatewayClass>, routes: seq<Route>): RouteEvaluation
  {
    if !ClassAccepted(gatewayClass)
    then RouteEvaluation(false, "Pending", "GatewayClass is not accepted", true, "ResolvedRefs", "resolved")
    else
      var a := EvaluateAttachment(route, parent, gateway, routes);
      var b := EvaluateBackend(lib, selectors, route);
      RouteEvaluation(a.ok, a.reason, a.message, b.ok, b.reason, b.message)
  }

  /** A backend resolves exactly if it is usable, and the reason says what is wrong first. */
  lemma BackendMeaning(lib: Library, selectors: map<NamespacedName, Selector>, route: Route)
    ensures EvaluateBackend(lib, selectors, route).ok <==> BackendUsable(lib, selectors, route)
    ensures EvaluateBackend(lib, selectors, route).reason == BackendReason(lib, selectors, route)
  {
    if |route.rules| == 1 && |route.rules[0]| == 1 {
      var b := route.rules[0][0];
      if IsSegment(b.name) && b.port.Some? {
        var id := NamespacedName(route.namespace, b.name);
        assert EvaluateBackend(lib, selectors, route).ok ==> id in selectors && BackedBy(route, id, b.port.value);
      }
    }
  }

  /** The same selectors, apart from their status. */
  ghost predicate SameSelectors(a: map<NamespacedName, Selector>, b: map<NamespacedName, Selector>) {
    a.Keys == b.Keys && forall id :: id in a ==> a[id].(conditions := b[id].conditions) == b[id]
  }

  /** Whether a backend resolves does not depend on selector status. */
  lemma SameBackend(lib: Library, a: map<NamespacedName, Selector>, b: map<NamespacedName, Selector>, route: Route)
    requires SameSelectors(a, b)
    ensures EvaluateBackend(lib, a, route) == EvaluateBackend(lib, b, route)
  {
    if |route.rules| == 1 && |route.rules[0]| == 1 {
      var backend := route.rules[0][0];
      var found := FindSelector(a, BackendNamespace(route, backend), backend.name);
      if found.Some? {
        var id := NamespacedName(BackendNamespace(route, backend), backend.name);
        assert a[id].(conditions := b[id].conditions) == b[id];
      }
    }
  }

  /** A route's evaluation reads the route list only through the attachment count of the resolved listener. */
  lemma EvaluationReadsCount(
    lib: Library, selectors: map<NamespacedName, Selector>, route: Route, parent: ParentRef, gateway: Gateway,
    gatewayClass: Option<GatewayClass>, a: seq<Route>, b: seq<Route>)
    requires ResolveListener(gateway, parent).Resolved? ==>
               var l := ResolveListener(gateway, parent).listener;
               |AttachedRoutes(gateway, l, a)| == |AttachedRoutes(gateway, l, b)|
    ensures EvaluateRoute(lib, selectors, route, parent, gateway, gatewayClass, a)
            == EvaluateRoute(lib, selectors, route, parent, gateway, gatewayClass, b)
  {
    assert EvaluateAttachment(route, parent, gateway, a) == EvaluateAttachment(route, parent, gateway, b);
  }

  lemma EvaluationOrderFree(
    lib: Library, selectors: map<NamespacedName, Selector>, route: Route, parent: ParentRef, gateway: Gateway,
    gatewayClass: Option<GatewayClass>, a: seq<Route>, b: seq<Route>)
    requires multiset(a) == multiset(b)
    ensures EvaluateRoute(lib, selectors, route, parent, gateway, gatewayClass, a)
            == EvaluateRoute(lib, selectors, route, parent, gateway, gatewayClass, b)
  {
    if ResolveListener(gateway, parent).Resolved? {
      AttachedCountOrderFree(gateway, ResolveListener(gateway, parent).listener, a, b);
    }
    EvaluationReadsCount(lib, selectors, route, parent, gateway, gatewayClass, a, b);
  }

  // ---- Indexes --------------------------------------------------------------------

  function GatewayKeysUpTo(route: Route, n: nat): seq<string>
    requires n <= |route.parentRefs|
  {
    if n == 0 then []
    else
      var keys, p := GatewayKeysUpTo(route, n - 1), route.parentRefs[n - 1];
      var key := NamespacedKey(ParentNamespace(route, p), p.name);
      if !IsGatewayParentRef(p) || key in keys then keys else keys + [key]
  }

  /** `routeGatewayParentKeys`. */
  function GatewayKeys(route: Route): seq<string> {
    GatewayKeysUpTo(route, |route.parentRefs|)
  }

  method RouteGatewayParentKeys(route: Route) returns (keys: seq<string>)
    ensures keys == GatewayKeys(route) && Distinct(keys)
  {
    keys := [];
    var seen: set<string> := {};
    for i := 0 to |route.parentRefs|
      invariant keys == GatewayKeysUpTo(route, i) && Distinct(keys)
      invariant forall k :: k in seen <==> k in keys
    {
      var parent := route.parentRefs[i];
      if !IsGatewayParentRef(parent) {
        continue;
      }
      var key := NamespacedKey(ParentNamespace(route, parent), parent.name);
      if key in seen {
        continue;
      }
      seen := seen + {key};
      keys := keys + [key];
    }
  }

  lemma {:induction false} GatewayKeysMeaning(route: Route, n: nat, gateway: NamespacedName)
    requires n <= |route.parentRefs|
    ensures KeyOf(gateway) in GatewayKeysUpTo(route, n) <==>
            exists i :: 0 <= i < n && RefersTo(route, route.parentRefs[i], gateway)
  {
    if n > 0 {
      GatewayKeysMeaning(route, n - 1, gateway);
      var p := route.parentRefs[n - 1];
      if NamespacedKey(ParentNamespace(route, p), p.name) == KeyOf(gateway) {
        NamespacedKeyInjective(ParentNamespace(route, p), p.name, gateway.namespace, gateway.name);
      }
    }
  }

  /** A route is indexed under a Gateway exactly when one of its parentRefs names that Gateway. */
  lemma IndexedUnderGateway(route: Route, gateway: NamespacedName)
    ensures KeyOf(gateway) in GatewayKeys(route) <==> exists p :: p in route.parentRefs && RefersTo(route, p, gateway)
    ensures KeyOf(gateway) in GatewayKeys(route) <==> exists p :: p in route.parentRefs && NamesGateway(route.namespace, p, gateway)
  {
    forall p
      ensures RefersTo(route, p, gateway) <==> NamesGateway(route.namespace, p, gateway)
    {
      RefersMeaning(route, p, gateway);
    }
    GatewayKeysMeaning(route, |route.parentRefs|, gateway);
    if exists p :: p in route.parentRefs && RefersTo(route, p, gateway) {
      var p :| p in route.parentRefs && RefersTo(route, p, gateway);
      var i :| 0 <= i < |route.parentRefs| && route.parentRefs[i] == p;
      assert RefersTo(route, route.parentRefs[i], gateway);
    }
  }

  predicate IsSelectorBackendRef(routeNamespace: Segment, backend: BackendRef) {
    if backend.group.None? || backend.group.value == "" then false
    else if backend.group.value != SELECTOR_API_GROUP || OrDefault(backend.kind, SELECTOR_KIND) != SELECTOR_KIND then false
    else NamespaceOr(backend.namespace, routeNamespace) != "" && backend.name != ""
  }

  function BackendKeysOf(route: Route, backends: seq<BackendRef>, keys: seq<string>): seq<string> {
    if backends == [] then keys
    else
      var n := |backends| - 1;
      var before, b := BackendKeysOf(route, backends[..n], keys), backends[n];
      var key := NamespacedKey(BackendNamespace(route, b), b.name);
      if !IsSelectorBackendRef(route.namespace, b) || key in before then before else before + [key]
  }

  function SelectorKeysOf(route: Route, rules: seq<seq<BackendRef>>): seq<string> {
    if rules == [] then []
    else var n := |rules| - 1; BackendKeysOf(route, rules[n], SelectorKeysOf(route, rules[..n]))
  }

  /** `routeBackendEndpointSelectorKeys`. */
  function SelectorKeys(route: Route): seq<string> {
    SelectorKeysOf(route, route.rules)
  }

  method RouteBackendSelectorKeys(route: Route) returns (keys: seq<string>)
    ensures keys == SelectorKeys(route) && Distinct(keys)
  {
    keys := [];
    var seen: set<string> := {};
    for i := 0 to |route.rules|
      invariant keys == SelectorKeysOf(route, route.rules[..i]) && Distinct(keys)
      invariant forall k :: k in seen <==> k in keys
    {
      assert route.rules[..i + 1][..i] == route.rules[..i];
      var rule := route.rules[i];
      ghost var before := keys;
      for j := 0 to |rule|
        invariant keys == BackendKeysOf(route, rule[..j], before) && Distinct(keys)
        invariant forall k :: k in seen <==> k in keys
      {
        assert rule[..j + 1][..j] == rule[..j];
        var backend := rule[j];
        if !IsSelectorBackendRef(route.namespace, backend) {
          continue;
        }
        var key := NamespacedKey(BackendNamespace(route, backend), backend.name);
        if key in seen {
          continue;
        }
        seen := seen + {key};
        keys := keys + [key];
      }
      assert rule[..|rule|] == rule;
    }
    assert route.rules[..|route.rules|] == route.rules;
  }

  lemma BackendRefMeaning(route: Route, backend: BackendRef, selector: NamespacedName)
    requires selector.namespace != "" && selector.name != ""
    ensures NamesSelector(route.namespace, backend, selector) <==>
            && IsSelectorBackendRef(route.namespace, backend)
            && NamespacedKey(BackendNamespace(route, backend), backend.name) == KeyOf(selector)
  {
    if NamespacedKey(BackendNamespace(route, backend), backend.name) == KeyOf(selector) {
      NamespacedKeyInjective(BackendNamespace(route, backend), backend.name, selector.namespace, selector.name);
    }
  }

  lemma {:induction false} BackendKeysMembers(route: Route, backends: seq<BackendRef>, keys: seq<string>, selector: NamespacedName)
    requires selector.namespace != "" && selector.name != ""
    ensures KeyOf(selector) in BackendKeysOf(route, backends, keys) <==>
            KeyOf(selector) in keys || exists b :: b in backends && NamesSelector(route.namespace, b, selector)
  {
    if backends != [] {
      var n := |backends| - 1;
      BackendKeysMembers(route, backends[..n], keys, selector);
      BackendRefMeaning(route, backends[n], selector);
      assert forall b :: b in backends <==> b in backends[..n] || b == backends[n];
    }
  }

  lemma {:induction false} SelectorKeysMembers(route: Route, rules: seq<seq<BackendRef>>, selector: NamespacedName)
    requires selector.namespace != "" && selector.name != ""
    ensures KeyOf(selector) in SelectorKeysOf(route, rules) <==>
            exists rule, b :: rule in rules && b in rule && NamesSelector(route.namespace, b, selector)
  {
    if rules != [] {
      var n := |rules| - 1;
      SelectorKeysMembers(route, rules[..n], selector);
      BackendKeysMembers(route, rules[n], SelectorKeysOf(route, rules[..n]), selector);
      assert forall rule :: rule in rules <==> rule in rules[..n] || rule == rules[n];
    }
  }

  /** A route is indexed under a selector exactly when some backendRef of some rule names it. */
  lemma IndexedUnderSelector(route: Route, selector: NamespacedName)
    requires selector.namespace != "" && selector.name != ""
    ensures KeyOf(selector) in SelectorKeys(route) <==>
            exists rule, b :: rule in route.rules && b in rule && NamesSelector(route.namespace, b, selector)
  {
    SelectorKeysMembers(route, route.rules, selector);
  }

  /** A route with one rule and one backend is indexed under exactly that backend's selector. */
  lemma SingleBackendIndexed(route: Route, selector: NamespacedName)
    requires |route.rules| == 1 && |route.rules[0]| == 1
    ensures var b := route.rules[0][0];
            KeyOf(selector) in SelectorKeys(route) <==>
            IsSelectorBackendRef(route.namespace, b) && BackendNamespace(route, b) == selector.namespace && b.name == selector.name
  {
    var b := route.rules[0][0];
    assert route.rules[..0] == [] && route.rules[0][..0] == [];
    assert SelectorKeysOf(route, route.rules[..0]) == [];
    assert SelectorKeys(route) == BackendKeysOf(route, route.rules[0], []);
    var key := NamespacedKey(BackendNamespace(route, b), b.name);
    assert SelectorKeys(route) == if IsSelectorBackendRef(route.namespace, b) then [key] else [];
    if key == KeyOf(selector) {
      NamespacedKeyInjective(BackendNamespace(route, b), b.name, selector.namespace, selector.name);
    }
  }

  // ---- Index against full scan ------------------------------------------------------

  function IndexedRoutes(routes: seq<Route>, gateway: NamespacedName): seq<Route> {
    if routes == [] then []
    else
      var n := |routes| - 1;
      IndexedRoutes(routes[..n], gateway) + (if KeyOf(gateway) in GatewayKeys(routes[n]) then [routes[n]] else [])
  }

  lemma AttachingIsIndexed(gateway: Gateway, listener: Listener, route: Route)
    requires Attaches(gateway, listener, route)
    ensures KeyOf(gateway.Id()) in GatewayKeys(route)
  {
    IndexedUnderGateway(route, gateway.Id());
  }

  /** Looking only at the routes indexed under a Gateway finds the same attached routes as scanning all of them. */
  lemma {:induction false} IndexAgreesWithScan(gateway: Gateway, listener: Listener, routes: seq<Route>)
    ensures AttachedRoutes(gateway, listener, IndexedRoutes(routes, gateway.Id())) == AttachedRoutes(gateway, listener, routes)
  {
    if routes != [] {
      var n := |routes| - 1;
      var before := IndexedRoutes(routes[..n], gateway.Id());
      IndexAgreesWithScan(gateway, listener, routes[..n]);
      if KeyOf(gateway.Id()) in GatewayKeys(routes[n]) {
        assert (before + [routes[n]])[..|before|] == before;
      } else {
        assert before + [] == before;
        if Attaches(gateway, listener, routes[n]) {
          AttachingIsIndexed(gateway, listener, routes[n]);
        }
      }
    }
  }

  /** So a route is judged the same from the index as from a full scan, in whatever order the index answers. */
  lemma EvaluationAgreesWithScan(
    lib: Library, selectors: map<NamespacedName, Selector>, route: Route, parent: ParentRef, gateway: Gateway,
    gatewayClass: Option<GatewayClass>, all: seq<Route>, indexed: seq<Route>)
    requires multiset(indexed) == multiset(IndexedRoutes(all, gateway.Id()))
    ensures EvaluateRoute(lib, selectors, route, parent, gateway, gatewayClass, indexed)
            == EvaluateRoute(lib, selectors, route, parent, gateway, gatewayClass, all)
  {
    if ResolveListener(gateway, parent).Resolved? {
      var l := ResolveListener(gateway, parent).listener;
      AttachedCountOrderFree(gateway, l, indexed, IndexedRoutes(all, gateway.Id()));
      IndexAgreesWithScan(gateway, l, all);
    }
    EvaluationReadsCount(lib, selectors, route, parent, gateway, gatewayClass, indexed, all);
  }
}
