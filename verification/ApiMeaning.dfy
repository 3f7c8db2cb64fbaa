/**
 What the fields of the API objects say, read off the Gateway API and the labels this system sets. Nothing here
 uses the helpers of the controller or the agent: the theorems about those are stated in these terms.
 */
module ApiMeaning {
  import opened Wrappers
  import opened Objects

  // ---- References -----------------------------------------------------------------------

  /** Unset, empty and the default itself all mean the default. */
  predicate IsDefault(field: Option<string>, default: string) {
    field in [None, Some(""), Some(default)]
  }

  /** A reference from `home` leads to this namespace. */
  predicate LeadsTo(field: Option<Segment>, home: Segment, namespace: Segment) {
    if field in [None, Some("")] then namespace == home else field == Some(namespace)
  }

  /** The parentRef of a route in `home` names this Gateway. */
  predicate NamesGateway(home: Segment, parent: ParentRef, gateway: NamespacedName) {
    && IsDefault(parent.group, "gateway.networking.k8s.io") && IsDefault(parent.kind, "Gateway")
    && LeadsTo(parent.namespace, home, gateway.namespace) && parent.name == gateway.name
  }

  /** The parentRef selects this listener: it has the name and the port that are asked for, where they are. */
  predicate Picks(parent: ParentRef, listener: Listener) {
    parent.sectionName in [None, Some(listener.name)] && parent.port in [None, Some(listener.port)]
  }

  /** The parentRef selects this listener of the list and no other. */
  predicate PicksOnly(parent: ParentRef, listeners: seq<Listener>, listener: Listener) {
    listener in listeners && forall l :: l in listeners ==> (Picks(parent, l) <==> l == listener)
  }

  predicate SameText(a: Option<string>, b: Option<string>) {
    a == b || (a in [None, Some("")] && b in [None, Some("")])
  }

  /** The two parentRefs differ at most in how they leave a field unset. */
  predicate SameRef(p: ParentRef, q: ParentRef) {
    && SameText(p.group, q.group) && SameText(p.kind, q.kind) && SameText(p.namespace, q.namespace) && p.name == q.name
    && SameText(p.sectionName, q.sectionName) && p.port == q.port
  }

  predicate AttachesTo(route: Route, gateway: NamespacedName, listener: Listener) {
    && route.namespace == gateway.namespace
    && exists p :: p in route.parentRefs && NamesGateway(route.namespace, p, gateway) && Picks(p, listener)
  }

  /** The backendRef of a route in `home` names this selector. */
  predicate NamesSelector(home: Segment, backend: BackendRef, selector: NamespacedName) {
    && backend.group == Some("gateway.networking.x-k8s.io") && IsDefault(backend.kind, "XEndpointSelector")
    && LeadsTo(backend.namespace, home, selector.namespace) && backend.name == selector.name
  }

  /** The route's only backend is this selector, in the route's own namespace, with this port. */
  predicate BackedBy(route: Route, selector: NamespacedName, port: int) {
    && |route.rules| == 1 && |route.rules[0]| == 1
    && NamesSelector(route.namespace, route.rules[0][0], selector)
    && selector.namespace == route.namespace && route.rules[0][0].port == Some(port)
  }

  /** The route's backend is a valid selector. */
  ghost predicate BackendUsable(lib: Library, selectors: map<NamespacedName, Selector>, route: Route) {
    exists id, port :: id in selectors && BackedBy(route, id, port) && lib.selectorValid(selectors[id].selector)
  }

  /** Why ResolvedRefs says what it says. */
  ghost function BackendReason(lib: Library, selectors: map<NamespacedName, Selector>, route: Route): string {
    if BackendUsable(lib, selectors, route) then "ResolvedRefs"
    else if |route.rules| != 1 || |route.rules[0]| != 1 then "UnsupportedValue"
    else
      var b := route.rules[0][0];
      if b.group != Some("gateway.networking.x-k8s.io") || !IsDefault(b.kind, "XEndpointSelector") then "InvalidKind"
      else if !LeadsTo(b.namespace, route.namespace, route.namespace) then "RefNotPermitted"
      else "BackendNotFound"
  }

  // ---- Gateways -------------------------------------------------------------------------

  /** The GatewayClass exists and names this controller. */
  predicate ClassIsOurs(gatewayClass: Option<GatewayClass>) {
    gatewayClass.Some? && gatewayClass.value.controllerName == "grosskur.github.io/clusterip-gw"
  }

  /** No restriction on kinds, and routes from the same namespace only. */
  predicate AllowsSame(allowed: Option<AllowedRoutes>) {
    allowed.Some? ==>
      && allowed.value.kinds == 0
      && (allowed.value.namespaces.Some? ==>
            !allowed.value.namespaces.value.hasSelector && allowed.value.namespaces.value.from in [None, Some("Same")])
  }

  /** Listener `i` is one this system serves. */
  predicate ListenerFits(listeners: seq<Listener>, i: nat)
    requires i < |listeners|
  {
    && |listeners| <= 10
    && listeners[i].name != "" && listeners[i].port != 0 && listeners[i].protocol == "TCP" && AllowsSame(listeners[i].allowedRoutes)
    && forall j :: 0 <= j < |listeners| && j != i ==>
         listeners[j].name != listeners[i].name && listeners[j].port != listeners[i].port
  }

  predicate ListenersFit(listeners: seq<Listener>) {
    listeners != [] && forall i :: 0 <= i < |listeners| ==> ListenerFits(listeners, i)
  }

  /** What makes a Gateway one whose listeners are judged by their routes. */
  predicate GatewayFits(gatewayClass: Option<GatewayClass>, gateway: Gateway) {
    ClassIsOurs(gatewayClass) && ListenersFit(gateway.spec.listeners) && gateway.spec.addresses == []
  }

  /** The route's only parentRef names the Gateway and selects this one listener. */
  predicate Chooses(route: Route, gateway: Gateway, listener: Listener) {
    && route.namespace == gateway.namespace && |route.parentRefs| == 1
    && NamesGateway(route.namespace, route.parentRefs[0], gateway.Id())
    && PicksOnly(route.parentRefs[0], gateway.spec.listeners, listener)
  }

  /** Of these routes, only this one attaches to the listener. */
  predicate OnlyRoute(routes: seq<Route>, gateway: NamespacedName, listener: Listener, route: Route) {
    route in routes && forall r :: r in routes && AttachesTo(r, gateway, listener) ==> r == route
  }

  // ---- Records, Pods and slices ---------------------------------------------------------

  /** The record claims an address for this Gateway. */
  predicate Claims(record: IPAddress, gateway: NamespacedName) {
    && "ipaddress.kubernetes.io/managed-by" in record.labels
    && record.labels["ipaddress.kubernetes.io/managed-by"] == "gateway.networking.x-k8s.io"
    && record.parent == Some(ParentReference("gateway.networking.k8s.io", "gateways", gateway.namespace, gateway.name))
    && gateway.namespace != "" && gateway.name != ""
  }

  /** The record carries the two labels of this controller, and no other. */
  predicate OnlyOurLabels(record: IPAddress) {
    record.labels == map[
      "ipaddress.kubernetes.io/ip-family" := "IPv4",
      "ipaddress.kubernetes.io/managed-by" := "gateway.networking.x-k8s.io"]
  }

  /** The first Ready condition of the Pod is true. */
  predicate PodIsReady(pod: Pod) {
    exists i :: 0 <= i < |pod.conditions| && pod.conditions[i] == PodCondition("Ready", "True")
                && forall j :: 0 <= j < i ==> pod.conditions[j].kind != "Ready"
  }

  /** The Pod matches the selector in its namespace and can receive traffic at this address. */
  predicate Feeds(lib: Library, selector: Selector, pod: Pod) {
    && pod.namespace == selector.namespace && lib.selectorMatches(selector.selector, pod.labels)
    && pod.namespace != "" && pod.name != "" && !pod.deleting && PodIsReady(pod) && lib.parseIPv4(pod.ip).Some?
  }

  /** The value of a label, where absent and empty mean the same. */
  function LabelText(labels: map<string, Segment>, key: string): Segment {
    if key in labels then labels[key] else ""
  }

  /** The slice carries this controller's mark and names this Gateway and listener. */
  predicate LabelledWith(slice: EndpointSlice, gateway: NamespacedName, listener: Segment) {
    && LabelText(slice.labels, "endpointslice.kubernetes.io/managed-by") == "clusterip-gw-controller.grosskur.github.io"
    && LabelText(slice.labels, "gateway.networking.x-k8s.io/gateway-name") == gateway.name != ""
    && LabelText(slice.labels, "gateway.networking.x-k8s.io/gateway-namespace") in ["", gateway.namespace]
    && (LabelText(slice.labels, "gateway.networking.x-k8s.io/gateway-namespace") == "" ==> slice.namespace == gateway.namespace)
    && gateway.namespace != "" && LabelText(slice.labels, "gateway.networking.x-k8s.io/gateway-listener") == listener
  }

  /** The slice carries this controller's mark and names this selector; without a namespace label, in its own namespace. */
  predicate MarkedFor(slice: EndpointSlice, selector: NamespacedName) {
    && LabelText(slice.labels, "endpointslice.kubernetes.io/managed-by") == "clusterip-gw-controller.grosskur.github.io"
    && LabelText(slice.labels, "gateway.networking.x-k8s.io/endpoint-selector-name") == selector.name != ""
    && LeadsTo(
         if "gateway.networking.x-k8s.io/endpoint-selector-namespace" in slice.labels
         then Some(slice.labels["gateway.networking.x-k8s.io/endpoint-selector-namespace"]) else None,
         slice.namespace, selector.namespace)
    && selector.namespace != ""
  }

  /** The endpoint is this Pod, ready, at its one address. */
  predicate IsPod(e: SliceEndpoint, pod: Pod) {
    && e.addresses == [pod.ip] && e.ready == Some(true)
    && e.target == Some(PodReference(pod.namespace, pod.name, pod.uid))
    && (pod.nodeName != "" ==> e.nodeName == Some(pod.nodeName)) && (pod.nodeName == "" ==> e.nodeName == None)
  }

  // ---- Conditions -----------------------------------------------------------------------

  predicate Says(c: Condition, kind: string, status: bool, reason: string, generation: int) {
    && c.kind == kind && c.status == (if status then "True" else "False") && c.reason == reason && c.generation == generation
  }

  /** Exactly one condition of the list has this kind, and it says this. */
  predicate OnlySays(conditions: seq<Condition>, kind: string, status: bool, reason: string, generation: int) {
    exists i :: 0 <= i < |conditions| && Says(conditions[i], kind, status, reason, generation)
                && forall j :: 0 <= j < |conditions| && j != i ==> conditions[j].kind != kind
  }

  /** The selector's only condition says whether its label selector is valid. */
  predicate SelectorSays(lib: Library, selector: Selector) {
    var valid := lib.selectorValid(selector.selector);
    && |selector.conditions| == 1
    && Says(selector.conditions[0], "Accepted", valid, if valid then "Accepted" else "Invalid", selector.generation)
  }

  /** A listener status: whether it is accepted, why, and why it is not programmed. */
  predicate Reports(
    s: ListenerStatus, listener: Listener, attached: int, accepted: bool, reason: string, programmed: string, generation: int)
  {
    && s.name == listener.name && s.attachedRoutes == attached
    && |s.supportedKinds| == 1 && s.supportedKinds[0].kind == "TCPRoute"
    && |s.conditions| == 3
    && Says(s.conditions[0], "Accepted", accepted, reason, generation)
    && Says(s.conditions[1], "Programmed", false, programmed, generation)
    && Says(s.conditions[2], "ResolvedRefs", accepted, if accepted then "ResolvedRefs" else "UnsupportedValue", generation)
  }
}
