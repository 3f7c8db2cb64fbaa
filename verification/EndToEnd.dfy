/** From API objects to packets: controller fixpoint and compiled ruleset together. */
module EndToEnd {
  import opened Wrappers
  import opened Sorting
  import opened Addresses
  import opened Objects
  import opened ApiMeaning
  import opened Listeners
  import opened Routes
  import opened GatewayEvaluation
  import opened Bindings
  import opened Slices
  import opened SliceDiff
  import opened SliceReconcile
  import opened Records
  import opened Allocation
  import opened ControllerState
  import opened AgentState
  import opened Ruleset
  import opened Nftables
  import opened Netlink
  import opened CompilerCorrectness
  import opened Trackers
  import opened Proxier

  // ---- What a snapshot holds ----------------------------------------------------------

  lemma {:induction false} GatherMembers(
    lib: Library, store: map<NamespacedName, EndpointSlice>, order: seq<NamespacedName>, key: FrontendKey, e: Endpoint)
    requires forall id :: id in order ==> id in store
    ensures e in Gather(lib, store, order, key) <==>
            exists i :: 0 <= i < |order| && e in Contribution(lib, store[order[i]], key)
  {
    if order != [] {
      var n := |order| - 1;
      var before, last := order[..n], Contribution(lib, store[order[n]], key);
      GatherMembers(lib, store, before, key, e);
      assert Gather(lib, store, order, key) == Gather(lib, store, before, key) + last;
      if i :| 0 <= i < |order| && e in Contribution(lib, store[order[i]], key) {
        assert i < n ==> before[i] == order[i];
      }
      if i :| 0 <= i < n && e in Contribution(lib, store[before[i]], key) {
        assert before[i] == order[i];
      }
    }
  }

  lemma EnumeratedContributes(
    lib: Library, store: map<NamespacedName, EndpointSlice>, order: seq<NamespacedName>, key: FrontendKey, e: Endpoint)
    requires Enumerates(order, store.Keys)
    ensures (exists i :: 0 <= i < |order| && e in Contribution(lib, store[order[i]], key)) <==>
            (exists id :: id in store && e in Contribution(lib, store[id], key))
  {
    if id :| id in store && e in Contribution(lib, store[id], key) {
      assert id in order;
      var i :| 0 <= i < |order| && order[i] == id;
    }
    if i :| 0 <= i < |order| && e in Contribution(lib, store[order[i]], key) {
      assert order[i] in order;
    }
  }

  lemma EndpointsForMembers(lib: Library, store: map<NamespacedName, EndpointSlice>, key: FrontendKey, e: Endpoint)
    ensures e in EndpointsFor(lib, store, key) <==> exists id :: id in store && e in Contribution(lib, store[id], key)
  {
    var order := Enumeration(store.Keys);
    GatherMembers(lib, store, order, key, e);
    SortIsSorted(ENDPOINT_STRING, Gather(lib, store, order, key));
    MultisetMembers(EndpointsFor(lib, store, key), Gather(lib, store, order, key));
    EnumeratedContributes(lib, store, order, key, e);
  }

  /** The endpoint a Pod becomes. */
  ghost predicate FromPod(lib: Library, e: Endpoint, pod: Pod, port: int) {
    lib.parseIPv4(pod.ip).Some? && e == Endpoint(Dotted(lib.parseIPv4(pod.ip).value), port)
  }

  lemma PodAddressReads(lib: Library, e: Endpoint, pod: Pod, port: int)
    requires lib.ReadsDottedQuads() && FromPod(lib, e, pod, port)
    ensures lib.parseIPv4(e.ip) == lib.parseIPv4(pod.ip)
  {
    QuadReadsBack(lib.parseIPv4(pod.ip).value);
  }

  lemma OneAddress(lib: Library, address: string, port: int)
    ensures AddressesUpTo(lib, [address], port, 1) == ParsedEndpoint(lib, address, port)
  {
    assert AddressesUpTo(lib, [address], port, 0) == [];
  }

  /** The endpoint `e` is what this slice endpoint, with its one address, becomes. */
  ghost predicate Yields(lib: Library, x: SliceEndpoint, port: int, e: Endpoint) {
    |x.addresses| == 1 && e in ParsedEndpoint(lib, x.addresses[0], port)
  }

  lemma LastEndpoint(lib: Library, endpoints: seq<SliceEndpoint>, port: int, n: nat, e: Endpoint)
    requires 0 < n <= |endpoints| && |endpoints[n - 1].addresses| == 1 && IsReady(endpoints[n - 1])
    ensures e in EndpointsUpTo(lib, endpoints, port, n) <==>
            e in EndpointsUpTo(lib, endpoints, port, n - 1) || Yields(lib, endpoints[n - 1], port, e)
  {
    var x := endpoints[n - 1];
    assert x.addresses == [x.addresses[0]];
    OneAddress(lib, x.addresses[0], port);
  }

  lemma {:induction false} PodEndpointMembers(lib: Library, endpoints: seq<SliceEndpoint>, port: int, n: nat, e: Endpoint)
    requires n <= |endpoints| && forall i :: 0 <= i < |endpoints| ==> |endpoints[i].addresses| == 1 && IsReady(endpoints[i])
    ensures e in EndpointsUpTo(lib, endpoints, port, n) <==> exists i :: 0 <= i < n && Yields(lib, endpoints[i], port, e)
  {
    if n > 0 {
      PodEndpointMembers(lib, endpoints, port, n - 1, e);
      LastEndpoint(lib, endpoints, port, n, e);
      assert (exists i :: 0 <= i < n && Yields(lib, endpoints[i], port, e)) <==>
          || (exists i :: 0 <= i < n - 1 && Yields(lib, endpoints[i], port, e))
          || Yields(lib, endpoints[n - 1], port, e);
    }
  }

  lemma YieldsFromPod(lib: Library, pod: Pod, port: int, e: Endpoint)
    ensures Yields(lib, EndpointOf(pod), port, e) <==> FromPod(lib, e, pod, port)
  {
  }

  /** The endpoints of a list built from Pods. */
  lemma SelectedMembers(lib: Library, pods: map<NamespacedName, Pod>, selector: Selector, port: int, e: Endpoint)
    ensures var endpoints := DesiredEndpoints(lib, pods, selector);
            e in EndpointsUpTo(lib, endpoints, port, |endpoints|) <==>
            exists id :: id in pods && Selected(lib, selector, pods[id]) && FromPod(lib, e, pods[id], port)
  {
    var endpoints, ready := DesiredEndpoints(lib, pods, selector), ReadyEndpoints(lib, pods, selector);
    SortedKeysEnumerates(ENDPOINT_KEY, ready);
    forall i | 0 <= i < |endpoints|
      ensures |endpoints[i].addresses| == 1 && IsReady(endpoints[i])
    {
      assert endpoints[i] in endpoints;
    }
    PodEndpointMembers(lib, endpoints, port, |endpoints|, e);
    if i :| 0 <= i < |endpoints| && Yields(lib, endpoints[i], port, e) {
      assert endpoints[i] in endpoints;
      var id :| id in pods && Selected(lib, selector, pods[id]) && endpoints[i] == EndpointOf(pods[id]);
      YieldsFromPod(lib, pods[id], port, e);
    }
    if id :| id in pods && Selected(lib, selector, pods[id]) && FromPod(lib, e, pods[id], port) {
      assert EndpointOf(pods[id]) in ready;
      var i :| 0 <= i < |endpoints| && endpoints[i] == EndpointOf(pods[id]);
      YieldsFromPod(lib, pods[id], port, e);
    }
  }

  lemma {:induction false} UsableBackendsMembers(lib: Library, endpoints: seq<Endpoint>, a: Addr, p: nat)
    ensures (a, p) in UsableBackends(lib, endpoints) <==>
            exists e :: e in endpoints && lib.parseIPv4(e.ip) == Some(a) && ToUint16Port(e.port) == Some(p)
  {
    if endpoints != [] {
      var n := |endpoints| - 1;
      UsableBackendsMembers(lib, endpoints[..n], a, p);
      assert forall e :: e in endpoints <==> e in endpoints[..n] || e == endpoints[n];
    }
  }

  // ---- A settled cluster --------------------------------------------------------------

  datatype Cluster = Cluster(
    view: View, slices: map<NamespacedName, EndpointSlice>, addresses: map<string, IPAddress>, prefixes: seq<Prefix>)
  {
    function Lib(): Library {
      view.stores.lib
    }

    function Gateways(): map<NamespacedName, Gateway> {
      view.stores.gateways
    }
  }

  /** Addresses are recorded under dotted quads, whatever other texts read as addresses. */
  ghost predicate CanonicalNames(lib: Library, addresses: map<string, IPAddress>) {
    && "" !in addresses
    && forall n, a :: n in addresses && lib.parseIPv4(n) == Some(a) ==> ReadQuad(n) == Some(a)
  }

  ghost predicate GatewaysSettled(c: Cluster)
    requires AllMasked(c.prefixes)
  {
    forall id :: id in c.Gateways() ==>
      Goal(c.addresses, c.Gateways(), c.view.stores.EnvironmentOf(c.Gateways()[id]), c.prefixes, id)
  }

  ghost predicate Claimed(slice: EndpointSlice) {
    exists id :: WellFormed(id) && Under(slice, id)
  }

  ghost predicate SelectorsSettled(c: Cluster) {
    && (forall id :: WellFormed(id) ==>
          && InSync(c.slices, UnderKey(id), Wanted(c.view, id))
          && DistinctNames(c.Lib(), ReferencedBindings(c.view.stores, id)))
    && (forall i :: i in c.slices && FrontendKeyForSlice(c.slices[i]).Some? ==> Claimed(c.slices[i]))
  }

  /** Every Gateway and every selector is at its fixpoint, and no slice of the controller has lost its selector. */
  ghost predicate Settled(c: Cluster) {
    && c.view.Valid() && SliceStore(c.slices) && GatewaysValid(c.Gateways()) && AllMasked(c.prefixes)
    && c.Lib().ReadsDottedQuads() && CanonicalNames(c.Lib(), c.addresses)
    && GatewaysSettled(c) && SelectorsSettled(c)
  }

  // ---- Slices and what they carry -----------------------------------------------------

  function KeyOfBinding(b: Binding): FrontendKey {
    FrontendKey(b.gateway.namespace, b.gateway.name, b.listenerName)
  }

  /** The agent finds in a slice's labels the frontend the controller built it for. */
  lemma DesiredFrontendKey(slice: EndpointSlice, selector: Selector, b: Binding)
    requires b.gateway.namespace != "" && b.gateway.name != "" && slice.labels == SliceLabels(selector, b.gateway, b.listenerName)
    ensures FrontendKeyForSlice(slice) == Some(KeyOfBinding(b))
  {
  }

  lemma ContributionMeaning(
    lib: Library, pods: map<NamespacedName, Pod>, slice: EndpointSlice, selector: Selector, b: Binding, key: FrontendKey, e: Endpoint)
    requires SliceEqual(slice, DesiredEndpointSlice(lib, selector, b, DesiredEndpoints(lib, pods, selector)))
    requires FrontendKeyForSlice(slice) == Some(key)
    ensures e in Contribution(lib, slice, key) <==>
            exists id :: id in pods && Selected(lib, selector, pods[id]) && FromPod(lib, e, pods[id], b.backendPort)
  {
    SelectedMembers(lib, pods, selector, b.backendPort, e);
    assert slice.ports == [SlicePort(Some("TCP"), Some(b.backendPort))] && slice.addressType == "IPv4";
    assert PortsUpTo(lib, slice, 0) == [];
    assert PortsUpTo(lib, slice, 1) == [] + EndpointsUpTo(lib, slice.endpoints, b.backendPort, |slice.endpoints|);
  }

  /** The binding behind a slice the agent reads. */
  lemma SliceMeaning(c: Cluster, i: NamespacedName, key: FrontendKey) returns (id: NamespacedName, r: NamespacedName)
    requires Settled(c) && i in c.slices && FrontendKeyForSlice(c.slices[i]) == Some(key)
    ensures id in c.view.stores.selectors && r in BindingRoutes(c.view.stores, id)
    ensures var b := BoundBy(c.view.stores, id)(r);
            && key == KeyOfBinding(b)
            && SliceEqual(c.slices[i], DesiredEndpointSlice(c.Lib(), c.view.stores.selectors[id], b,
                 DesiredEndpoints(c.Lib(), c.view.pods, c.view.stores.selectors[id])))
  {
    assert Claimed(c.slices[i]);
    id :| WellFormed(id) && Under(c.slices[i], id);
    assert UnderKey(id)(c.slices[i]);
    assert InSync(c.slices, UnderKey(id), Wanted(c.view, id));
    var b := WantedComesFrom(c.view, id, i.name);
    r :| r in BindingRoutes(c.view.stores, id) && b == BoundBy(c.view.stores, id)(r);
    BindingIsUsable(c.view.stores, id, r);
    assert b.gateway in c.Gateways();
    DesiredFrontendKey(c.slices[i], c.view.stores.selectors[id], b);
  }

  function SelectorOf(route: Route): Option<NamespacedName> {
    if |route.rules| == 1 && |route.rules[0]| == 1 && IsSegment(route.rules[0][0].name)
    then Some(NamespacedName(BackendNamespace(route, route.rules[0][0]), route.rules[0][0].name)) else None
  }

  function PortOf(route: Route): int {
    if |route.rules| == 1 && |route.rules[0]| == 1 && route.rules[0][0].port.Some? then route.rules[0][0].port.value else 0
  }

  /** Route `r` is the one bound to the listener, and Pod `p` is ready and matches the route's selector. */
  ghost predicate ServedBy(c: Cluster, gid: NamespacedName, l: Listener, r: NamespacedName, p: NamespacedName) {
    var s := c.view.stores;
    && gid in s.gateways && r in s.routes && BindsTo(s, s.routes[r], s.gateways[gid], l)
    && var sel := SelectorOf(s.routes[r]);
       sel.Some? && sel.value in s.selectors && p in c.view.pods && Selected(s.lib, s.selectors[sel.value], c.view.pods[p])
  }

  ghost predicate FedBy(c: Cluster, key: FrontendKey, e: Endpoint, l: Listener, r: NamespacedName, p: NamespacedName) {
    && ServedBy(c, key.Gateway(), l, r, p) && l.name == key.listener
    && FromPod(c.Lib(), e, c.view.pods[p], PortOf(c.view.stores.routes[r]))
  }

  lemma BoundServes(c: Cluster, id: NamespacedName, r: NamespacedName, p: NamespacedName) returns (l: Listener)
    requires c.view.Valid() && id in c.view.stores.selectors && r in BindingRoutes(c.view.stores, id)
    requires p in c.view.pods && Selected(c.Lib(), c.view.stores.selectors[id], c.view.pods[p])
    ensures var b := BoundBy(c.view.stores, id)(r);
            ServedBy(c, b.gateway, l, r, p) && l.name == b.listenerName && PortOf(c.view.stores.routes[r]) == b.backendPort
  {
    var s := c.view.stores;
    BindingIsUsable(s, id, r);
    var b := BoundBy(s, id)(r);
    l :| BindsTo(s, s.routes[r], s.gateways[b.gateway], l) && l.name == b.listenerName;
    assert SelectorOf(s.routes[r]) == Some(id);
  }

  /** Every endpoint of a frontend is a ready Pod of the listener's one route, at that route's port. */
  lemma EndpointIsFed(c: Cluster, key: FrontendKey, e: Endpoint) returns (l: Listener, r: NamespacedName, p: NamespacedName)
    requires Settled(c) && e in EndpointsFor(c.Lib(), c.slices, key)
    ensures FedBy(c, key, e, l, r, p)
  {
    var s := c.view.stores;
    EndpointsForMembers(s.lib, c.slices, key, e);
    var i :| i in c.slices && e in Contribution(s.lib, c.slices[i], key);
    assert FrontendKeyForSlice(c.slices[i]) == Some(key);
    var id;
    id, r := SliceMeaning(c, i, key);
    var b := BoundBy(s, id)(r);
    ContributionMeaning(s.lib, c.view.pods, c.slices[i], s.selectors[id], b, key, e);
    p :| p in c.view.pods && Selected(s.lib, s.selectors[id], c.view.pods[p]) && FromPod(s.lib, e, c.view.pods[p], b.backendPort);
    l := BoundServes(c, id, r, p);
  }

  lemma WantedIsHeld(c: Cluster, id: NamespacedName, b: Binding) returns (i: NamespacedName)
    requires Settled(c) && id in c.view.stores.selectors && b in ReferencedBindings(c.view.stores, id)
    ensures i in c.slices
    ensures SliceEqual(c.slices[i], DesiredEndpointSlice(c.Lib(), c.view.stores.selectors[id], b,
              DesiredEndpoints(c.Lib(), c.view.pods, c.view.stores.selectors[id])))
  {
    var s := c.view.stores;
    var bindings := SortedKeys(BINDING_KEY, ReferencedBindings(s, id));
    SortedKeysEnumerates(BINDING_KEY, ReferencedBindings(s, id));
    assert DistinctNames(s.lib, ReferencedBindings(s, id));
    BindingGetsSlice(s.lib, s.selectors[id], bindings, DesiredEndpoints(s.lib, c.view.pods, s.selectors[id]), b);
    assert InSync(c.slices, UnderKey(id), Wanted(c.view, id));
    assert Held(c.slices, UnderKey(id), NameOf(s.lib, b));
    i :| i in c.slices && UnderKey(id)(c.slices[i]) && i.name == NameOf(s.lib, b);
  }

  /** A usable listener has its slice. */
  lemma SliceOfListener(c: Cluster, gid: NamespacedName, l: Listener, r: NamespacedName) returns (i: NamespacedName)
    requires Settled(c) && gid in c.Gateways() && r in c.view.stores.routes
    requires BindsTo(c.view.stores, c.view.stores.routes[r], c.Gateways()[gid], l)
    ensures i in c.slices && FrontendKeyForSlice(c.slices[i]) == Some(KeyFor(c.Gateways()[gid], l))
    ensures var s, route := c.view.stores, c.view.stores.routes[r];
            && SelectorOf(route).Some? && SelectorOf(route).value in s.selectors
            && var selector := s.selectors[SelectorOf(route).value];
               SliceEqual(c.slices[i], DesiredEndpointSlice(c.Lib(), selector, Binding(gid, l.name, PortOf(route)),
                 DesiredEndpoints(c.Lib(), c.view.pods, selector)))
  {
    var s, g, route := c.view.stores, c.Gateways()[gid], c.view.stores.routes[r];
    UsableIsBinding(s, gid, l, route);
    ResolvedBackend(s, route);
    var sel := NamespacedName(route.namespace, route.rules[0][0].name);
    var b := Binding(gid, l.name, PortOf(route));
    assert BindsSelector(s, sel, r);
    assert BoundBy(s, sel)(r) == b;
    assert b in ReferencedBindings(s, sel);
    i := WantedIsHeld(c, sel, b);
    DesiredFrontendKey(c.slices[i], s.selectors[sel], b);
  }

  /** And every ready Pod of a usable listener's route is an endpoint of its frontend. */
  lemma FedIsEndpoint(c: Cluster, key: FrontendKey, e: Endpoint, l: Listener, r: NamespacedName, p: NamespacedName)
    requires Settled(c) && FedBy(c, key, e, l, r, p)
    ensures e in EndpointsFor(c.Lib(), c.slices, key)
  {
    var s := c.view.stores;
    var i := SliceOfListener(c, key.Gateway(), l, r);
    var sel := SelectorOf(s.routes[r]).value;
    var b := Binding(key.Gateway(), l.name, PortOf(s.routes[r]));
    ContributionMeaning(s.lib, c.view.pods, c.slices[i], s.selectors[sel], b, key, e);
    EndpointsForMembers(s.lib, c.slices, key, e);
  }

  // ---- Published addresses ------------------------------------------------------------

  /** A Gateway this system manages publishes `a`, and nothing else. */
  ghost predicate PublishedAt(c: Cluster, gid: NamespacedName, a: Addr) {
    && gid in c.Gateways() && Managed(c.Gateways()[gid])
    && |c.Gateways()[gid].status.addresses| == 1
    && c.Gateways()[gid].status.addresses[0].kind == Some("IPAddress")
    && ReadQuad(c.Gateways()[gid].status.addresses[0].value) == Some(a)
  }

  /** A managed Gateway that publishes anything is valid, and owns the one address it publishes. */
  lemma PublishingMeans(c: Cluster, gid: NamespacedName)
    requires Settled(c) && gid in c.Gateways() && Managed(c.Gateways()[gid])
    requires c.Gateways()[gid].status.addresses != []
    ensures var g := c.Gateways()[gid];
            && ListenersOk(g.spec.listeners) && |g.status.addresses| == 1
            && g.status.addresses[0].kind == Some("IPAddress")
            && g.status.addresses[0].value in c.addresses
            && OwnedBy(c.addresses[g.status.addresses[0].value], gid)
  {
    var g, env := c.Gateways()[gid], c.view.stores.EnvironmentOf(c.Gateways()[gid]);
    GoalMeaning(c.addresses, c.Gateways(), env, c.prefixes, gid);
    ValidMeansSomeUsable(env, g);
    var vip :| vip in c.addresses && OwnedNames(c.addresses, gid) == {vip}
      && g.status.addresses == [StatusAddress(Some("IPAddress"), vip)];
    assert vip in OwnedNames(c.addresses, gid);
  }

  lemma EmptyIsNoQuad()
    ensures ReadQuad("").None?
  {
  }

  /** The agent supports exactly the Gateways that publish an IPv4 address. */
  lemma SupportedMeans(c: Cluster, gid: NamespacedName, a: Addr)
    requires Settled(c) && gid in c.Gateways()
    ensures var g := c.Gateways()[gid];
            Supported(g) && c.Lib().parseIPv4(g.status.addresses[0].value) == Some(a) <==> PublishedAt(c, gid, a)
  {
    var g := c.Gateways()[gid];
    if Managed(g) && g.status.addresses != [] {
      PublishingMeans(c, gid);
      EmptyIsNoQuad();
    }
  }

  /** Two Gateways never publish the same address. */
  lemma PublishedOnce(c: Cluster, gid: NamespacedName, gid': NamespacedName, a: Addr)
    requires Settled(c) && PublishedAt(c, gid, a) && PublishedAt(c, gid', a)
    ensures gid == gid'
  {
    QuadExactly(c.Gateways()[gid].status.addresses[0].value, a);
    QuadExactly(c.Gateways()[gid'].status.addresses[0].value, a);
    PublishingMeans(c, gid);
    PublishingMeans(c, gid');
  }

  // ---- Packets ------------------------------------------------------------------------

  /** The packet is TCP to the published address of `gid` and the port of its listener `l`. */
  ghost predicate Reaches(c: Cluster, packet: Packet, gid: NamespacedName, l: Listener, a: Addr) {
    && PublishedAt(c, gid, a) && l in c.Gateways()[gid].spec.listeners
    && 0 < l.port <= 65535 && TCPTo(packet, a, l.port)
  }

  lemma SamePortSameListener(listeners: seq<Listener>, l: Listener, l': Listener)
    requires Distinct(Ports(listeners)) && l in listeners && l' in listeners && l.port == l'.port
    ensures l == l'
  {
    var i :| 0 <= i < |listeners| && listeners[i] == l;
    var j :| 0 <= j < |listeners| && listeners[j] == l';
    assert Ports(listeners)[i] == Ports(listeners)[j];
  }

  /** A packet reaches at most one listener. */
  lemma ReachesOne(
    c: Cluster, packet: Packet, gid: NamespacedName, l: Listener, a: Addr, gid': NamespacedName, l': Listener, a': Addr)
    requires Settled(c) && Reaches(c, packet, gid, l, a) && Reaches(c, packet, gid', l', a')
    ensures gid == gid' && l == l' && a == a'
  {
    PublishedOnce(c, gid, gid', a);
    SamePort(l.port, l'.port);
    PublishingMeans(c, gid);
    SamePortSameListener(c.Gateways()[gid].spec.listeners, l, l');
  }

  ghost function Frontends(c: Cluster): FrontendMap
    requires GatewayStore(c.Gateways())
  {
    AllFrontends(c.Lib(), c.Gateways())
  }

  ghost function Endpoints(c: Cluster): EndpointsMap {
    AllEndpoints(c.Lib(), c.slices)
  }

  /** A frontend of the agent takes a packet exactly when the packet reaches its listener and there is a backend. */
  lemma TakesMeaning(c: Cluster, key: FrontendKey, packet: Packet)
    requires Settled(c) && GatewayStore(c.Gateways()) && key in Frontends(c)
    ensures Takes(c.Lib(), Frontends(c)[key], Lookup(Endpoints(c), key), packet) <==>
            && (exists l, a :: Reaches(c, packet, key.Gateway(), l, a) && l.name == key.listener)
            && UsableBackends(c.Lib(), EndpointsFor(c.Lib(), c.slices, key)) != []
  {
    AllEndpointsMeaning(c.Lib(), c.slices, key);
    AllFrontendsMeaning(c.Lib(), c.Gateways(), key);
    var gid, frontend := key.Gateway(), Frontends(c)[key];
    FrontendsMeaning(c.Lib(), c.Gateways()[gid], key, frontend);
    SupportedMeans(c, gid, frontend.address);
    assert PublishedAt(c, gid, frontend.address);
    PublishingMeans(c, gid);
    var g := c.Gateways()[gid];
    var l :| l in g.spec.listeners && key.listener == l.name && frontend.port == l.port;
    assert ToUint16Port(frontend.port).Some? && TCPTo(packet, frontend.address, frontend.port) ==>
        Reaches(c, packet, gid, l, frontend.address);
    if l', a :| Reaches(c, packet, gid, l', a) && l'.name == key.listener {
      SameNameListener(g.spec.listeners, l, l');
    }
  }

  /** A listener that publishes an address is a frontend of the agent. */
  lemma ReachedIsFrontend(c: Cluster, packet: Packet, gid: NamespacedName, l: Listener, a: Addr)
    requires Settled(c) && GatewayStore(c.Gateways()) && Reaches(c, packet, gid, l, a)
    ensures KeyFor(c.Gateways()[gid], l) in Frontends(c) && KeyFor(c.Gateways()[gid], l).Gateway() == gid
  {
    var g := c.Gateways()[gid];
    SupportedMeans(c, gid, a);
    assert Serves(c.Lib(), g, KeyFor(g, l), Frontend(a, l.port));
    FrontendsMeaning(c.Lib(), g, KeyFor(g, l), Frontend(a, l.port));
    AllFrontendsMeaning(c.Lib(), c.Gateways(), KeyFor(g, l));
  }

  /** Route `r` is the one the listener serves, its backend is selector `sel` at `port`, and Pod `p` feeds that selector. */
  ghost predicate TargetVia(
    c: Cluster, gid: NamespacedName, l: Listener, r: NamespacedName, sel: NamespacedName, p: NamespacedName, ip: Addr, port: nat)
  {
    var s := c.view.stores;
    && gid in s.gateways && r in s.routes && RouteServes(s, s.gateways[gid], l, s.routes[r])
    && BackedBy(s.routes[r], sel, port) && sel in s.selectors && 0 < port <= 65535
    && p in c.view.pods && Feeds(s.lib, s.selectors[sel], c.view.pods[p]) && s.lib.parseIPv4(c.view.pods[p].ip) == Some(ip)
  }

  /** A programmable backend of a listener: a ready matching Pod at the port of the listener's one route. */
  ghost predicate Target(c: Cluster, gid: NamespacedName, l: Listener, ip: Addr, port: nat) {
    exists r, sel, p :: TargetVia(c, gid, l, r, sel, p, ip, port)
  }

  lemma ServedIsTarget(
    c: Cluster, gid: NamespacedName, l: Listener, r: NamespacedName, p: NamespacedName, ip: Addr, port: nat)
    requires c.view.Valid() && ServedBy(c, gid, l, r, p) && c.Lib().parseIPv4(c.view.pods[p].ip) == Some(ip)
    requires PortOf(c.view.stores.routes[r]) == port && 0 < port <= 65535
    ensures Target(c, gid, l, ip, port)
  {
    var s, route := c.view.stores, c.view.stores.routes[r];
    var sel := SelectorOf(route).value;
    BindsMeaning(s, s.gateways[gid], l, route);
    SelectedMeaning(s.lib, s.selectors[sel], c.view.pods[p]);
    var id, q :| id in s.selectors && BackedBy(route, id, q) && s.lib.selectorValid(s.selectors[id].selector);
    assert id == sel && q == port;
    assert TargetVia(c, gid, l, r, sel, p, ip, port);
  }

  lemma TargetIsServed(
    c: Cluster, gid: NamespacedName, l: Listener, r: NamespacedName, sel: NamespacedName, p: NamespacedName, ip: Addr, port: nat)
    requires c.view.Valid() && TargetVia(c, gid, l, r, sel, p, ip, port)
    ensures ServedBy(c, gid, l, r, p) && PortOf(c.view.stores.routes[r]) == port
  {
    var s, route := c.view.stores, c.view.stores.routes[r];
    BindsMeaning(s, s.gateways[gid], l, route);
    SelectedMeaning(s.lib, s.selectors[sel], c.view.pods[p]);
    assert SelectorOf(route) == Some(sel);
  }

  lemma BackendIsTarget(c: Cluster, gid: NamespacedName, l: Listener, e: Endpoint, ip: Addr, port: nat)
    requires Settled(c) && gid in c.Gateways() && l in c.Gateways()[gid].spec.listeners
    requires e in EndpointsFor(c.Lib(), c.slices, KeyFor(c.Gateways()[gid], l))
    requires c.Lib().parseIPv4(e.ip) == Some(ip) && ToUint16Port(e.port) == Some(port)
    ensures Target(c, gid, l, ip, port)
  {
    var l', r, p := EndpointIsFed(c, KeyFor(c.Gateways()[gid], l), e);
    SameNameSameListener(c.view.stores, c.Gateways()[gid], c.view.stores.routes[r], l', l);
    PodAddressReads(c.Lib(), e, c.view.pods[p], PortOf(c.view.stores.routes[r]));
    ServedIsTarget(c, gid, l, r, p, ip, port);
  }

  lemma TargetIsBackend(c: Cluster, gid: NamespacedName, l: Listener, ip: Addr, port: nat) returns (e: Endpoint)
    requires Settled(c) && gid in c.Gateways() && Target(c, gid, l, ip, port)
    ensures e in EndpointsFor(c.Lib(), c.slices, KeyFor(c.Gateways()[gid], l))
    ensures c.Lib().parseIPv4(e.ip) == Some(ip) && ToUint16Port(e.port) == Some(port)
  {
    var r, sel, p :| TargetVia(c, gid, l, r, sel, p, ip, port);
    TargetIsServed(c, gid, l, r, sel, p, ip, port);
    e := Endpoint(Dotted(ip), port);
    PodAddressReads(c.Lib(), e, c.view.pods[p], PortOf(c.view.stores.routes[r]));
    FedIsEndpoint(c, KeyFor(c.Gateways()[gid], l), e, l, r, p);
  }

  /** The backends the agent programs for a listener are its targets. */
  lemma BackendsAreTargets(c: Cluster, gid: NamespacedName, l: Listener, ip: Addr, port: nat)
    requires Settled(c) && gid in c.Gateways() && l in c.Gateways()[gid].spec.listeners
    ensures (ip, port) in UsableBackends(c.Lib(), EndpointsFor(c.Lib(), c.slices, KeyFor(c.Gateways()[gid], l))) <==>
            Target(c, gid, l, ip, port)
  {
    var lib, endpoints := c.Lib(), EndpointsFor(c.Lib(), c.slices, KeyFor(c.Gateways()[gid], l));
    UsableBackendsMembers(lib, endpoints, ip, port);
    if e :| e in endpoints && lib.parseIPv4(e.ip) == Some(ip) && ToUint16Port(e.port) == Some(port) {
      BackendIsTarget(c, gid, l, e, ip, port);
    }
    if Target(c, gid, l, ip, port) {
      var e := TargetIsBackend(c, gid, l, ip, port);
    }
  }

  /** What the agent's table does to a packet. */
  ghost function Fate(c: Cluster, tableName: string, hook: Hook, packet: Packet, draw: nat -> nat): Verdict
    requires GatewayStore(c.Gateways())
  {
    var built := Build(Compile(c.Lib(), tableName, Frontends(c), Endpoints(c)));
    if built.Ok? then RunHook(built.value, hook, packet, draw) else Unchanged
  }

  /** The service names do not collide and no frontend has more backends than a 32-bit index can name. */
  ghost predicate Programmable(c: Cluster) {
    && GatewayStore(c.Gateways())
    && HashSeparates(c.Lib(), ServiceKeys(Frontends(c))) && BoundedEndpoints(Endpoints(c))
  }

  /** Left alone exactly if the listener has no target, and otherwise sent to one. */
  ghost predicate SentToTarget(c: Cluster, gid: NamespacedName, l: Listener, v: Verdict) {
    && (v.Unchanged? <==> forall ip: Addr, port: nat :: !Target(c, gid, l, ip, port))
    && (v.Redirect? ==> exists ip: Addr, port: nat :: Target(c, gid, l, ip, port) && v == Redirect(ip, BigEndianUint16(port)))
  }

  lemma PickIsTarget(c: Cluster, gid: NamespacedName, l: Listener, backends: seq<(Addr, nat)>, draw: nat -> nat)
    requires FairDraw(draw)
    requires forall ip: Addr, port: nat :: (ip, port) in backends <==> Target(c, gid, l, ip, port)
    ensures SentToTarget(c, gid, l, if backends == [] then Unchanged else Pick(backends, draw))
  {
    if backends != [] {
      var picked := backends[draw(|backends|)];
      assert (picked.0, picked.1) in backends;
      assert Target(c, gid, l, picked.0, picked.1);
    } else {
      forall ip: Addr, port: nat
        ensures !Target(c, gid, l, ip, port)
      {
        assert (ip, port) !in backends;
      }
    }
  }

  /** If only one frontend can take the packet, the order of the others does not matter. */
  lemma DirectSole(
    lib: Library, frontends: FrontendMap, endpoints: EndpointsMap, keys: seq<FrontendKey>, packet: Packet, draw: nat -> nat,
    key: FrontendKey)
    requires forall k :: k in keys ==> k in frontends
    requires FairDraw(draw) && key in keys
    requires forall k :: k in keys && k != key ==> !Takes(lib, frontends[k], Lookup(endpoints, k), packet)
    requires forall i, j :: 0 <= i < j < |keys| ==> keys[i] != keys[j]
    ensures Direct(lib, frontends, endpoints, keys, packet, draw) ==
            if Takes(lib, frontends[key], Lookup(endpoints, key), packet)
            then Pick(UsableBackends(lib, Lookup(endpoints, key)), draw) else Unchanged
  {
    DirectMeaning(lib, frontends, endpoints, keys, packet, draw);
    var i :| 0 <= i < |keys| && keys[i] == key;
    forall j | 0 <= j < i
      ensures !Takes(lib, frontends[keys[j]], Lookup(endpoints, keys[j]), packet)
    {
      assert keys[j] in keys;
    }
  }

  lemma OthersDoNotTake(c: Cluster, packet: Packet, gid: NamespacedName, l: Listener, a: Addr, other: FrontendKey)
    requires Settled(c) && GatewayStore(c.Gateways()) && Reaches(c, packet, gid, l, a)
    requires other in Frontends(c) && other != KeyFor(c.Gateways()[gid], l)
    ensures !Takes(c.Lib(), Frontends(c)[other], Lookup(Endpoints(c), other), packet)
  {
    TakesMeaning(c, other, packet);
    forall l', a' | Reaches(c, packet, other.Gateway(), l', a')
      ensures l'.name != other.listener
    {
      ReachesOne(c, packet, gid, l, a, other.Gateway(), l', a');
    }
  }

  /** The frontend of the reached listener decides alone. */
  lemma FateOfReached(
    c: Cluster, tableName: string, hook: Hook, packet: Packet, draw: nat -> nat, gid: NamespacedName, l: Listener, a: Addr)
    requires Settled(c) && Programmable(c) && FairDraw(draw) && Reaches(c, packet, gid, l, a)
    ensures var backends := UsableBackends(c.Lib(), EndpointsFor(c.Lib(), c.slices, KeyFor(c.Gateways()[gid], l)));
            Fate(c, tableName, hook, packet, draw) == if backends == [] then Unchanged else Pick(backends, draw)
  {
    var keys, key := KeyOrder(Frontends(c)), KeyFor(c.Gateways()[gid], l);
    CompilerCorrect(c.Lib(), tableName, Frontends(c), Endpoints(c), hook, packet, draw);
    ReachedIsFrontend(c, packet, gid, l, a);
    TakesMeaning(c, key, packet);
    AllEndpointsMeaning(c.Lib(), c.slices, key);
    forall other | other in keys && other != key
      ensures !Takes(c.Lib(), Frontends(c)[other], Lookup(Endpoints(c), other), packet)
    {
      OthersDoNotTake(c, packet, gid, l, a, other);
    }
    KeyOrderIsDistinct(Frontends(c));
    DirectSole(c.Lib(), Frontends(c), Endpoints(c), keys, packet, draw, key);
  }

  /**
   A packet for a published address and listener port goes to a ready matching Pod at the port of the
   listener's one route, if there is such a Pod, and is left alone otherwise.
   */
  lemma PacketsReachReadyPods(
    c: Cluster, tableName: string, hook: Hook, packet: Packet, draw: nat -> nat, gid: NamespacedName, l: Listener, a: Addr)
    requires Settled(c) && Programmable(c) && FairDraw(draw) && Reaches(c, packet, gid, l, a)
    ensures SentToTarget(c, gid, l, Fate(c, tableName, hook, packet, draw))
  {
    var backends := UsableBackends(c.Lib(), EndpointsFor(c.Lib(), c.slices, KeyFor(c.Gateways()[gid], l)));
    FateOfReached(c, tableName, hook, packet, draw, gid, l, a);
    forall ip: Addr, port: nat
      ensures (ip, port) in backends <==> Target(c, gid, l, ip, port)
    {
      BackendsAreTargets(c, gid, l, ip, port);
    }
    PickIsTarget(c, gid, l, backends, draw);
  }

  /** Every other packet is left alone. */
  lemma OtherPacketsPass(c: Cluster, tableName: string, hook: Hook, packet: Packet, draw: nat -> nat)
    requires Settled(c) && Programmable(c) && FairDraw(draw)
    requires forall gid, l, a :: !Reaches(c, packet, gid, l, a)
    ensures Fate(c, tableName, hook, packet, draw).Unchanged?
  {
    var lib, keys := c.Lib(), KeyOrder(Frontends(c));
    CompilerCorrect(lib, tableName, Frontends(c), Endpoints(c), hook, packet, draw);
    DirectMeaning(lib, Frontends(c), Endpoints(c), keys, packet, draw);
    forall key | key in keys
      ensures !Takes(lib, Frontends(c)[key], Lookup(Endpoints(c), key), packet)
    {
      TakesMeaning(c, key, packet);
    }
  }

  // ---- A node -------------------------------------------------------------------------

  /** The agent has seen every Gateway and every slice of the cluster. */
  ghost predicate Follows(p: Proxier, c: Cluster)
    reads p, p.gatewayTracker, p.endpointTracker
  {
    && p.lib == c.Lib() && p.applyRules && p.Ready()
    && TracksGateways(p.lib, p.gatewayTracker.gateways, c.Gateways()) && p.endpointTracker.slices == c.slices
  }

  lemma CompiledBuilds(c: Cluster, tableName: string)
    requires Programmable(c)
    ensures Build(Compile(c.Lib(), tableName, Frontends(c), Endpoints(c))).Ok?
  {
    var packet, draw := Packet([], None, []), (m: nat) => 0;
    CompilerCorrect(c.Lib(), tableName, Frontends(c), Endpoints(c), Prerouting, packet, draw);
  }

  /** The installed table gives every packet the fate the cluster calls for. */
  ghost predicate Realizes(c: Cluster, tableName: string, kernel: Kernel)
    requires GatewayStore(c.Gateways())
  {
    && tableName in kernel
    && forall hook, packet, draw :: RunHook(kernel[tableName], hook, packet, draw) == Fate(c, tableName, hook, packet, draw)
  }

  lemma InstalledGivesFate(c: Cluster, tableName: string, kernel: Kernel, built: Result<Table>)
    requires GatewayStore(c.Gateways()) && built.Ok?
    requires built == Build(Compile(c.Lib(), tableName, Frontends(c), Endpoints(c)))
    ensures Realizes(c, tableName, kernel[tableName := built.value])
  {
  }

  /** Once a sync of a caught-up agent succeeds, its kernel gives every packet the fate the cluster calls for. */
  method SyncNode(
    p: Proxier, ghost c: Cluster, now: int, done: int, cancelled: nat -> bool, connFails: nat -> bool)
    returns (err: Option<ApplyError>)
    requires Programmable(c) && Follows(p, c) && !p.TooEarly(now)
    modifies p`lastSync, p`syncPending, p.applier
    ensures (forall i :: !cancelled(i) && !connFails(i)) ==> err.None?
    ensures err.None? ==> Realizes(c, p.tableName, p.applier.kernel)
    ensures forall t :: t in old(p.applier.kernel) && t != p.tableName ==>
              t in p.applier.kernel && p.applier.kernel[t] == old(p.applier.kernel)[t]
  {
    CompiledBuilds(c, p.tableName);
    ghost var spec := Compile(c.Lib(), p.tableName, Frontends(c), Endpoints(c));
    ghost var built := Build(spec);
    assert spec == Compile(p.lib, p.tableName, AllFrontends(p.lib, c.Gateways()), AllEndpoints(p.lib, p.endpointTracker.slices));
    InstalledGivesFate(c, p.tableName, p.applier.kernel, built);
    var delay;
    delay, err := p.Sync(now, done, cancelled, connFails, c.Gateways());
    assert err.None? ==> p.applier.kernel == old(p.applier.kernel)[p.tableName := built.value];
  }
}
