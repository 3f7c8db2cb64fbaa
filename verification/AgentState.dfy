/** Frontends and endpoints: what the agent reads off Gateways and EndpointSlices (internal/agent/state). */
module AgentState {
  import opened Wrappers
  import opened Text
  import opened Sorting
  import opened Folds
  import opened Addresses
  import opened Objects
  import opened ApiMeaning
  import opened Listeners

  datatype FrontendKey = FrontendKey(namespace: Segment, name: Segment, listener: Segment) {
    function Gateway(): NamespacedName {
      NamespacedName(namespace, name)
    }

    function String(): string {
      if listener == "" then NamespacedKey(namespace, name) else NamespacedKey(namespace, name) + ":" + listener
    }
  }

  datatype Frontend = Frontend(address: Addr, port: int)

  datatype Endpoint = Endpoint(ip: string, port: int) {
    /** `net.JoinHostPort`. */
    function String(): string {
      if ':' in ip || '%' in ip then "[" + ip + "]:" + Itoa(port) else ip + ":" + Itoa(port)
    }

    ghost predicate IsIPv4() {
      exists a: Addr :: ip == Dotted(a)
    }
  }

  type FrontendMap = map<FrontendKey, Frontend>
  type EndpointsMap = map<FrontendKey, seq<Endpoint>>

  const FRONTEND_KEY_STRING := (k: FrontendKey) => k.String()
  const ENDPOINT_STRING := (e: Endpoint) => e.String()

  /** The sort string splits into namespace, name and, if there is one, listener. */
  lemma FrontendKeyReads(k: FrontendKey)
    ensures var parts := SplitAt(k.String(), '/');
            |parts| == 2 && parts[0] == k.namespace
            && SplitAt(parts[1], ':') == if k.listener == "" then [k.name] else [k.name, k.listener]
  {
    var rest := if k.listener == "" then k.name else k.name + ":" + k.listener;
    assert k.String() == k.namespace + ['/'] + rest;
    SplitJoin(k.namespace, rest, '/');
    SplitWhole(rest, '/');
    if k.listener == "" {
      SplitWhole(k.name, ':');
    } else {
      SplitJoin(k.name, k.listener, ':');
      SplitWhole(k.listener, ':');
    }
  }

  /** The sort string of an endpoint with an IPv4 text splits into that text and the port. */
  lemma EndpointReads(e: Endpoint)
    requires e.IsIPv4()
    ensures SplitAt(e.String(), ':') == [e.ip, Itoa(e.port)]
  {
    var a: Addr :| e.ip == Dotted(a);
    DottedAvoids(a, ':');
    DottedAvoids(a, '%');
    DigitsAvoid(if e.port < 0 then -e.port else e.port, ':');
    SplitJoin(e.ip, Itoa(e.port), ':');
    SplitWhole(Itoa(e.port), ':');
  }

  /** Equal sort strings mean equal frontends: the sorted key order is determined. */
  lemma FrontendKeyStringInjective(a: FrontendKey, b: FrontendKey)
    requires a.String() == b.String()
    ensures a == b
  {
    var restA := if a.listener == "" then a.name else a.name + ":" + a.listener;
    var restB := if b.listener == "" then b.name else b.name + ":" + b.listener;
    assert a.String() == a.namespace + "/" + restA;
    assert b.String() == b.namespace + "/" + restB;
    CutUnique(a.namespace, restA, '/', b.namespace, restB);
    assert a.listener == "" <==> ':' !in restA;
    assert b.listener == "" <==> ':' !in restB;
    if a.listener != "" {
      CutUnique(a.name, a.listener, ':', b.name, b.listener);
    }
  }

  /** Equal sort strings mean equal endpoints, for endpoints with an IPv4 text. */
  lemma EndpointStringInjective(a: Endpoint, b: Endpoint)
    requires a.IsIPv4() && b.IsIPv4() && a.String() == b.String()
    ensures a == b
  {
    var x: Addr :| a.ip == Dotted(x);
    var y: Addr :| b.ip == Dotted(y);
    DottedAvoids(x, ':');
    DottedAvoids(y, ':');
    DottedAvoids(x, '%');
    DottedAvoids(y, '%');
    CutUnique(a.ip, Itoa(a.port), ':', b.ip, Itoa(b.port));
    ItoaInjective(a.port, b.port);
  }

  // ---- Gateways ---------------------------------------------------------------

  function KeyFor(gateway: Gateway, listener: Listener): FrontendKey {
    FrontendKey(gateway.namespace, gateway.name, listener.name)
  }

  function FrontendsUpTo(gateway: Gateway, vip: Addr, n: nat): FrontendMap
    requires n <= |gateway.spec.listeners|
  {
    if n == 0 then map[]
    else
      var l := gateway.spec.listeners[n - 1];
      FrontendsUpTo(gateway, vip, n - 1)[KeyFor(gateway, l) := Frontend(vip, l.port)]
  }

  /** `gatewayToFrontendMap`. */
  function FrontendsOf(lib: Library, gateway: Gateway): FrontendMap {
    if !Supported(gateway) then map[]
    else match lib.parseIPv4(gateway.status.addresses[0].value)
      case None => map[]
      case Some(vip) => FrontendsUpTo(gateway, vip, |gateway.spec.listeners|)
  }

  /** A supported Gateway with VIP `vip` serves `listener` at `key`. */
  ghost predicate Serves(lib: Library, gateway: Gateway, key: FrontendKey, frontend: Frontend) {
    && Supported(gateway)
    && lib.parseIPv4(gateway.status.addresses[0].value) == Some(frontend.address)
    && key.namespace == gateway.namespace && key.name == gateway.name
    && exists l :: l in gateway.spec.listeners && key.listener == l.name && frontend.port == l.port
  }

  lemma {:induction false} FrontendsUpToMeaning(gateway: Gateway, vip: Addr, n: nat, key: FrontendKey)
    requires n <= |gateway.spec.listeners| && Distinct(Names(gateway.spec.listeners))
    ensures key in FrontendsUpTo(gateway, vip, n) <==>
            exists i :: 0 <= i < n && key == KeyFor(gateway, gateway.spec.listeners[i])
    ensures forall i :: 0 <= i < n ==>
              var l := gateway.spec.listeners[i];
              KeyFor(gateway, l) in FrontendsUpTo(gateway, vip, n)
              && FrontendsUpTo(gateway, vip, n)[KeyFor(gateway, l)] == Frontend(vip, l.port)
  {
    if n > 0 {
      FrontendsUpToMeaning(gateway, vip, n - 1, key);
      var names := Names(gateway.spec.listeners);
      assert forall i :: 0 <= i < n - 1 ==> names[i] != names[n - 1];
    }
  }

  /** A Gateway's frontends are exactly its listeners at its VIP, when the agent supports it. */
  lemma FrontendsMeaning(lib: Library, gateway: Gateway, key: FrontendKey, frontend: Frontend)
    ensures key in FrontendsOf(lib, gateway) && FrontendsOf(lib, gateway)[key] == frontend <==>
            Serves(lib, gateway, key, frontend)
  {
    if Supported(gateway) && lib.parseIPv4(gateway.status.addresses[0].value).Some? {
      var vip := lib.parseIPv4(gateway.status.addresses[0].value).value;
      var ls := gateway.spec.listeners;
      FrontendsUpToMeaning(gateway, vip, |ls|, key);
      if Serves(lib, gateway, key, frontend) {
        var l :| l in ls && key.listener == l.name && frontend.port == l.port;
        var i :| 0 <= i < |ls| && ls[i] == l;
        assert FrontendsUpTo(gateway, vip, |ls|)[KeyFor(gateway, ls[i])] == Frontend(vip, ls[i].port);
      }
    }
  }

  lemma FrontendBelongs(lib: Library, gateway: Gateway, key: FrontendKey)
    requires key in FrontendsOf(lib, gateway)
    ensures key.Gateway() == gateway.Id()
  {
    FrontendsMeaning(lib, gateway, key, FrontendsOf(lib, gateway)[key]);
  }

  /** A store of objects, each under its own name. */
  ghost predicate GatewayStore(store: map<NamespacedName, Gateway>) {
    forall id :: id in store ==> store[id].Id() == id
  }

  ghost predicate SliceStore(store: map<NamespacedName, EndpointSlice>) {
    forall id :: id in store ==> store[id].Id() == id
  }

  /** The batch view: all frontends of all Gateways in the store. */
  ghost function AllFrontends(lib: Library, store: map<NamespacedName, Gateway>): FrontendMap
    requires GatewayStore(store)
  {
    var keys := set id, key | id in store && key in FrontendsOf(lib, store[id]) :: key;
    assert forall key :: key in keys ==> key.Gateway() in store && key in FrontendsOf(lib, store[key.Gateway()]) by {
      forall id, key | id in store && key in FrontendsOf(lib, store[id])
        ensures key.Gateway() == id
      {
        FrontendBelongs(lib, store[id], key);
      }
    }
    map key | key in keys :: FrontendsOf(lib, store[key.Gateway()])[key]
  }

  /** Each frontend comes from the one Gateway its key names. */
  lemma AllFrontendsMeaning(lib: Library, store: map<NamespacedName, Gateway>, key: FrontendKey)
    requires GatewayStore(store)
    ensures key in AllFrontends(lib, store) <==>
            key.Gateway() in store && key in FrontendsOf(lib, store[key.Gateway()])
    ensures key in AllFrontends(lib, store) ==>
            AllFrontends(lib, store)[key] == FrontendsOf(lib, store[key.Gateway()])[key]
  {
    if key in AllFrontends(lib, store) {
      var id :| id in store && key in FrontendsOf(lib, store[id]);
      FrontendBelongs(lib, store[id], key);
    }
  }

  // ---- EndpointSlices ---------------------------------------------------------

  /** `frontendKeyForEndpointSlice`. */
  function FrontendKeyForSlice(slice: EndpointSlice): Option<FrontendKey> {
    if Label(slice.labels, LABEL_MANAGED_BY, "") != MANAGED_BY_VALUE then None
    else
      var name := Label(slice.labels, GATEWAY_NAME_LABEL, "");
      var labelled := Label(slice.labels, GATEWAY_NAMESPACE_LABEL, "");
      var namespace := if labelled == "" then slice.namespace else labelled;
      if name == "" || namespace == "" then None
      else Some(FrontendKey(namespace, name, Label(slice.labels, GATEWAY_LISTENER_LABEL, "")))
  }

  /** A slice belongs to the frontend its labels name; without a namespace label, in its own namespace. */
  lemma FrontendKeyMeaning(slice: EndpointSlice, key: FrontendKey)
    ensures FrontendKeyForSlice(slice) == Some(key) <==> LabelledWith(slice, key.Gateway(), key.listener)
  {
  }

  function ParsedEndpoint(lib: Library, address: string, port: int): seq<Endpoint> {
    match lib.parseIPv4(address)
    case None => []
    case Some(a) => [Endpoint(Dotted(a), port)]
  }

  function AddressesUpTo(lib: Library, addresses: seq<string>, port: int, n: nat): seq<Endpoint>
    requires n <= |addresses|
  {
    if n == 0 then []
    else AddressesUpTo(lib, addresses, port, n - 1) + ParsedEndpoint(lib, addresses[n - 1], port)
  }

  predicate IsReady(endpoint: SliceEndpoint) {
    endpoint.ready.None? || endpoint.ready.value
  }

  function ReadyPart(lib: Library, endpoint: SliceEndpoint, port: int): seq<Endpoint> {
    if IsReady(endpoint) then AddressesUpTo(lib, endpoint.addresses, port, |endpoint.addresses|) else []
  }

  function EndpointsUpTo(lib: Library, endpoints: seq<SliceEndpoint>, port: int, n: nat): seq<Endpoint>
    requires n <= |endpoints|
  {
    if n == 0 then [] else EndpointsUpTo(lib, endpoints, port, n - 1) + ReadyPart(lib, endpoints[n - 1], port)
  }

  predicate IsTCP(port: SlicePort) {
    port.port.Some? && (port.protocol.None? || port.protocol.value == "TCP")
  }

  function PortPart(lib: Library, slice: EndpointSlice, port: SlicePort): seq<Endpoint> {
    if IsTCP(port) then EndpointsUpTo(lib, slice.endpoints, port.port.value, |slice.endpoints|) else []
  }

  function PortsUpTo(lib: Library, slice: EndpointSlice, n: nat): seq<Endpoint>
    requires n <= |slice.ports|
  {
    if n == 0 then [] else PortsUpTo(lib, slice, n - 1) + PortPart(lib, slice, slice.ports[n - 1])
  }

  /** What one slice adds to the endpoints of `key`. */
  function Contribution(lib: Library, slice: EndpointSlice, key: FrontendKey): seq<Endpoint> {
    if FrontendKeyForSlice(slice) != Some(key) || slice.addressType != "IPv4" then []
    else PortsUpTo(lib, slice, |slice.ports|)
  }

  // ---- How often a slice contributes an endpoint ----------------------------------------

  predicate ReadsAs(lib: Library, address: string, port: int, e: Endpoint) {
    lib.parseIPv4(address).Some? && e == Endpoint(Dotted(lib.parseIPv4(address).value), port)
  }

  function ParsedParts(lib: Library, addresses: seq<string>, port: int): nat -> seq<Endpoint> {
    (k: nat) => if k < |addresses| then ParsedEndpoint(lib, addresses[k], port) else []
  }

  lemma {:induction false} AddressesJoined(lib: Library, addresses: seq<string>, port: int, n: nat)
    requires n <= |addresses|
    ensures AddressesUpTo(lib, addresses, port, n) == Joined(ParsedParts(lib, addresses, port), n)
  {
    if n > 0 {
      AddressesJoined(lib, addresses, port, n - 1);
    }
  }

  /** The positions of the addresses that read as `e` on this port. */
  function AddressHits(lib: Library, addresses: seq<string>, port: int, e: Endpoint): set<nat> {
    set k: nat | k < |addresses| && ReadsAs(lib, addresses[k], port, e)
  }

  lemma ParsedCount(lib: Library, address: string, port: int, e: Endpoint)
    ensures multiset(ParsedEndpoint(lib, address, port))[e] == if ReadsAs(lib, address, port, e) then 1 else 0
  {
  }

  lemma AddressesCount(lib: Library, addresses: seq<string>, port: int, e: Endpoint)
    ensures multiset(AddressesUpTo(lib, addresses, port, |addresses|))[e] == |AddressHits(lib, addresses, port, e)|
  {
    var n, parts := |addresses|, ParsedParts(lib, addresses, port);
    var hit := (k: nat) => k < n && ReadsAs(lib, addresses[k], port, e);
    var sizes := (k: nat) => if hit(k) then 1 else 0;
    forall k: nat | k < n
      ensures multiset(parts(k))[e] == sizes(k)
    {
      ParsedCount(lib, addresses[k], port, e);
    }
    AddressesJoined(lib, addresses, port, n);
    JoinedTotal(parts, sizes, n, e);
    PositionsTotal(hit, sizes, n);
    assert AddressHits(lib, addresses, port, e) == Positions(hit, n);
  }

  function ReadyHits(lib: Library, endpoints: seq<SliceEndpoint>, port: int, e: Endpoint): nat -> set<nat> {
    (j: nat) =>
      if j < |endpoints| && IsReady(endpoints[j])
      then AddressHits(lib, endpoints[j].addresses, port, e) else {}
  }

  function PortHits(lib: Library, slice: EndpointSlice, e: Endpoint): nat -> set<(nat, nat)> {
    (i: nat) =>
      if i < |slice.ports| && IsTCP(slice.ports[i])
      then Tagged(ReadyHits(lib, slice.endpoints, slice.ports[i].port.value, e), |slice.endpoints|) else {}
  }

  /** The (port, endpoint, address) positions of a slice that give `e`. */
  function SliceHits(lib: Library, slice: EndpointSlice, e: Endpoint): set<(nat, (nat, nat))> {
    Tagged(PortHits(lib, slice, e), |slice.ports|)
  }

  function ReadyParts(lib: Library, endpoints: seq<SliceEndpoint>, port: int): nat -> seq<Endpoint> {
    (j: nat) => if j < |endpoints| then ReadyPart(lib, endpoints[j], port) else []
  }

  lemma {:induction false} EndpointsJoined(lib: Library, endpoints: seq<SliceEndpoint>, port: int, n: nat)
    requires n <= |endpoints|
    ensures EndpointsUpTo(lib, endpoints, port, n) == Joined(ReadyParts(lib, endpoints, port), n)
  {
    if n > 0 {
      var parts := ReadyParts(lib, endpoints, port);
      EndpointsJoined(lib, endpoints, port, n - 1);
      assert parts(n - 1) == ReadyPart(lib, endpoints[n - 1], port);
      assert Joined(parts, n) == Joined(parts, n - 1) + parts(n - 1);
    }
  }

  lemma ReadyPartCount(lib: Library, endpoints: seq<SliceEndpoint>, port: int, j: nat, e: Endpoint)
    requires j < |endpoints|
    ensures multiset(ReadyParts(lib, endpoints, port)(j))[e] == |ReadyHits(lib, endpoints, port, e)(j)|
  {
    AddressesCount(lib, endpoints[j].addresses, port, e);
  }

  lemma EndpointsCount(lib: Library, endpoints: seq<SliceEndpoint>, port: int, e: Endpoint)
    ensures multiset(EndpointsUpTo(lib, endpoints, port, |endpoints|))[e]
            == |Tagged(ReadyHits(lib, endpoints, port, e), |endpoints|)|
  {
    var n, parts, hits := |endpoints|, ReadyParts(lib, endpoints, port), ReadyHits(lib, endpoints, port, e);
    forall j: nat | j < n
      ensures multiset(parts(j))[e] == |hits(j)|
    {
      ReadyPartCount(lib, endpoints, port, j, e);
    }
    EndpointsJoined(lib, endpoints, port, n);
    JoinedHits(parts, hits, n, e);
  }

  function PortParts(lib: Library, slice: EndpointSlice): nat -> seq<Endpoint> {
    (i: nat) => if i < |slice.ports| then PortPart(lib, slice, slice.ports[i]) else []
  }

  lemma {:induction false} PortsJoined(lib: Library, slice: EndpointSlice, n: nat)
    requires n <= |slice.ports|
    ensures PortsUpTo(lib, slice, n) == Joined(PortParts(lib, slice), n)
  {
    if n > 0 {
      var parts, last := PortParts(lib, slice), PortPart(lib, slice, slice.ports[n - 1]);
      assert PortsUpTo(lib, slice, n) == PortsUpTo(lib, slice, n - 1) + last;
      assert Joined(parts, n) == Joined(parts, n - 1) + last by {
        assert parts(n - 1) == last;
      }
      PortsJoined(lib, slice, n - 1);
    }
  }

  lemma PortPartCount(lib: Library, slice: EndpointSlice, i: nat, e: Endpoint)
    requires i < |slice.ports|
    ensures multiset(PortParts(lib, slice)(i))[e] == |PortHits(lib, slice, e)(i)|
  {
    if IsTCP(slice.ports[i]) {
      EndpointsCount(lib, slice.endpoints, slice.ports[i].port.value, e);
    }
  }

  lemma PortsCount(lib: Library, slice: EndpointSlice, e: Endpoint)
    ensures multiset(PortsUpTo(lib, slice, |slice.ports|))[e] == |SliceHits(lib, slice, e)|
  {
    var n, parts, hits := |slice.ports|, PortParts(lib, slice), PortHits(lib, slice, e);
    forall i: nat | i < n
      ensures multiset(parts(i))[e] == |hits(i)|
    {
      PortPartCount(lib, slice, i, e);
    }
    PortsJoined(lib, slice, n);
    JoinedHits(parts, hits, n, e);
  }

  lemma ReadsMeaning(lib: Library, address: string, port: int, e: Endpoint)
    ensures ReadsAs(lib, address, port, e) <==>
            e.port == port && ReadQuad(e.ip).Some? && lib.parseIPv4(address) == ReadQuad(e.ip)
  {
    var read := lib.parseIPv4(address);
    if read.Some? {
      QuadExactly(e.ip, read.value);
    }
  }

  lemma HitsMembers(lib: Library, slice: EndpointSlice, e: Endpoint, i: nat, j: nat, k: nat)
    ensures (i, (j, k)) in SliceHits(lib, slice, e) <==>
            && i < |slice.ports| && IsTCP(slice.ports[i]) && j < |slice.endpoints| && IsReady(slice.endpoints[j])
            && k < |slice.endpoints[j].addresses|
            && ReadsAs(lib, slice.endpoints[j].addresses[k], slice.ports[i].port.value, e)
  {
  }

  /** Which ports, endpoints and addresses of a slice give an endpoint. */
  lemma HitsMeaning(lib: Library, slice: EndpointSlice, e: Endpoint, i: nat, j: nat, k: nat)
    ensures (i, (j, k)) in SliceHits(lib, slice, e) <==>
            && i < |slice.ports| && slice.ports[i].port == Some(e.port) && slice.ports[i].protocol in [None, Some("TCP")]
            && j < |slice.endpoints| && slice.endpoints[j].ready in [None, Some(true)]
            && k < |slice.endpoints[j].addresses|
            && ReadQuad(e.ip).Some? && lib.parseIPv4(slice.endpoints[j].addresses[k]) == ReadQuad(e.ip)
  {
    HitsMembers(lib, slice, e, i, j, k);
    assert i < |slice.ports| && slice.ports[i].port.Some? ==>
        (IsTCP(slice.ports[i]) <==> slice.ports[i].protocol in [None, Some("TCP")]);
    assert j < |slice.endpoints| ==> (IsReady(slice.endpoints[j]) <==> slice.endpoints[j].ready in [None, Some(true)]);
    if i < |slice.ports| && IsTCP(slice.ports[i]) && j < |slice.endpoints| && k < |slice.endpoints[j].addresses| {
      ReadsMeaning(lib, slice.endpoints[j].addresses[k], slice.ports[i].port.value, e);
    }
  }

  /**
   A slice contributes an endpoint to its frontend once for every TCP port, ready endpoint and address of it
   that make that endpoint, and nothing to any other frontend.
   */
  lemma ContributionCounts(lib: Library, slice: EndpointSlice, key: FrontendKey, e: Endpoint)
    ensures multiset(Contribution(lib, slice, key))[e] ==
            if LabelledWith(slice, key.Gateway(), key.listener) && slice.addressType == "IPv4" then |SliceHits(lib, slice, e)|
            else 0
  {
    FrontendKeyMeaning(slice, key);
    PortsCount(lib, slice, e);
  }

  // ---- The batch view -------------------------------------------------------------------

  function Gather(
    lib: Library, store: map<NamespacedName, EndpointSlice>, order: seq<NamespacedName>, key: FrontendKey)
    : seq<Endpoint>
    requires forall id :: id in order ==> id in store
  {
    if order == [] then []
    else
      var n := |order| - 1;
      Gather(lib, store, order[..n], key) + Contribution(lib, store[order[n]], key)
  }

  lemma GatherGrows(
    lib: Library, store: map<NamespacedName, EndpointSlice>, order: seq<NamespacedName>, id: NamespacedName, key: FrontendKey)
    requires id in store && forall x :: x in order ==> x in store
    ensures Gather(lib, store, order + [id], key) == Gather(lib, store, order, key) + Contribution(lib, store[id], key)
  {
    assert (order + [id])[..|order|] == order;
  }

  /** The batch view: all ready IPv4 TCP endpoints of `key`, sorted. */
  ghost function EndpointsFor(lib: Library, store: map<NamespacedName, EndpointSlice>, key: FrontendKey): seq<Endpoint> {
    Sort(ENDPOINT_STRING, Gather(lib, store, Enumeration(store.Keys), key))
  }

  ghost function ContributionBag(lib: Library, store: map<NamespacedName, EndpointSlice>, key: FrontendKey)
    : NamespacedName -> multiset<Endpoint>
  {
    id => if id in store then multiset(Contribution(lib, store[id], key)) else multiset{}
  }

  lemma {:induction false} GatherIsBagSum(
    lib: Library, store: map<NamespacedName, EndpointSlice>, order: seq<NamespacedName>, key: FrontendKey)
    requires forall id :: id in order ==> id in store
    ensures multiset(Gather(lib, store, order, key)) == BagSum(ContributionBag(lib, store, key), order)
  {
    if order != [] {
      GatherIsBagSum(lib, store, order[..|order| - 1], key);
    }
  }

  /** The gathered endpoints do not depend on the order in which the slices are visited. */
  lemma GatherOrderFree(
    lib: Library, store: map<NamespacedName, EndpointSlice>, a: seq<NamespacedName>, b: seq<NamespacedName>, key: FrontendKey)
    requires forall id :: id in a || id in b ==> id in store
    requires multiset(a) == multiset(b)
    ensures multiset(Gather(lib, store, a, key)) == multiset(Gather(lib, store, b, key))
  {
    GatherIsBagSum(lib, store, a, key);
    GatherIsBagSum(lib, store, b, key);
    BagSumOrderFree(ContributionBag(lib, store, key), a, b);
  }

  ghost predicate AllIPv4(s: seq<Endpoint>) {
    forall e :: e in s ==> e.IsIPv4()
  }

  lemma {:induction false} AddressesAreIPv4(lib: Library, addresses: seq<string>, port: int, n: nat)
    requires n <= |addresses|
    ensures AllIPv4(AddressesUpTo(lib, addresses, port, n))
  {
    if n > 0 {
      AddressesAreIPv4(lib, addresses, port, n - 1);
    }
  }

  lemma {:induction false} EndpointsAreIPv4(lib: Library, endpoints: seq<SliceEndpoint>, port: int, n: nat)
    requires n <= |endpoints|
    ensures AllIPv4(EndpointsUpTo(lib, endpoints, port, n))
  {
    if n > 0 {
      EndpointsAreIPv4(lib, endpoints, port, n - 1);
      AddressesAreIPv4(lib, endpoints[n - 1].addresses, port, |endpoints[n - 1].addresses|);
    }
  }

  lemma {:induction false} PortsAreIPv4(lib: Library, slice: EndpointSlice, n: nat)
    requires n <= |slice.ports|
    ensures AllIPv4(PortsUpTo(lib, slice, n))
  {
    if n > 0 {
      PortsAreIPv4(lib, slice, n - 1);
      if IsTCP(slice.ports[n - 1]) {
        EndpointsAreIPv4(lib, slice.endpoints, slice.ports[n - 1].port.value, |slice.endpoints|);
      }
    }
  }

  lemma {:induction false} GatherIsIPv4(
    lib: Library, store: map<NamespacedName, EndpointSlice>, order: seq<NamespacedName>, key: FrontendKey)
    requires forall id :: id in order ==> id in store
    ensures AllIPv4(Gather(lib, store, order, key))
  {
    if order != [] {
      var n := |order| - 1;
      GatherIsIPv4(lib, store, order[..n], key);
      var slice := store[order[n]];
      PortsAreIPv4(lib, slice, |slice.ports|);
    }
  }

  /** Visiting the slices in any order and sorting with any sort yields the batch view. */
  lemma EndpointsDetermined(
    lib: Library, store: map<NamespacedName, EndpointSlice>, order: seq<NamespacedName>, key: FrontendKey, sorted: seq<Endpoint>)
    requires Enumerates(order, store.Keys)
    requires multiset(sorted) == multiset(Gather(lib, store, order, key)) && SortedBy(ENDPOINT_STRING, sorted)
    ensures sorted == EndpointsFor(lib, store, key)
  {
    var canonical := Enumeration(store.Keys);
    EnumerationBag(order, store.Keys);
    EnumerationBag(canonical, store.Keys);
    GatherOrderFree(lib, store, order, canonical, key);
    SortIsSorted(ENDPOINT_STRING, Gather(lib, store, canonical, key));
    GatherIsIPv4(lib, store, order, key);
    MultisetMembers(sorted, Gather(lib, store, order, key));
    assert KeyDetermines(ENDPOINT_STRING, sorted) by {
      forall x, y | x in sorted && y in sorted && ENDPOINT_STRING(x) == ENDPOINT_STRING(y)
        ensures x == y
      {
        EndpointStringInjective(x, y);
      }
    }
    SortedUnique(ENDPOINT_STRING, sorted, EndpointsFor(lib, store, key));
  }

  function Lookup(endpoints: EndpointsMap, key: FrontendKey): seq<Endpoint> {
    if key in endpoints then endpoints[key] else []
  }

  /** The batch view as a map: only frontends with at least one endpoint have an entry. */
  ghost function AllEndpoints(lib: Library, store: map<NamespacedName, EndpointSlice>): EndpointsMap {
    var keys := set id | id in store && FrontendKeyForSlice(store[id]).Some? :: FrontendKeyForSlice(store[id]).value;
    map key | key in keys && EndpointsFor(lib, store, key) != [] :: EndpointsFor(lib, store, key)
  }

  lemma {:induction false} UnclaimedGathersNothing(
    lib: Library, store: map<NamespacedName, EndpointSlice>, order: seq<NamespacedName>, key: FrontendKey)
    requires forall id :: id in order ==> id in store
    requires forall id :: id in order ==> FrontendKeyForSlice(store[id]) != Some(key)
    ensures Gather(lib, store, order, key) == []
  {
    if order != [] {
      UnclaimedGathersNothing(lib, store, order[..|order| - 1], key);
    }
  }

  lemma AllEndpointsMeaning(lib: Library, store: map<NamespacedName, EndpointSlice>, key: FrontendKey)
    ensures Lookup(AllEndpoints(lib, store), key) == EndpointsFor(lib, store, key)
  {
    if forall id :: id in store ==> FrontendKeyForSlice(store[id]) != Some(key) {
      UnclaimedGathersNothing(lib, store, Enumeration(store.Keys), key);
    } else {
      var id :| id in store && FrontendKeyForSlice(store[id]) == Some(key);
    }
  }
}
