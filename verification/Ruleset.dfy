/** The ruleset compiler: frontends and endpoints to chains (internal/agent/nftables/proxier.go). */
module Ruleset {
  import opened Wrappers
  import opened Text
  import opened Sorting
  import opened Addresses
  import opened Objects
  import opened AgentState
  import opened Nftables

  datatype BackendChain = BackendChain(chainName: string, ip: Addr, port: nat)
  datatype ServiceChain = ServiceChain(
    serviceKey: string, chainName: string, dispatchMapName: string, clusterIP: Addr, servicePort: nat,
    backends: seq<BackendChain>)
  datatype BaseChain = BaseChain(name: string, hook: Hook)
  datatype RulesetSpec = RulesetSpec(tableName: string, baseChains: seq<BaseChain>, services: seq<ServiceChain>)

  const PREROUTING_CHAIN := "prerouting"
  const OUTPUT_CHAIN := "output"
  const DEFAULT_BASE_CHAINS := [BaseChain(PREROUTING_CHAIN, Prerouting), BaseChain(OUTPUT_CHAIN, Output)]

  function ToUint16Port(port: int): (r: Option<nat>)
    ensures r.Some? <==> 0 < port <= 65535
    ensures r.Some? ==> r.value == port
  {
    if port <= 0 || port > 65535 then None else Some(port)
  }

  function ChainNameFor(lib: Library, key: string): string {
    "svc_" + lib.sha256Hex(key)
  }

  function DispatchMapNameFor(serviceChainName: string): string
    requires |serviceChainName| >= 4
  {
    "map_" + serviceChainName[4..]
  }

  function BackendChainNameFor(serviceChainName: string, index: nat): string {
    serviceChainName + "_be" + Itoa(index)
  }

  /** The addresses and ports of the endpoints that can be programmed, in order. */
  function UsableBackends(lib: Library, endpoints: seq<Endpoint>): seq<(Addr, nat)> {
    if endpoints == [] then []
    else
      var n := |endpoints| - 1;
      var ip, port := lib.parseIPv4(endpoints[n].ip), ToUint16Port(endpoints[n].port);
      UsableBackends(lib, endpoints[..n]) + (if ip.Some? && port.Some? then [(ip.value, port.value)] else [])
  }

  function NamedBackends(serviceChainName: string, usable: seq<(Addr, nat)>): (r: seq<BackendChain>)
    ensures |r| == |usable|
    ensures forall i :: 0 <= i < |r| ==> r[i] == BackendChain(BackendChainNameFor(serviceChainName, i), usable[i].0, usable[i].1)
  {
    seq(|usable|, i requires 0 <= i < |usable| =>
      BackendChain(BackendChainNameFor(serviceChainName, i), usable[i].0, usable[i].1))
  }

  function BackendChains(lib: Library, serviceChainName: string, endpoints: seq<Endpoint>): seq<BackendChain> {
    NamedBackends(serviceChainName, UsableBackends(lib, endpoints))
  }

  /** The service chain of one frontend, if it has a usable port and backend. */
  function ServiceFor(lib: Library, key: FrontendKey, frontend: Frontend, endpoints: seq<Endpoint>): Option<ServiceChain> {
    var port := ToUint16Port(frontend.port);
    var name := ChainNameFor(lib, key.String());
    var backends := BackendChains(lib, name, endpoints);
    if port.None? || |backends| == 0 then None
    else Some(ServiceChain(key.String(), name, DispatchMapNameFor(name), frontend.address, port.value, backends))
  }

  function ServicesFor(lib: Library, frontends: FrontendMap, endpoints: EndpointsMap, keys: seq<FrontendKey>): seq<ServiceChain>
    requires forall key :: key in keys ==> key in frontends
  {
    if keys == [] then []
    else
      var n := |keys| - 1;
      var service := ServiceFor(lib, keys[n], frontends[keys[n]], Lookup(endpoints, keys[n]));
      ServicesFor(lib, frontends, endpoints, keys[..n]) + (if service.Some? then [service.value] else [])
  }

  ghost function KeyOrder(frontends: FrontendMap): (keys: seq<FrontendKey>)
    ensures forall key :: key in keys <==> key in frontends
  {
    SortedKeysEnumerates(FRONTEND_KEY_STRING, frontends.Keys);
    SortedKeys(FRONTEND_KEY_STRING, frontends.Keys)
  }

  /** The ruleset as a function of the two snapshots alone. */
  ghost function Compile(lib: Library, tableName: string, frontends: FrontendMap, endpoints: EndpointsMap): RulesetSpec {
    RulesetSpec(tableName, DEFAULT_BASE_CHAINS, ServicesFor(lib, frontends, endpoints, KeyOrder(frontends)))
  }

  method BackendChainSpecsForEndpoints(lib: Library, serviceChainName: string, endpoints: seq<Endpoint>)
    returns (backends: seq<BackendChain>)
    ensures backends == BackendChains(lib, serviceChainName, endpoints)
  {
    backends := [];
    for i := 0 to |endpoints|
      invariant backends == BackendChains(lib, serviceChainName, endpoints[..i])
    {
      assert endpoints[..i + 1][..i] == endpoints[..i];
      var backendIP := lib.parseIPv4(endpoints[i].ip);
      var backendPort := ToUint16Port(endpoints[i].port);
      if backendPort.None? || backendIP.None? {
        continue;
      }
      backends := backends +
        [BackendChain(BackendChainNameFor(serviceChainName, |backends|), backendIP.value, backendPort.value)];
    }
    assert endpoints[..|endpoints|] == endpoints;
  }

  /** The loop body of `desiredRulesetLocked`. */
  method ServiceForFrontend(lib: Library, key: FrontendKey, frontend: Frontend, endpoints: seq<Endpoint>)
    returns (service: Option<ServiceChain>)
    ensures service == ServiceFor(lib, key, frontend, endpoints)
  {
    var servicePort := ToUint16Port(frontend.port);
    if servicePort.None? {
      return None;
    }
    var serviceKey := key.String();
    var serviceChainName := ChainNameFor(lib, serviceKey);
    var backends := BackendChainSpecsForEndpoints(lib, serviceChainName, endpoints);
    if |backends| == 0 {
      return None;
    }
    return Some(ServiceChain(serviceKey, serviceChainName, DispatchMapNameFor(serviceChainName),
                  frontend.address, servicePort.value, backends));
  }

  lemma ServicesForGrows(lib: Library, frontends: FrontendMap, endpoints: EndpointsMap, keys: seq<FrontendKey>, i: nat)
    requires i < |keys| && forall key :: key in keys ==> key in frontends
    ensures var service := ServiceFor(lib, keys[i], frontends[keys[i]], Lookup(endpoints, keys[i]));
            ServicesFor(lib, frontends, endpoints, keys[..i + 1]) ==
            ServicesFor(lib, frontends, endpoints, keys[..i]) + (if service.Some? then [service.value] else [])
  {
    assert keys[..i + 1][..i] == keys[..i];
  }

  /** The loop of `desiredRulesetLocked` over the sorted keys. */
  method ServicesForKeys(lib: Library, frontends: FrontendMap, endpoints: EndpointsMap, keys: seq<FrontendKey>)
    returns (services: seq<ServiceChain>)
    requires forall key :: key in keys ==> key in frontends
    ensures services == ServicesFor(lib, frontends, endpoints, keys)
  {
    services := [];
    for i := 0 to |keys|
      invariant services == ServicesFor(lib, frontends, endpoints, keys[..i])
    {
      ServicesForGrows(lib, frontends, endpoints, keys, i);
      var service := ServiceForFrontend(lib, keys[i], frontends[keys[i]], Lookup(endpoints, keys[i]));
      if service.Some? {
        services := services + [service.value];
      }
    }
    assert keys[..|keys|] == keys;
  }

  /** Any sorted permutation of any enumeration of the frontends is the one key order. */
  lemma KeyOrderDetermined(frontends: FrontendMap, order: seq<FrontendKey>, keys: seq<FrontendKey>)
    requires Enumerates(order, frontends.Keys)
    requires multiset(keys) == multiset(order) && SortedBy(FRONTEND_KEY_STRING, keys)
    ensures keys == KeyOrder(frontends)
  {
    forall x, y | x in frontends.Keys && y in frontends.Keys && FRONTEND_KEY_STRING(x) == FRONTEND_KEY_STRING(y)
      ensures x == y
    {
      FrontendKeyStringInjective(x, y);
    }
    SortedKeysUnique(FRONTEND_KEY_STRING, frontends.Keys, order, keys);
  }

  /** `desiredRulesetLocked`, from the two snapshots: map order and sort stability leave no trace. */
  method DesiredRuleset(lib: Library, tableName: string, frontends: FrontendMap, endpoints: EndpointsMap)
    returns (spec: RulesetSpec)
    ensures spec == Compile(lib, tableName, frontends, endpoints)
  {
    var order := AnyOrder(frontends.Keys);
    var keys := SortFunc(FRONTEND_KEY_STRING, order);
    KeyOrderDetermined(frontends, order, keys);
    var services := ServicesForKeys(lib, frontends, endpoints, keys);
    return RulesetSpec(tableName, DEFAULT_BASE_CHAINS, services);
  }

  // ---- Names ------------------------------------------------------------------

  /** The digest has eight bytes in hexadecimal and separates the given service keys. */
  ghost predicate HashSeparates(lib: Library, keys: set<string>) {
    && (forall k :: k in keys ==> |lib.sha256Hex(k)| == 16)
    && (forall k, k' :: k in keys && k' in keys && lib.sha256Hex(k) == lib.sha256Hex(k') ==> k == k')
  }

  /** A service's names are derived from one digest, and it has backends. */
  ghost predicate WellNamedService(service: ServiceChain) {
    && |service.chainName| == 20 && service.chainName[..4] == "svc_"
    && service.dispatchMapName == "map_" + service.chainName[4..]
    && 0 < |service.backends|
    && forall j :: 0 <= j < |service.backends| ==>
         service.backends[j].chainName == service.chainName + "_be" + Itoa(j)
  }

  ghost predicate WellNamed(services: seq<ServiceChain>) {
    && (forall s :: s in services ==> WellNamedService(s))
    && (forall i, j :: 0 <= i < j < |services| ==> services[i].chainName != services[j].chainName)
  }

  lemma ServiceIsWellNamed(lib: Library, key: FrontendKey, frontend: Frontend, endpoints: seq<Endpoint>)
    requires |lib.sha256Hex(key.String())| == 16
    ensures var s := ServiceFor(lib, key, frontend, endpoints);
            s.Some? ==> WellNamedService(s.value) && s.value.chainName[4..] == lib.sha256Hex(key.String())
  {
  }

  /** Every compiled service comes from a frontend. */
  ghost predicate Comes(
    lib: Library, frontends: FrontendMap, endpoints: EndpointsMap, keys: seq<FrontendKey>, service: ServiceChain)
    requires forall key :: key in keys ==> key in frontends
  {
    exists key :: key in keys && ServiceFor(lib, key, frontends[key], Lookup(endpoints, key)) == Some(service)
  }

  lemma {:induction false} ServicesCome(
    lib: Library, frontends: FrontendMap, endpoints: EndpointsMap, keys: seq<FrontendKey>, service: ServiceChain)
    requires forall key :: key in keys ==> key in frontends
    requires service in ServicesFor(lib, frontends, endpoints, keys)
    ensures Comes(lib, frontends, endpoints, keys, service)
  {
    var n := |keys| - 1;
    if service in ServicesFor(lib, frontends, endpoints, keys[..n]) {
      ServicesCome(lib, frontends, endpoints, keys[..n], service);
      var key :| key in keys[..n] && ServiceFor(lib, key, frontends[key], Lookup(endpoints, key)) == Some(service);
      assert key in keys;
    } else {
      assert keys[n] in keys;
    }
  }

  /** With separating digests, all names of a compiled ruleset are well formed and distinct. */
  lemma {:induction false} CompiledNames(
    lib: Library, frontends: FrontendMap, endpoints: EndpointsMap, keys: seq<FrontendKey>, strings: set<string>)
    requires forall key :: key in keys ==> key in frontends && key.String() in strings
    requires forall i, j :: 0 <= i < j < |keys| ==> keys[i] != keys[j]
    requires HashSeparates(lib, strings)
    ensures WellNamed(ServicesFor(lib, frontends, endpoints, keys))
  {
    if keys != [] {
      var n := |keys| - 1;
      var before := ServicesFor(lib, frontends, endpoints, keys[..n]);
      CompiledNames(lib, frontends, endpoints, keys[..n], strings);
      assert keys[n] in keys;
      ServiceIsWellNamed(lib, keys[n], frontends[keys[n]], Lookup(endpoints, keys[n]));
      var last := ServiceFor(lib, keys[n], frontends[keys[n]], Lookup(endpoints, keys[n]));
      if last.Some? {
        forall i | 0 <= i < |before|
          ensures before[i].chainName != last.value.chainName
        {
          ServicesCome(lib, frontends, endpoints, keys[..n], before[i]);
          var key :| key in keys[..n] && ServiceFor(lib, key, frontends[key], Lookup(endpoints, key)) == Some(before[i]);
          assert key in keys;
          ServiceIsWellNamed(lib, key, frontends[key], Lookup(endpoints, key));
          if key.String() == keys[n].String() {
            FrontendKeyStringInjective(key, keys[n]);
          }
        }
      }
    }
  }
}
