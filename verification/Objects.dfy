/** The API objects the controller and the agent exchange, reduced to the fields the source reads or writes. */
module Objects {
  import opened Wrappers
  import opened Text
  import opened Addresses

  /** A name the API server has validated: DNS labels, subdomains and label values hold neither separator. */
  type Segment = s: string | '/' !in s && ':' !in s witness ""

  datatype NamespacedName = NamespacedName(namespace: Segment, name: Segment)

  const GATEWAY_CLASS_NAME := "clusterip-gw"
  const MAX_SUPPORTED_LISTENERS := 10
  const MANAGED_BY_VALUE: Segment := "clusterip-gw-controller.grosskur.github.io"
  const LABEL_MANAGED_BY := "endpointslice.kubernetes.io/managed-by"
  const GATEWAY_NAMESPACE_LABEL := "gateway.networking.x-k8s.io/gateway-namespace"
  const GATEWAY_NAME_LABEL := "gateway.networking.x-k8s.io/gateway-name"
  const GATEWAY_LISTENER_LABEL := "gateway.networking.x-k8s.io/gateway-listener"
  const SELECTOR_NAMESPACE_LABEL := "gateway.networking.x-k8s.io/endpoint-selector-namespace"
  const SELECTOR_NAME_LABEL := "gateway.networking.x-k8s.io/endpoint-selector-name"

  const GATEWAY_API_GROUP := "gateway.networking.k8s.io"
  const SELECTOR_API_GROUP := "gateway.networking.x-k8s.io"
  const SELECTOR_KIND := "XEndpointSelector"
  const CONTROLLER_NAME := "grosskur.github.io/clusterip-gw"
  const CONTROLLER_FINALIZER := "grosskur.github.io/clusterip-gw-ip-address-protection"
  const IP_MANAGED_BY_KEY := "ipaddress.kubernetes.io/managed-by"
  const IP_MANAGED_BY_VALUE := "gateway.networking.x-k8s.io"
  const IP_FAMILY_KEY := "ipaddress.kubernetes.io/ip-family"
  const IP_FAMILY_IPV4 := "IPv4"

  datatype RouteNamespaces = RouteNamespaces(from: Option<string>, hasSelector: bool)
  datatype AllowedRoutes = AllowedRoutes(kinds: nat, namespaces: Option<RouteNamespaces>)
  datatype Listener = Listener(name: Segment, port: int, protocol: string, allowedRoutes: Option<AllowedRoutes>)
  datatype GatewaySpec = GatewaySpec(className: string, listeners: seq<Listener>, addresses: seq<string>)

  datatype StatusAddress = StatusAddress(kind: Option<string>, value: string)
  datatype Condition = Condition(kind: string, status: string, reason: string, message: string, generation: int)
  datatype RouteGroupKind = RouteGroupKind(group: Option<string>, kind: string)
  datatype ListenerStatus = ListenerStatus(
    name: Segment, supportedKinds: seq<RouteGroupKind>, attachedRoutes: int, conditions: seq<Condition>)
  datatype GatewayStatus = GatewayStatus(
    addresses: seq<StatusAddress>, conditions: seq<Condition>, listeners: seq<ListenerStatus>)

  datatype Gateway = Gateway(
    namespace: Segment, name: Segment, generation: int, deleting: bool, finalizers: seq<string>,
    spec: GatewaySpec, status: GatewayStatus)
  {
    function Id(): NamespacedName {
      NamespacedName(namespace, name)
    }
  }

  datatype GatewayClass = GatewayClass(name: string, controllerName: string)

  datatype ParentRef = ParentRef(
    group: Option<string>, kind: Option<string>, namespace: Option<Segment>, name: string,
    sectionName: Option<string>, port: Option<int>)
  datatype BackendRef = BackendRef(
    group: Option<string>, kind: Option<string>, namespace: Option<Segment>, name: string, port: Option<int>)
  datatype Route = Route(namespace: Segment, name: Segment, parentRefs: seq<ParentRef>, rules: seq<seq<BackendRef>>) {
    function Id(): NamespacedName {
      NamespacedName(namespace, name)
    }
  }

  /** `selector` stands for the serialized label selector; see `Library`. */
  datatype Selector = Selector(
    namespace: Segment, name: Segment, generation: int, selector: string, conditions: seq<Condition>)
  {
    function Id(): NamespacedName {
      NamespacedName(namespace, name)
    }
  }

  datatype PodCondition = PodCondition(kind: string, status: string)
  datatype Pod = Pod(
    namespace: Segment, name: Segment, uid: string, deleting: bool, ip: string, nodeName: string,
    conditions: seq<PodCondition>, labels: map<string, string>)

  datatype SlicePort = SlicePort(protocol: Option<string>, port: Option<int>)
  datatype PodReference = PodReference(namespace: string, name: string, uid: string)
  datatype SliceEndpoint = SliceEndpoint(
    addresses: seq<string>, ready: Option<bool>, target: Option<PodReference>, nodeName: Option<string>)
  /** `annotations` stands for all metadata that the controller neither compares nor sets. */
  datatype EndpointSlice = EndpointSlice(
    namespace: Segment, name: Segment, labels: map<string, Segment>, owners: seq<NamespacedName>,
    addressType: string, ports: seq<SlicePort>, endpoints: seq<SliceEndpoint>, annotations: string)
  {
    function Id(): NamespacedName {
      NamespacedName(namespace, name)
    }
  }

  datatype ParentReference = ParentReference(group: string, resource: string, namespace: Segment, name: Segment)
  datatype IPAddress = IPAddress(labels: map<string, string>, parent: Option<ParentReference>)

  /** Four digest bytes in hexadecimal. */
  type Hex8 = s: Segment | |s| == 8 witness "00000000"

  type ValidPrefix = p: Prefix | p.Valid() witness Prefix([0, 0, 0, 0], 0)

  datatype CIDRCondition = CIDRCondition(kind: string, status: string)
  datatype ServiceCIDR = ServiceCIDR(deleting: bool, conditions: seq<CIDRCondition>, cidrs: seq<string>)

  /** Code outside this repository: IP text parsing, label selectors and digests. */
  datatype Library = Library(
    parseIPv4: string -> Option<Addr>,
    parsePrefixIPv4: string -> Option<ValidPrefix>,
    selectorValid: string -> bool,
    selectorMatches: (string, map<string, string>) -> bool,
    sha1Prefix: string -> Hex8,
    sha256Hex: string -> string)
  {
    /** `net.ParseIP` reads dotted quads; of other texts nothing is assumed. */
    ghost predicate ReadsDottedQuads() {
      forall s :: ReadQuad(s).Some? ==> parseIPv4(s) == ReadQuad(s)
    }

    /** No address text holds a NUL. */
    ghost predicate RejectsNul() {
      forall s :: '\0' in s ==> parseIPv4(s) == None
    }
  }

  /** The value of an optional text field, where nil and empty both mean the default. */
  function OrDefault(field: Option<string>, default: string): string {
    if field.Some? && field.value != "" then field.value else default
  }

  function NamespaceOr(field: Option<Segment>, default: Segment): Segment {
    if field.Some? && field.value != "" then field.value else default
  }

  function Label<V>(labels: map<string, V>, key: string, default: V): V {
    if key in labels then labels[key] else default
  }

  /** `namespacedKey`, also the string form of `types.NamespacedName`. */
  function NamespacedKey(namespace: string, name: string): string {
    namespace + "/" + name
  }

  function KeyOf(id: NamespacedName): string {
    NamespacedKey(id.namespace, id.name)
  }

  lemma NamespacedKeyInjective(ns: Segment, name: string, ns': Segment, name': string)
    requires NamespacedKey(ns, name) == NamespacedKey(ns', name')
    ensures ns == ns' && name == name'
  {
    CutUnique(ns, name, '/', ns', name');
  }

  function SplitNamespacedKey(key: string): Option<(string, string)> {
    var parts := SplitAt(key, '/');
    if |parts| != 2 || parts[0] == "" || parts[1] == "" then None else Some((parts[0], parts[1]))
  }

  /** A work-queue key reads back as the object it was made from, exactly when neither part is empty. */
  lemma KeyRoundTrip(id: NamespacedName)
    ensures SplitNamespacedKey(KeyOf(id)) ==
            if id.namespace == "" || id.name == "" then None else Some((id.namespace, id.name))
  {
    SplitJoin(id.namespace, id.name, '/');
    SplitWhole(id.name, '/');
  }
}
