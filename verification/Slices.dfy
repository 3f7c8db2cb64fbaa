/** The EndpointSlices a selector asks for (internal/controller/endpointselector_reconcile.go). */
module Slices {
  import opened Wrappers
  import opened Text
  import opened Sorting
  import opened Objects
  import opened ApiMeaning
  import opened Bindings

  // ---- Endpoints of Pods ------------------------------------------------------------

  predicate FirstReadyIs(conditions: seq<PodCondition>, i: nat)
    requires i < |conditions|
  {
    conditions[i].kind == "Ready" && forall j :: 0 <= j < i ==> conditions[j].kind != "Ready"
  }

  /** The first Ready condition decides. */
  predicate Ready(pod: Pod) {
    exists i :: 0 <= i < |pod.conditions| && FirstReadyIs(pod.conditions, i) && pod.conditions[i].status == "True"
  }

  method PodReady(pod: Pod) returns (ready: bool)
    ensures ready <==> Ready(pod)
  {
    for i := 0 to |pod.conditions|
      invariant forall j :: 0 <= j < i ==> pod.conditions[j].kind != "Ready"
    {
      if pod.conditions[i].kind == "Ready" {
        assert FirstReadyIs(pod.conditions, i);
        return pod.conditions[i].status == "True";
      }
    }
    return false;
  }

  /** A Pod that may receive traffic. */
  predicate Serving(lib: Library, pod: Pod) {
    pod.namespace != "" && pod.name != "" && !pod.deleting && Ready(pod) && lib.parseIPv4(pod.ip).Some?
  }

  /** `endpointForPod`, where it answers. */
  function EndpointOf(pod: Pod): SliceEndpoint {
    SliceEndpoint([pod.ip], Some(true), Some(PodReference(pod.namespace, pod.name, pod.uid)),
      if pod.nodeName == "" then None else Some(pod.nodeName))
  }

  method EndpointForPod(lib: Library, pod: Pod) returns (endpoint: Option<SliceEndpoint>)
    ensures endpoint == if Serving(lib, pod) then Some(EndpointOf(pod)) else None
  {
    if pod.namespace == "" || pod.name == "" || pod.deleting {
      return None;
    }
    var ready := PodReady(pod);
    if !ready || lib.parseIPv4(pod.ip).None? {
      return None;
    }
    var nodeName := None;
    if pod.nodeName != "" {
      nodeName := Some(pod.nodeName);
    }
    return Some(SliceEndpoint([pod.ip], Some(true), Some(PodReference(pod.namespace, pod.name, pod.uid)), nodeName));
  }

  /** What `sort.Slice` compares: the address, then the Pod's name. */
  predicate EndpointBefore(a: SliceEndpoint, b: SliceEndpoint)
    requires a.addresses != [] && b.addresses != []
  {
    if a.addresses[0] == b.addresses[0] && a.target.Some? && b.target.Some?
    then Less(a.target.value.name, b.target.value.name)
    else Less(a.addresses[0], b.addresses[0])
  }

  /** The same order as one string: NUL sorts before every character of an address. */
  function EndpointSortKey(e: SliceEndpoint): string {
    (if e.addresses == [] then "" else e.addresses[0]) + ['\0'] + (if e.target.Some? then e.target.value.name else "")
  }

  const ENDPOINT_KEY := (e: SliceEndpoint) => EndpointSortKey(e)

  lemma {:induction false} PairOrder(a: string, x: string, b: string, y: string)
    requires '\0' !in a && '\0' !in b
    ensures Less(a + ['\0'] + x, b + ['\0'] + y) <==> if a == b then Less(x, y) else Less(a, b)
  {
    var s, t := a + ['\0'] + x, b + ['\0'] + y;
    if a == "" {
      assert s[1..] == x;
      if b == "" {
        assert t[1..] == y;
      }
    } else if b != "" {
      assert s[1..] == a[1..] + ['\0'] + x && t[1..] == b[1..] + ['\0'] + y;
      PairOrder(a[1..], x, b[1..], y);
      assert a == [a[0]] + a[1..] && b == [b[0]] + b[1..];
    }
  }

  /** Sorting Pod endpoints by the key string is sorting them with the source's comparison. */
  lemma KeyIsComparison(lib: Library, p: Pod, q: Pod)
    requires lib.RejectsNul() && Serving(lib, p) && Serving(lib, q)
    ensures Less(ENDPOINT_KEY(EndpointOf(p)), ENDPOINT_KEY(EndpointOf(q))) <==> EndpointBefore(EndpointOf(p), EndpointOf(q))
  {
    PairOrder(p.ip, p.name, q.ip, q.name);
  }

  ghost predicate PodStore(pods: map<NamespacedName, Pod>) {
    forall id :: id in pods ==> pods[id].namespace == id.namespace && pods[id].name == id.name
  }

  predicate Selected(lib: Library, selector: Selector, pod: Pod) {
    && pod.namespace == selector.namespace
    && lib.selectorMatches(selector.selector, pod.labels)
    && Serving(lib, pod)
  }

  ghost function ReadyEndpoints(lib: Library, pods: map<NamespacedName, Pod>, selector: Selector): set<SliceEndpoint> {
    set id | id in pods && Selected(lib, selector, pods[id]) :: EndpointOf(pods[id])
  }

  ghost function PodsIn(pods: map<NamespacedName, Pod>, namespace: Segment): set<Pod> {
    set id | id in pods && pods[id].namespace == namespace :: pods[id]
  }

  /** The endpoints of a selector: its ready matching Pods, sorted. */
  ghost function DesiredEndpoints(lib: Library, pods: map<NamespacedName, Pod>, selector: Selector): seq<SliceEndpoint> {
    SortedKeys(ENDPOINT_KEY, ReadyEndpoints(lib, pods, selector))
  }

  /** The selected Pods are those that match and can receive traffic. */
  lemma SelectedMeaning(lib: Library, selector: Selector, pod: Pod)
    ensures Selected(lib, selector, pod) <==> Feeds(lib, selector, pod)
  {
    if i :| 0 <= i < |pod.conditions| && FirstReadyIs(pod.conditions, i) && pod.conditions[i].status == "True" {
      assert pod.conditions[i] == PodCondition("Ready", "True");
    }
    if PodIsReady(pod) {
      var i :| 0 <= i < |pod.conditions| && pod.conditions[i] == PodCondition("Ready", "True")
        && forall j :: 0 <= j < i ==> pod.conditions[j].kind != "Ready";
      assert FirstReadyIs(pod.conditions, i);
    }
  }

  lemma EndpointOfMeaning(e: SliceEndpoint, pod: Pod)
    ensures e == EndpointOf(pod) <==> IsPod(e, pod)
  {
  }

  /** Two Pods of one namespace with equal sort strings are one Pod. */
  lemma EndpointKeyDetermines(lib: Library, pods: map<NamespacedName, Pod>, selector: Selector, x: SliceEndpoint, y: SliceEndpoint)
    requires lib.RejectsNul() && PodStore(pods)
    requires x in ReadyEndpoints(lib, pods, selector) && y in ReadyEndpoints(lib, pods, selector)
    requires ENDPOINT_KEY(x) == ENDPOINT_KEY(y)
    ensures x == y
  {
    var i :| i in pods && Selected(lib, selector, pods[i]) && x == EndpointOf(pods[i]);
    var j :| j in pods && Selected(lib, selector, pods[j]) && y == EndpointOf(pods[j]);
    assert x.addresses[0] == pods[i].ip && y.addresses[0] == pods[j].ip;
    CutUnique(pods[i].ip, pods[i].name, '\0', pods[j].ip, pods[j].name);
    assert i == j;
  }

  /** The endpoints found among the first `n` listed Pods, and where each came from. */
  ghost predicate Picked(
    lib: Library, selector: Selector, listed: seq<Pod>, n: nat, found: seq<SliceEndpoint>, from: seq<nat>)
  {
    && n <= |listed| && |from| == |found|
    && (forall k :: 0 <= k < |from| ==>
          from[k] < n && Selected(lib, selector, listed[from[k]]) && found[k] == EndpointOf(listed[from[k]]))
    && (forall j, k :: 0 <= j < k < |from| ==> from[j] < from[k])
    && (forall j :: 0 <= j < n && Selected(lib, selector, listed[j]) ==> EndpointOf(listed[j]) in found)
  }

  lemma PickNext(lib: Library, selector: Selector, listed: seq<Pod>, n: nat, found: seq<SliceEndpoint>, from: seq<nat>)
    requires n < |listed| && Picked(lib, selector, listed, n, found, from)
    ensures Picked(lib, selector, listed, n + 1, found, from) <== !Selected(lib, selector, listed[n])
    ensures Selected(lib, selector, listed[n]) ==>
              Picked(lib, selector, listed, n + 1, found + [EndpointOf(listed[n])], from + [n])
  {
    var endpoint := EndpointOf(listed[n]);
    var found', from' := found + [endpoint], from + [n];
    assert found'[|found|] == endpoint;
    if Selected(lib, selector, listed[n]) {
      forall j | 0 <= j < n + 1 && Selected(lib, selector, listed[j])
        ensures EndpointOf(listed[j]) in found'
      {
        assert j < n ==> EndpointOf(listed[j]) in found;
      }
      forall k | 0 <= k < |from'|
        ensures from'[k] < n + 1 && Selected(lib, selector, listed[from'[k]]) && found'[k] == EndpointOf(listed[from'[k]])
      {
        assert k < |from| ==> from'[k] == from[k] && found'[k] == found[k];
      }
    }
  }

  lemma EndpointsEnumerated(
    lib: Library, pods: map<NamespacedName, Pod>, listed: seq<Pod>, selector: Selector, found: seq<SliceEndpoint>, from: seq<nat>)
    requires PodStore(pods) && Enumerates(listed, PodsIn(pods, selector.namespace))
    requires Picked(lib, selector, listed, |listed|, found, from)
    ensures Enumerates(found, ReadyEndpoints(lib, pods, selector))
  {
    forall e | e in found
      ensures e in ReadyEndpoints(lib, pods, selector)
    {
      var k :| 0 <= k < |found| && found[k] == e;
      assert listed[from[k]] in PodsIn(pods, selector.namespace);
      var id :| id in pods && pods[id] == listed[from[k]];
    }
    forall e | e in ReadyEndpoints(lib, pods, selector)
      ensures e in found
    {
      var id :| id in pods && Selected(lib, selector, pods[id]) && e == EndpointOf(pods[id]);
      assert pods[id] in PodsIn(pods, selector.namespace);
      var j :| 0 <= j < |listed| && listed[j] == pods[id];
    }
    forall j, k | 0 <= j < k < |found|
      ensures found[j] != found[k]
    {
      var p, q := listed[from[j]], listed[from[k]];
      assert p in PodsIn(pods, selector.namespace) && q in PodsIn(pods, selector.namespace);
      assert p != q;
      var x :| x in pods && pods[x] == p;
      var y :| y in pods && pods[y] == q;
      assert x != y;
    }
  }

  lemma SortedEndpoints(
    lib: Library, pods: map<NamespacedName, Pod>, selector: Selector, found: seq<SliceEndpoint>, endpoints: seq<SliceEndpoint>)
    requires lib.RejectsNul() && PodStore(pods) && Enumerates(found, ReadyEndpoints(lib, pods, selector))
    requires multiset(endpoints) == multiset(found) && SortedBy(ENDPOINT_KEY, endpoints)
    ensures endpoints == DesiredEndpoints(lib, pods, selector)
  {
    forall x, y | x in ReadyEndpoints(lib, pods, selector) && y in ReadyEndpoints(lib, pods, selector)
                    && ENDPOINT_KEY(x) == ENDPOINT_KEY(y)
      ensures x == y
    {
      EndpointKeyDetermines(lib, pods, selector, x, y);
    }
    SortedKeysUnique(ENDPOINT_KEY, ReadyEndpoints(lib, pods, selector), found, endpoints);
  }

  /** `buildEndpointSliceEndpoints`: the same sequence whatever order the Pods are listed in. */
  method BuildEndpointSliceEndpoints(
    lib: Library, ghost pods: map<NamespacedName, Pod>, listed: seq<Pod>, selector: Selector)
    returns (endpoints: seq<SliceEndpoint>)
    requires lib.RejectsNul() && PodStore(pods) && Enumerates(listed, PodsIn(pods, selector.namespace))
    ensures endpoints == DesiredEndpoints(lib, pods, selector)
  {
    var found: seq<SliceEndpoint> := [];
    ghost var from: seq<nat> := [];
    for i := 0 to |listed|
      invariant Picked(lib, selector, listed, i, found, from)
    {
      assert listed[i] in PodsIn(pods, selector.namespace);
      PickNext(lib, selector, listed, i, found, from);
      if !lib.selectorMatches(selector.selector, listed[i].labels) {
        continue;
      }
      var endpoint := EndpointForPod(lib, listed[i]);
      if endpoint.None? {
        continue;
      }
      found := found + [endpoint.value];
      from := from + [i];
    }
    EndpointsEnumerated(lib, pods, listed, selector, found, from);
    endpoints := SortFunc(ENDPOINT_KEY, found);
    SortedEndpoints(lib, pods, selector, found, endpoints);
  }

  /** The address of an endpoint decides, and for one address the Pod's name. */
  predicate InOrder(a: SliceEndpoint, b: SliceEndpoint) {
    && |a.addresses| == 1 && |b.addresses| == 1 && a.target.Some? && b.target.Some?
    && (Less(a.addresses[0], b.addresses[0])
        || (a.addresses[0] == b.addresses[0] && Less(a.target.value.name, b.target.value.name)))
  }

  /** The endpoints are the Pods that feed the selector, each once, by address and name. */
  ghost predicate EndpointsSay(lib: Library, pods: map<NamespacedName, Pod>, selector: Selector, endpoints: seq<SliceEndpoint>) {
    && (forall e :: e in endpoints <==> exists id :: id in pods && Feeds(lib, selector, pods[id]) && IsPod(e, pods[id]))
    && forall i, j :: 0 <= i < j < |endpoints| ==> InOrder(endpoints[i], endpoints[j])
  }

  lemma ReadyMembers(lib: Library, pods: map<NamespacedName, Pod>, selector: Selector, e: SliceEndpoint)
    ensures e in ReadyEndpoints(lib, pods, selector) <==>
            exists id :: id in pods && Feeds(lib, selector, pods[id]) && IsPod(e, pods[id])
  {
    if id :| id in pods && Selected(lib, selector, pods[id]) && e == EndpointOf(pods[id]) {
      SelectedMeaning(lib, selector, pods[id]);
      EndpointOfMeaning(e, pods[id]);
    }
    if id :| id in pods && Feeds(lib, selector, pods[id]) && IsPod(e, pods[id]) {
      SelectedMeaning(lib, selector, pods[id]);
      EndpointOfMeaning(e, pods[id]);
    }
  }

  lemma TwoInOrder(lib: Library, pods: map<NamespacedName, Pod>, selector: Selector, a: SliceEndpoint, b: SliceEndpoint)
    requires lib.RejectsNul() && PodStore(pods) && a != b
    requires a in ReadyEndpoints(lib, pods, selector) && b in ReadyEndpoints(lib, pods, selector)
    requires LessEqual(ENDPOINT_KEY(a), ENDPOINT_KEY(b))
    ensures InOrder(a, b)
  {
    var i :| i in pods && Selected(lib, selector, pods[i]) && a == EndpointOf(pods[i]);
    var j :| j in pods && Selected(lib, selector, pods[j]) && b == EndpointOf(pods[j]);
    if ENDPOINT_KEY(a) == ENDPOINT_KEY(b) {
      EndpointKeyDetermines(lib, pods, selector, a, b);
    }
    KeyIsComparison(lib, pods[i], pods[j]);
  }

  lemma DesiredEndpointsSay(lib: Library, pods: map<NamespacedName, Pod>, selector: Selector)
    requires lib.RejectsNul() && PodStore(pods)
    ensures EndpointsSay(lib, pods, selector, DesiredEndpoints(lib, pods, selector))
  {
    var endpoints, ready := DesiredEndpoints(lib, pods, selector), ReadyEndpoints(lib, pods, selector);
    SortedKeysEnumerates(ENDPOINT_KEY, ready);
    SortIsSorted(ENDPOINT_KEY, Enumeration(ready));
    DistinctFromBag(endpoints, ready);
    forall e
      ensures e in endpoints <==> exists id :: id in pods && Feeds(lib, selector, pods[id]) && IsPod(e, pods[id])
    {
      ReadyMembers(lib, pods, selector, e);
    }
    forall i, j | 0 <= i < j < |endpoints|
      ensures InOrder(endpoints[i], endpoints[j])
    {
      assert endpoints[i] in endpoints && endpoints[j] in endpoints;
      TwoInOrder(lib, pods, selector, endpoints[i], endpoints[j]);
    }
  }

  // ---- Desired slices ---------------------------------------------------------------

  const MAX_NAME_LENGTH := 63

  function FullSliceName(gatewayName: Segment, listenerName: Segment): Segment {
    if listenerName == "" then gatewayName else gatewayName + "-" + listenerName
  }

  /** `endpointSliceName`. */
  function EndpointSliceName(lib: Library, gatewayName: Segment, listenerName: Segment): (name: Segment)
    ensures |name| <= MAX_NAME_LENGTH
    ensures var full := FullSliceName(gatewayName, listenerName);
            if |full| <= MAX_NAME_LENGTH then name == full
            else |name| == MAX_NAME_LENGTH && name[..54] == full[..54] && name[54..] == "-" + lib.sha1Prefix(full)
    ensures listenerName == "" && |gatewayName| <= 63 ==> name == gatewayName
    ensures listenerName != "" && |gatewayName| + 1 + |listenerName| <= 63 ==> name == gatewayName + "-" + listenerName
  {
    var name := FullSliceName(gatewayName, listenerName);
    if |name| <= MAX_NAME_LENGTH then name
    else
      var suffix := "-" + lib.sha1Prefix(name);
      name[..MAX_NAME_LENGTH - |suffix|] + suffix
  }

  /** Joining with a dash is ambiguous: two different listeners can ask for one slice name. */
  lemma JoinedNamesClash(lib: Library)
    ensures EndpointSliceName(lib, "a-b", "c") == EndpointSliceName(lib, "a", "b-c")
  {
    assert FullSliceName("a-b", "c") == "a-b-c";
    assert FullSliceName("a", "b-c") == "a-b-c";
  }

  /** Short names clash exactly when the dash-joined texts are the same; one Gateway's listeners never do. */
  lemma ShortNamesClash(lib: Library, g: Segment, l: Segment, g': Segment, l': Segment)
    requires |FullSliceName(g, l)| <= MAX_NAME_LENGTH && |FullSliceName(g', l')| <= MAX_NAME_LENGTH
    ensures EndpointSliceName(lib, g, l) == EndpointSliceName(lib, g', l') <==> FullSliceName(g, l) == FullSliceName(g', l')
    ensures g == g' && EndpointSliceName(lib, g, l) == EndpointSliceName(lib, g', l') ==> l == l'
  {
    if g == g' && FullSliceName(g, l) == FullSliceName(g', l') {
      if l != "" && l' != "" {
        assert (g + "-" + l)[|g| + 1..] == l;
        assert (g' + "-" + l')[|g| + 1..] == l';
      }
    }
  }

  function SliceLabels(selector: Selector, gateway: NamespacedName, listenerName: Segment): map<string, Segment> {
    map[
      LABEL_MANAGED_BY := MANAGED_BY_VALUE,
      SELECTOR_NAMESPACE_LABEL := selector.namespace,
      SELECTOR_NAME_LABEL := selector.name,
      GATEWAY_NAMESPACE_LABEL := gateway.namespace,
      GATEWAY_NAME_LABEL := gateway.name,
      GATEWAY_LISTENER_LABEL := listenerName]
  }

  /** `desiredEndpointSlice`. */
  function DesiredEndpointSlice(lib: Library, selector: Selector, b: Binding, endpoints: seq<SliceEndpoint>): EndpointSlice {
    EndpointSlice(b.gateway.namespace, EndpointSliceName(lib, b.gateway.name, b.listenerName),
      SliceLabels(selector, b.gateway, b.listenerName), [b.gateway], "IPv4",
      [SlicePort(Some("TCP"), Some(b.backendPort))], endpoints, "")
  }

  /** What a slice says of its selector, its Gateway and listener, its port and its Pods. */
  ghost predicate SliceSays(lib: Library, pods: map<NamespacedName, Pod>, selector: Selector, b: Binding, slice: EndpointSlice) {
    && slice.labels == map[
         "endpointslice.kubernetes.io/managed-by" := "clusterip-gw-controller.grosskur.github.io",
         "gateway.networking.x-k8s.io/endpoint-selector-namespace" := selector.namespace,
         "gateway.networking.x-k8s.io/endpoint-selector-name" := selector.name,
         "gateway.networking.x-k8s.io/gateway-namespace" := b.gateway.namespace,
         "gateway.networking.x-k8s.io/gateway-name" := b.gateway.name,
         "gateway.networking.x-k8s.io/gateway-listener" := b.listenerName]
    && slice.owners == [b.gateway] && slice.addressType == "IPv4"
    && slice.ports == [SlicePort(Some("TCP"), Some(b.backendPort))]
    && EndpointsSay(lib, pods, selector, slice.endpoints)
  }

  /** `endpointSliceEqual`: everything the controller sets. */
  predicate SliceEqual(a: EndpointSlice, b: EndpointSlice) {
    && a.labels == b.labels
    && a.owners == b.owners
    && a.addressType == b.addressType
    && a.ports == b.ports
    && a.endpoints == b.endpoints
  }

  lemma DesiredSliceSays(lib: Library, pods: map<NamespacedName, Pod>, selector: Selector, b: Binding, slice: EndpointSlice)
    requires lib.RejectsNul() && PodStore(pods)
    requires SliceEqual(slice, DesiredEndpointSlice(lib, selector, b, DesiredEndpoints(lib, pods, selector)))
    ensures SliceSays(lib, pods, selector, b, slice)
  {
    DesiredEndpointsSay(lib, pods, selector);
  }

  /** `endpointSelectorKeyForEndpointSlice`: the index key of a slice, empty for none. */
  function SelectorKeyForSlice(slice: EndpointSlice): string {
    var name := Label(slice.labels, SELECTOR_NAME_LABEL, "");
    var labelled := Label(slice.labels, SELECTOR_NAMESPACE_LABEL, "");
    var namespace := if labelled == "" then slice.namespace else labelled;
    if Label(slice.labels, LABEL_MANAGED_BY, "") != MANAGED_BY_VALUE || name == "" || namespace == "" then ""
    else NamespacedKey(namespace, name)
  }

  predicate Under(slice: EndpointSlice, selector: NamespacedName) {
    SelectorKeyForSlice(slice) == KeyOf(selector)
  }

  /** A slice is found under a selector exactly if its labels mark it as this controller's and name that selector. */
  lemma UnderMeaning(slice: EndpointSlice, selector: NamespacedName)
    ensures Under(slice, selector) <==> MarkedFor(slice, selector)
  {
    var name := LabelText(slice.labels, "gateway.networking.x-k8s.io/endpoint-selector-name");
    var labelled := LabelText(slice.labels, "gateway.networking.x-k8s.io/endpoint-selector-namespace");
    var namespace := if labelled == "" then slice.namespace else labelled;
    if NamespacedKey(namespace, name) == KeyOf(selector) {
      NamespacedKeyInjective(namespace, name, selector.namespace, selector.name);
    }
  }

  /** A slice carries the key of at most one selector. */
  lemma UnderOne(slice: EndpointSlice, a: NamespacedName, b: NamespacedName)
    requires Under(slice, a) && Under(slice, b)
    ensures a == b
  {
    NamespacedKeyInjective(a.namespace, a.name, b.namespace, b.name);
  }

  /** A slice built for a selector is found again under that selector's key. */
  lemma DesiredIsUnder(lib: Library, selector: Selector, b: Binding, endpoints: seq<SliceEndpoint>, slice: EndpointSlice)
    requires selector.namespace != "" && selector.name != ""
    requires slice.labels == DesiredEndpointSlice(lib, selector, b, endpoints).labels
    ensures Under(slice, selector.Id())
  {
  }

  /** The `desired` map: later bindings replace earlier ones of the same slice name. */
  function DesiredUpTo(lib: Library, selector: Selector, bindings: seq<Binding>, endpoints: seq<SliceEndpoint>)
    : map<Segment, EndpointSlice>
  {
    if bindings == [] then map[]
    else
      var n := |bindings| - 1;
      var slice := DesiredEndpointSlice(lib, selector, bindings[n], endpoints);
      DesiredUpTo(lib, selector, bindings[..n], endpoints)[slice.name := slice]
  }

  function NameOf(lib: Library, b: Binding): Segment {
    EndpointSliceName(lib, b.gateway.name, b.listenerName)
  }

  ghost predicate DistinctNames(lib: Library, bindings: set<Binding>) {
    forall b, b' :: b in bindings && b' in bindings && NameOf(lib, b) == NameOf(lib, b') ==> b == b'
  }

  /** Every desired slice was asked for by a binding. */
  lemma {:induction false} DesiredComesFrom(
    lib: Library, selector: Selector, bindings: seq<Binding>, endpoints: seq<SliceEndpoint>, name: Segment)
    requires name in DesiredUpTo(lib, selector, bindings, endpoints)
    ensures exists b :: b in bindings && name == NameOf(lib, b)
              && DesiredUpTo(lib, selector, bindings, endpoints)[name] == DesiredEndpointSlice(lib, selector, b, endpoints)
  {
    var n := |bindings| - 1;
    if name != NameOf(lib, bindings[n]) {
      DesiredComesFrom(lib, selector, bindings[..n], endpoints, name);
      var b :| b in bindings[..n] && name == NameOf(lib, b)
        && DesiredUpTo(lib, selector, bindings[..n], endpoints)[name] == DesiredEndpointSlice(lib, selector, b, endpoints);
      assert b in bindings;
    } else {
      assert bindings[n] in bindings;
    }
  }

  /** The last binding decides for its own name, and the ones before for every other. */
  lemma DesiredLast(lib: Library, selector: Selector, bindings: seq<Binding>, endpoints: seq<SliceEndpoint>, name: Segment)
    requires bindings != []
    ensures var n := |bindings| - 1;
            var all, before := DesiredUpTo(lib, selector, bindings, endpoints), DesiredUpTo(lib, selector, bindings[..n], endpoints);
            if name == NameOf(lib, bindings[n]) then
              name in all && all[name] == DesiredEndpointSlice(lib, selector, bindings[n], endpoints)
            else (name in all <==> name in before) && (name in all ==> all[name] == before[name])
  {
  }

  /** When slice names differ, every binding gets its slice. */
  lemma {:induction false} BindingGetsSlice(
    lib: Library, selector: Selector, bindings: seq<Binding>, endpoints: seq<SliceEndpoint>, b: Binding)
    requires forall x :: x in bindings && NameOf(lib, x) == NameOf(lib, b) ==> x == b
    requires b in bindings
    ensures NameOf(lib, b) in DesiredUpTo(lib, selector, bindings, endpoints)
    ensures DesiredUpTo(lib, selector, bindings, endpoints)[NameOf(lib, b)] == DesiredEndpointSlice(lib, selector, b, endpoints)
  {
    var n := |bindings| - 1;
    DesiredLast(lib, selector, bindings, endpoints, NameOf(lib, b));
    if bindings[n] != b {
      assert bindings[n] in bindings;
      assert b in bindings[..n];
      BindingGetsSlice(lib, selector, bindings[..n], endpoints, b);
    }
  }

  /** An existing slice with the desired content; its place and other metadata stay. */
  function Revised(existing: EndpointSlice, desired: EndpointSlice): (r: EndpointSlice)
    ensures SliceEqual(r, desired) && r.Id() == existing.Id()
    ensures SliceEqual(existing, desired) <==> r == existing
  {
    existing.(
      labels := desired.labels, owners := desired.owners, addressType := desired.addressType,
      ports := desired.ports, endpoints := desired.endpoints)
  }
}
