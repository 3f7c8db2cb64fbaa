/** The incremental trackers of internal/agent/state, proved equal to a batch view of the live store. */
module Trackers {
  import opened Wrappers
  import opened Sorting
  import opened Addresses
  import opened Objects
  import opened Listeners
  import opened AgentState

  /** Informer events; a delete may carry a stale copy of the object. */
  datatype Event<T> = Added(current: T) | Updated(previous: T, current: T) | Deleted(previous: T)

  // ---- Gateways: what Update does to the tracked map --------------------------

  type TrackedGateways = map<NamespacedName, FrontendMap>

  /** `GatewayChangeTracker.Update` as a function of the tracked map. */
  function TrackGateway(lib: Library, tracked: TrackedGateways, previous: Option<Gateway>, current: Option<Gateway>)
    : TrackedGateways
  {
    if current.Some? then
      var frontends := FrontendsOf(lib, current.value);
      if |frontends| == 0 then tracked - {current.value.Id()} else tracked[current.value.Id() := frontends]
    else if previous.Some? then tracked - {previous.value.Id()}
    else tracked
  }

  function GatewayEvent(lib: Library, tracked: TrackedGateways, event: Event<Gateway>): TrackedGateways {
    match event
    case Added(g) => TrackGateway(lib, tracked, None, Some(g))
    case Updated(old_, g) => TrackGateway(lib, tracked, Some(old_), Some(g))
    case Deleted(g) => TrackGateway(lib, tracked, Some(g), None)
  }

  function GatewayStoreAfter(store: map<NamespacedName, Gateway>, event: Event<Gateway>): map<NamespacedName, Gateway> {
    if event.Deleted? then store - {event.previous.Id()} else store[event.current.Id() := event.current]
  }

  function ReplayGateways(lib: Library, events: seq<Event<Gateway>>): TrackedGateways {
    if events == [] then map[]
    else GatewayEvent(lib, ReplayGateways(lib, events[..|events| - 1]), events[|events| - 1])
  }

  function GatewaysAfter(events: seq<Event<Gateway>>): map<NamespacedName, Gateway> {
    if events == [] then map[]
    else GatewayStoreAfter(GatewaysAfter(events[..|events| - 1]), events[|events| - 1])
  }

  /** The tracked map is the store with every Gateway replaced by its frontends, empty ones left out. */
  ghost predicate TracksGateways(lib: Library, tracked: TrackedGateways, store: map<NamespacedName, Gateway>) {
    && GatewayStore(store)
    && (forall id :: id in tracked <==> id in store && FrontendsOf(lib, store[id]) != map[])
    && (forall id :: id in tracked ==> tracked[id] == FrontendsOf(lib, store[id]))
  }

  lemma TrackPut(lib: Library, tracked: TrackedGateways, store: map<NamespacedName, Gateway>, gateway: Gateway)
    requires TracksGateways(lib, tracked, store)
    ensures TracksGateways(lib, TrackGateway(lib, tracked, None, Some(gateway)), store[gateway.Id() := gateway])
  {
    var frontends, store' := FrontendsOf(lib, gateway), store[gateway.Id() := gateway];
    assert |frontends| == 0 <==> frontends == map[];
    var tracked' := TrackGateway(lib, tracked, None, Some(gateway));
    forall id
      ensures id in tracked' <==> id in store' && FrontendsOf(lib, store'[id]) != map[]
      ensures id in tracked' ==> tracked'[id] == FrontendsOf(lib, store'[id])
    {
      if id != gateway.Id() {
        assert id in store' <==> id in store;
      }
    }
  }

  lemma TrackDrop(lib: Library, tracked: TrackedGateways, store: map<NamespacedName, Gateway>, id: NamespacedName)
    requires TracksGateways(lib, tracked, store)
    ensures TracksGateways(lib, tracked - {id}, store - {id})
  {
  }

  lemma TrackStep(lib: Library, tracked: TrackedGateways, store: map<NamespacedName, Gateway>, event: Event<Gateway>)
    requires TracksGateways(lib, tracked, store)
    ensures TracksGateways(lib, GatewayEvent(lib, tracked, event), GatewayStoreAfter(store, event))
  {
    match event {
      case Added(g) => TrackPut(lib, tracked, store, g);
      case Updated(_, g) => TrackPut(lib, tracked, store, g);
      case Deleted(g) => TrackDrop(lib, tracked, store, g.Id());
    }
  }

  /** After any sequence of events, the tracker agrees with the store those events built. */
  lemma {:induction false} TrackerFollowsStore(lib: Library, events: seq<Event<Gateway>>)
    ensures TracksGateways(lib, ReplayGateways(lib, events), GatewaysAfter(events))
  {
    if events != [] {
      TrackerFollowsStore(lib, events[..|events| - 1]);
      TrackStep(lib, ReplayGateways(lib, events[..|events| - 1]), GatewaysAfter(events[..|events| - 1]), events[|events| - 1]);
    }
  }

  /** Merging per-Gateway maps in the order `order`, as `Snapshot` does. */
  function Merge(tracked: TrackedGateways, order: seq<NamespacedName>): FrontendMap
    requires forall id :: id in order ==> id in tracked
  {
    if order == [] then map[] else Merge(tracked, order[..|order| - 1]) + tracked[order[|order| - 1]]
  }

  lemma MergeGrows(tracked: TrackedGateways, order: seq<NamespacedName>, id: NamespacedName)
    requires id in tracked && forall x :: x in order ==> x in tracked
    ensures Merge(tracked, order + [id]) == Merge(tracked, order) + tracked[id]
  {
    assert (order + [id])[..|order|] == order;
  }

  ghost predicate OwnKeys(tracked: TrackedGateways) {
    forall id, key :: id in tracked && key in tracked[id] ==> key.Gateway() == id
  }

  lemma {:induction false} MergeMeaning(tracked: TrackedGateways, order: seq<NamespacedName>, key: FrontendKey)
    requires OwnKeys(tracked)
    requires forall id :: id in order ==> id in tracked
    ensures key in Merge(tracked, order) <==> key.Gateway() in order && key in tracked[key.Gateway()]
    ensures key in Merge(tracked, order) ==> Merge(tracked, order)[key] == tracked[key.Gateway()][key]
  {
    if order != [] {
      MergeMeaning(tracked, order[..|order| - 1], key);
    }
  }

  /** Keys of different Gateways are disjoint, so merging in any order gives the batch view of the store. */
  lemma SnapshotIsBatch(
    lib: Library, tracked: TrackedGateways, store: map<NamespacedName, Gateway>, order: seq<NamespacedName>)
    requires TracksGateways(lib, tracked, store)
    requires Enumerates(order, tracked.Keys)
    ensures Merge(tracked, order) == AllFrontends(lib, store)
  {
    assert OwnKeys(tracked) by {
      forall id, key | id in tracked && key in tracked[id]
        ensures key.Gateway() == id
      {
        FrontendBelongs(lib, store[id], key);
      }
    }
    forall key: FrontendKey
      ensures key in Merge(tracked, order) <==> key in AllFrontends(lib, store)
      ensures key in Merge(tracked, order) ==> Merge(tracked, order)[key] == AllFrontends(lib, store)[key]
    {
      MergeMeaning(tracked, order, key);
      AllFrontendsMeaning(lib, store, key);
    }
  }

  /** `gatewayToFrontendMap`. */
  method GatewayToFrontendMap(lib: Library, gateway: Gateway) returns (out: FrontendMap)
    ensures out == FrontendsOf(lib, gateway)
  {
    var supported := GatewaySupported(gateway);
    if !supported {
      return map[];
    }
    var vip := lib.parseIPv4(gateway.status.addresses[0].value);
    if vip.None? {
      return map[];
    }
    out := map[];
    for i := 0 to |gateway.spec.listeners|
      invariant out == FrontendsUpTo(gateway, vip.value, i)
    {
      var listener := gateway.spec.listeners[i];
      out := out[KeyFor(gateway, listener) := Frontend(vip.value, listener.port)];
    }
  }

  class GatewayChangeTracker {
    var gateways: TrackedGateways

    constructor ()
      ensures gateways == map[]
    {
      gateways := map[];
    }

    method Update(lib: Library, previous: Option<Gateway>, current: Option<Gateway>) returns (changed: bool)
      modifies this
      ensures gateways == TrackGateway(lib, old(gateways), previous, current)
      ensures changed <==> previous.Some? || current.Some?
    {
      var key;
      if current.Some? {
        key := current.value.Id();
      } else if previous.Some? {
        key := previous.value.Id();
      } else {
        return false;
      }
      if current.None? {
        gateways := gateways - {key};
        return true;
      }
      var m := GatewayToFrontendMap(lib, current.value);
      if |m| == 0 {
        gateways := gateways - {key};
        return true;
      }
      gateways := gateways[key := m];
      return true;
    }

    /** The map is visited in an arbitrary order. */
    method Snapshot(ghost lib: Library, ghost store: map<NamespacedName, Gateway>) returns (out: FrontendMap)
      requires TracksGateways(lib, gateways, store)
      ensures out == AllFrontends(lib, store)
    {
      var order := AnyOrder(gateways.Keys);
      out := map[];
      for i := 0 to |order|
        invariant out == Merge(gateways, order[..i])
      {
        MergeGrows(gateways, order[..i], order[i]);
        assert order[..i + 1] == order[..i] + [order[i]];
        out := out + gateways[order[i]];
      }
      assert order[..|order|] == order;
      SnapshotIsBatch(lib, gateways, store, order);
    }
  }

  // ---- EndpointSlices ---------------------------------------------------------

  /** `EndpointsChangeTracker.Update` keeps the store itself. */
  function TrackSlice(slices: map<NamespacedName, EndpointSlice>, slice: Option<EndpointSlice>, remove: bool)
    : map<NamespacedName, EndpointSlice>
  {
    if slice.None? then slices
    else if remove then slices - {slice.value.Id()}
    else slices[slice.value.Id() := slice.value]
  }

  function SliceStoreAfter(store: map<NamespacedName, EndpointSlice>, event: Event<EndpointSlice>)
    : map<NamespacedName, EndpointSlice>
  {
    if event.Deleted? then store - {event.previous.Id()} else store[event.current.Id() := event.current]
  }

  /** The sorting loop of `Snapshot`. */
  method SortEach(gathered: EndpointsMap) returns (out: EndpointsMap)
    ensures out.Keys == gathered.Keys
    ensures forall key :: key in out ==> multiset(out[key]) == multiset(gathered[key]) && SortedBy(ENDPOINT_STRING, out[key])
  {
    out := map[];
    var keys := gathered.Keys;
    while keys != {}
      invariant keys <= gathered.Keys
      invariant out.Keys == gathered.Keys - keys
      invariant forall key :: key in out ==> multiset(out[key]) == multiset(gathered[key]) && SortedBy(ENDPOINT_STRING, out[key])
      decreases keys
    {
      var key :| key in keys;
      var sorted := SortFunc(ENDPOINT_STRING, gathered[key]);
      out := out[key := sorted];
      keys := keys - {key};
    }
  }

  lemma SortedEntryIsBatch(
    lib: Library, slices: map<NamespacedName, EndpointSlice>, order: seq<NamespacedName>, key: FrontendKey,
    gathered: seq<Endpoint>, sorted: seq<Endpoint>)
    requires Enumerates(order, slices.Keys) && gathered == Gather(lib, slices, order, key)
    requires multiset(sorted) == multiset(gathered) && SortedBy(ENDPOINT_STRING, sorted)
    ensures sorted == Lookup(AllEndpoints(lib, slices), key)
    ensures key in AllEndpoints(lib, slices) <==> sorted != []
  {
    EndpointsDetermined(lib, slices, order, key, sorted);
    AllEndpointsMeaning(lib, slices, key);
  }

  lemma SortedSnapshotIsBatch(
    lib: Library, slices: map<NamespacedName, EndpointSlice>, order: seq<NamespacedName>,
    gathered: EndpointsMap, out: EndpointsMap)
    requires Enumerates(order, slices.Keys)
    requires forall key :: Lookup(gathered, key) == Gather(lib, slices, order, key)
    requires forall key :: key in gathered ==> gathered[key] != []
    requires out.Keys == gathered.Keys
    requires forall key :: key in out ==> multiset(out[key]) == multiset(gathered[key]) && SortedBy(ENDPOINT_STRING, out[key])
    ensures out == AllEndpoints(lib, slices)
  {
    var batch := AllEndpoints(lib, slices);
    forall key
      ensures key in out <==> key in batch
      ensures key in out ==> out[key] == batch[key]
    {
      var g, o := Lookup(gathered, key), Lookup(out, key);
      assert g == Gather(lib, slices, order, key);
      assert multiset(o) == multiset(g) && SortedBy(ENDPOINT_STRING, o);
      SortedEntryIsBatch(lib, slices, order, key, g, o);
      MultisetMembers(o, g);
      assert key in out <==> o != [];
    }
  }

  method CollectAddresses(lib: Library, addresses: seq<string>, port: int) returns (out: seq<Endpoint>)
    ensures out == AddressesUpTo(lib, addresses, port, |addresses|)
  {
    out := [];
    for k := 0 to |addresses|
      invariant out == AddressesUpTo(lib, addresses, port, k)
    {
      var ip := lib.parseIPv4(addresses[k]);
      if ip.Some? {
        out := out + [Endpoint(Dotted(ip.value), port)];
      }
    }
  }

  method CollectEndpoints(lib: Library, endpoints: seq<SliceEndpoint>, port: int) returns (out: seq<Endpoint>)
    ensures out == EndpointsUpTo(lib, endpoints, port, |endpoints|)
  {
    out := [];
    for j := 0 to |endpoints|
      invariant out == EndpointsUpTo(lib, endpoints, port, j)
    {
      if endpoints[j].ready.Some? && !endpoints[j].ready.value {
        assert ReadyPart(lib, endpoints[j], port) == [];
        continue;
      }
      var added := CollectAddresses(lib, endpoints[j].addresses, port);
      assert ReadyPart(lib, endpoints[j], port) == added;
      out := out + added;
    }
  }

  /** The three nested loops of `Snapshot` over one slice. */
  method CollectSlice(lib: Library, slice: EndpointSlice) returns (out: seq<Endpoint>)
    ensures out == PortsUpTo(lib, slice, |slice.ports|)
  {
    out := [];
    for i := 0 to |slice.ports|
      invariant out == PortsUpTo(lib, slice, i)
    {
      var port := slice.ports[i];
      if port.port.None? || (port.protocol.Some? && port.protocol.value != "TCP") {
        assert PortPart(lib, slice, port) == [];
        continue;
      }
      var added := CollectEndpoints(lib, slice.endpoints, port.port.value);
      assert PortPart(lib, slice, port) == added;
      out := out + added;
    }
  }

  /** The body of the loop over slices: append one slice's endpoints under its frontend key. */
  method AddSlice(lib: Library, slice: EndpointSlice, gathered: EndpointsMap) returns (out: EndpointsMap)
    requires forall key :: key in gathered ==> gathered[key] != []
    ensures forall key :: Lookup(out, key) == Lookup(gathered, key) + Contribution(lib, slice, key)
    ensures forall key :: key in out ==> out[key] != []
  {
    out := gathered;
    var key := FrontendKeyForSlice(slice);
    if key.None? || slice.addressType != "IPv4" {
      return;
    }
    var added := CollectSlice(lib, slice);
    if added != [] {
      out := gathered[key.value := Lookup(gathered, key.value) + added];
    }
  }

  /** What has been gathered after visiting these slices. */
  ghost predicate GatheredUpTo(
    lib: Library, slices: map<NamespacedName, EndpointSlice>, order: seq<NamespacedName>, gathered: EndpointsMap)
  {
    && (forall id :: id in order ==> id in slices)
    && (forall key :: Lookup(gathered, key) == Gather(lib, slices, order, key))
    && (forall key :: key in gathered ==> gathered[key] != [])
  }

  lemma SliceAdded(
    lib: Library, slices: map<NamespacedName, EndpointSlice>, order: seq<NamespacedName>, id: NamespacedName,
    before: EndpointsMap, after: EndpointsMap)
    requires GatheredUpTo(lib, slices, order, before) && id in slices
    requires forall key :: Lookup(after, key) == Lookup(before, key) + Contribution(lib, slices[id], key)
    requires forall key :: key in after ==> after[key] != []
    ensures GatheredUpTo(lib, slices, order + [id], after)
  {
    forall key
      ensures Lookup(after, key) == Gather(lib, slices, order + [id], key)
    {
      assert Lookup(before, key) == Gather(lib, slices, order, key);
      GatherGrows(lib, slices, order, id, key);
    }
  }

  class EndpointsChangeTracker {
    var slices: map<NamespacedName, EndpointSlice>

    constructor ()
      ensures slices == map[]
    {
      slices := map[];
    }

    method Update(slice: Option<EndpointSlice>, remove: bool) returns (changed: bool)
      modifies this
      ensures slices == TrackSlice(old(slices), slice, remove)
      ensures changed <==> slice.Some?
    {
      if slice.None? {
        return false;
      }
      var key := slice.value.Id();
      if remove {
        slices := slices - {key};
        return true;
      }
      slices := slices[key := slice.value];
      return true;
    }

    /** The endpoints of all slices, appended under their frontend keys in an arbitrary order of slices. */
    method GatherAll(lib: Library) returns (gathered: EndpointsMap, ghost order: seq<NamespacedName>)
      ensures Enumerates(order, slices.Keys)
      ensures forall key :: Lookup(gathered, key) == Gather(lib, slices, order, key)
      ensures forall key :: key in gathered ==> gathered[key] != []
    {
      var ids := AnyOrder(slices.Keys);
      gathered, order := map[], ids;
      for i := 0 to |ids|
        invariant GatheredUpTo(lib, slices, ids[..i], gathered)
      {
        ghost var before := gathered;
        gathered := AddSlice(lib, slices[ids[i]], gathered);
        SliceAdded(lib, slices, ids[..i], ids[i], before, gathered);
        assert ids[..i + 1] == ids[..i] + [ids[i]];
      }
      assert ids[..|ids|] == ids;
    }

    /** Every frontend's endpoints are the batch view of the tracked slices, whatever the visiting order. */
    method Snapshot(lib: Library) returns (out: EndpointsMap)
      ensures out == AllEndpoints(lib, slices)
    {
      ghost var order;
      var gathered;
      gathered, order := GatherAll(lib);
      out := SortEach(gathered);
      SortedSnapshotIsBatch(lib, slices, order, gathered, out);
    }
  }
}
