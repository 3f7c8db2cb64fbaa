/** IPAddress records on the API server, and an informer cache that lags behind it. */
module Records {
  import opened Wrappers
  import opened Addresses
  import opened Objects
  import opened ApiMeaning

  datatype AddressEvent = Put(name: string, record: IPAddress) | Del(name: string)

  /** `undelivered` holds the watch events the cache has not seen yet, oldest first. */
  datatype Records = Records(api: map<string, IPAddress>, cache: map<string, IPAddress>, undelivered: seq<AddressEvent>)

  /** `gatewayKeyForIPAddress`. */
  function GatewayKeyForIPAddress(record: IPAddress): string {
    if Label(record.labels, IP_MANAGED_BY_KEY, "") != IP_MANAGED_BY_VALUE || record.parent.None? then ""
    else
      var p := record.parent.value;
      if p.group != GATEWAY_API_GROUP || p.resource != "gateways" || p.namespace == "" || p.name == "" then ""
      else NamespacedKey(p.namespace, p.name)
  }

  /** The Gateway a record belongs to. */
  function Owner(record: IPAddress): Option<NamespacedName> {
    if Label(record.labels, IP_MANAGED_BY_KEY, "") != IP_MANAGED_BY_VALUE || record.parent.None? then None
    else
      var p := record.parent.value;
      if p.group != GATEWAY_API_GROUP || p.resource != "gateways" || p.namespace == "" || p.name == "" then None
      else Some(NamespacedName(p.namespace, p.name))
  }

  predicate OwnedBy(record: IPAddress, id: NamespacedName) {
    Owner(record) == Some(id)
  }

  /** A Gateway owns a record exactly when labels and parent say so, and the index finds it under the Gateway's key then. */
  lemma IndexKeyMeansOwner(record: IPAddress, id: NamespacedName)
    ensures OwnedBy(record, id) <==> Claims(record, id)
    ensures GatewayKeyForIPAddress(record) == KeyOf(id) <==> Claims(record, id)
  {
    if GatewayKeyForIPAddress(record) == KeyOf(id) {
      var p := record.parent.value;
      NamespacedKeyInjective(p.namespace, p.name, id.namespace, id.name);
    }
  }

  function OwnedNames(store: map<string, IPAddress>, id: NamespacedName): set<string> {
    set n | n in store && OwnedBy(store[n], id)
  }

  /** The record `ensureGatewayVIP` creates. */
  function RecordFor(id: NamespacedName): (record: IPAddress)
    ensures id.namespace != "" && id.name != "" ==> OwnedBy(record, id)
  {
    IPAddress(
      map[IP_FAMILY_KEY := IP_FAMILY_IPV4, IP_MANAGED_BY_KEY := IP_MANAGED_BY_VALUE],
      Some(ParentReference(GATEWAY_API_GROUP, "gateways", id.namespace, id.name)))
  }

  lemma RecordSays(id: NamespacedName)
    requires id.namespace != "" && id.name != ""
    ensures Claims(RecordFor(id), id) && OnlyOurLabels(RecordFor(id))
  {
  }

  // ---- Steps --------------------------------------------------------------------------

  function Created(r: Records, name: string, record: IPAddress): Records {
    r.(api := r.api[name := record], undelivered := r.undelivered + [Put(name, record)])
  }

  /** Deleting an absent record changes nothing. */
  function Removed(r: Records, name: string): Records {
    if name in r.api then r.(api := r.api - {name}, undelivered := r.undelivered + [Del(name)]) else r
  }

  /** The informer sees the oldest undelivered event. */
  function Delivered(r: Records): Records {
    if r.undelivered == [] then r
    else
      var e := r.undelivered[0];
      r.(cache := if e.Put? then r.cache[e.name := e.record] else r.cache - {e.name}, undelivered := r.undelivered[1..])
  }

  // ---- Coherence ----------------------------------------------------------------------

  predicate Awaited(r: Records, name: string) {
    exists i :: 0 <= i < |r.undelivered| && r.undelivered[i].name == name
  }

  /** The event still says what happened between the cached and the real state of its address. */
  predicate Explains(r: Records, e: AddressEvent) {
    match e
    case Put(n, record) => n !in r.cache && n in r.api && r.api[n] == record
    case Del(n) => n in r.cache && n !in r.api
  }

  /** At most one undelivered event per address; without one the cache is right about the address. */
  ghost predicate Coherent(r: Records) {
    && (forall i, j :: 0 <= i < j < |r.undelivered| ==> r.undelivered[i].name != r.undelivered[j].name)
    && (forall i :: 0 <= i < |r.undelivered| ==> Explains(r, r.undelivered[i]))
    && (forall n :: !Awaited(r, n) ==> (n in r.cache <==> n in r.api) && (n in r.cache ==> r.cache[n] == r.api[n]))
  }

  /** So the owner the cache names is the real owner, or the address is gone. */
  lemma CachedOwnerIsReal(r: Records, name: string)
    requires Coherent(r) && name in r.cache
    ensures name in r.api ==> r.api[name] == r.cache[name]
  {
    if Awaited(r, name) {
      var i :| 0 <= i < |r.undelivered| && r.undelivered[i].name == name;
      assert Explains(r, r.undelivered[i]);
    }
  }

  /** An address that is on neither side has no event under way. */
  lemma SettledAddress(r: Records, name: string)
    requires Coherent(r) && (name in r.cache <==> name in r.api)
    ensures !Awaited(r, name)
  {
    forall i | 0 <= i < |r.undelivered|
      ensures r.undelivered[i].name != name
    {
      assert Explains(r, r.undelivered[i]);
    }
  }

  lemma StillAwaited(r: Records, r': Records, name: string, skip: nat)
    requires skip <= |r.undelivered| && Awaited(r, name) && forall i :: 0 <= i < skip ==> r.undelivered[i].name != name
    requires r.undelivered[skip..] <= r'.undelivered
    ensures Awaited(r', name)
  {
    var i :| 0 <= i < |r.undelivered| && r.undelivered[i].name == name;
    assert r'.undelivered[i - skip] == r.undelivered[skip..][i - skip];
  }

  lemma AppendEvent(r: Records, r': Records, e: AddressEvent)
    requires Coherent(r) && !Awaited(r, e.name)
    requires r'.undelivered == r.undelivered + [e] && r'.cache == r.cache
    requires forall n :: n != e.name ==> (n in r'.api <==> n in r.api) && (n in r.api ==> r'.api[n] == r.api[n])
    requires Explains(r', e)
    ensures Coherent(r')
  {
    var k := |r.undelivered|;
    assert r'.undelivered[k] == e;
    forall i | 0 <= i < k
      ensures r'.undelivered[i].name != e.name && Explains(r', r'.undelivered[i])
    {
      assert r'.undelivered[i] == r.undelivered[i];
      assert Explains(r, r.undelivered[i]);
    }
    forall n | !Awaited(r', n)
      ensures (n in r'.cache <==> n in r'.api) && (n in r'.cache ==> r'.cache[n] == r'.api[n])
    {
      assert n != e.name;
      if Awaited(r, n) {
        StillAwaited(r, r', n, 0);
      }
    }
  }

  /** Creating an address that neither side knows keeps the cache coherent. */
  lemma CreatedCoherent(r: Records, name: string, record: IPAddress)
    requires Coherent(r) && name !in r.cache && name !in r.api
    ensures Coherent(Created(r, name, record))
  {
    SettledAddress(r, name);
    AppendEvent(r, Created(r, name, record), Put(name, record));
  }

  /** So does deleting an address the cache knows. */
  lemma RemovedCoherent(r: Records, name: string)
    requires Coherent(r) && name in r.cache
    ensures Coherent(Removed(r, name))
  {
    if name in r.api {
      SettledAddress(r, name);
      AppendEvent(r, Removed(r, name), Del(name));
    }
  }

  /** And so does delivering the oldest event. */
  lemma DeliveredCoherent(r: Records)
    requires Coherent(r)
    ensures Coherent(Delivered(r))
  {
    if r.undelivered != [] {
      var r', e := Delivered(r), r.undelivered[0];
      assert Explains(r, e);
      forall i | 0 <= i < |r'.undelivered|
        ensures Explains(r', r'.undelivered[i])
      {
        assert r'.undelivered[i] == r.undelivered[i + 1];
        assert Explains(r, r.undelivered[i + 1]) && r.undelivered[0].name != r.undelivered[i + 1].name;
      }
      forall n | !Awaited(r', n)
        ensures (n in r'.cache <==> n in r'.api) && (n in r'.cache ==> r'.cache[n] == r'.api[n])
      {
        if Awaited(r, n) && n != e.name {
          StillAwaited(r, r', n, 1);
        }
      }
    }
  }

  /** The name is a dotted quad. */
  predicate IsDotted(name: string) {
    ReadQuad(name).Some?
  }

  // ---- What one reconcile may do --------------------------------------------------------

  /** From `r` to `r'` only addresses the cache lists for `id` were deleted, and only free ones created for `id`, under canonical names. */
  ghost predicate OwnChanges(r: Records, r': Records, id: NamespacedName) {
    && r'.cache == r.cache
    && (forall n :: n in r.api && n !in r'.api ==> n in OwnedNames(r.cache, id))
    && (forall n :: n in r'.api && n !in r.api ==> n !in r.cache && OwnedBy(r'.api[n], id) && IsDotted(n))
    && (forall n :: n in r.api && n in r'.api ==> r'.api[n] == r.api[n])
  }

  ghost predicate Touches(r: Records, r': Records, id: NamespacedName) {
    OwnChanges(r, r', id) && (Coherent(r) ==> Coherent(r'))
  }

  lemma TouchesComposes(a: Records, b: Records, c: Records, id: NamespacedName)
    requires Touches(a, b, id) && Touches(b, c, id)
    ensures Touches(a, c, id)
  {
  }

  lemma RemovedTouches(r: Records, name: string, id: NamespacedName)
    requires name in OwnedNames(r.cache, id)
    ensures Touches(r, Removed(r, name), id)
  {
    if Coherent(r) {
      RemovedCoherent(r, name);
    }
  }

  lemma CreatedTouches(r: Records, name: string, id: NamespacedName)
    requires id.namespace != "" && id.name != "" && name !in r.cache && name !in r.api && IsDotted(name)
    ensures Touches(r, Created(r, name, RecordFor(id)), id)
  {
    if Coherent(r) {
      CreatedCoherent(r, name, RecordFor(id));
    }
  }

  /** With a coherent cache, whatever a reconcile of `id` deleted was really owned by `id`. */
  lemma OnlyOwnAddressesGo(r: Records, r': Records, id: NamespacedName, name: string)
    requires Coherent(r) && Touches(r, r', id) && name in r.api && name !in r'.api
    ensures OwnedBy(r.api[name], id)
  {
    assert name in OwnedNames(r.cache, id);
    CachedOwnerIsReal(r, name);
  }

  ghost predicate AddressesCaughtUp(r: Records) {
    r.undelivered == [] && r.cache == r.api
  }
}
