/** The Gateway controller: VIPs, finalizer and status (internal/controller/ipam.go, internal/controller/gateway_reconcile.go:56-135). */
module GatewayReconcile {
  import opened Wrappers
  import opened Sorting
  import opened Folds
  import opened Addresses
  import opened Objects
  import opened Faults
  import opened Conditions
  import opened Records
  import opened Allocation
  import opened GatewayEvaluation
  import opened GatewayStatuses
  import opened ControllerState
  import opened GatewaySteps

  const NAME_KEY := (n: string) => n

  datatype CreateResult = Done | AlreadyExists | Failed
  datatype VIPResult = VIP(address: string) | NoVIP(message: string)

  /** `deleteString`: filter in place, returning the length of what is kept. */
  method DeleteString(values: array<string>, target: string) returns (kept: nat)
    modifies values
    ensures kept <= values.Length && values[..kept] == Filter(v => v != target, old(values[..]))
  {
    kept := 0;
    ghost var was := values[..];
    var p: string -> bool := v => v != target;
    for i := 0 to values.Length
      invariant kept <= i && values[..kept] == Filter(p, was[..i])
      invariant values[i..] == was[i..]
    {
      assert was[..i + 1][..i] == was[..i] && values[i] == values[i..][0] == was[i];
      assert values[i + 1..] == was[i + 1..] by {
        assert values[i + 1..] == values[i..][1..];
      }
      if values[i] == target {
        continue;
      }
      values[kept] := values[i];
      kept := kept + 1;
    }
    assert was[..|was|] == was;
  }

  /**
   The API objects a Gateway reconcile writes and the caches it reads. `writes` counts the write calls.
   With `faulty` set any call may fail, before or after it took effect; otherwise only for the reasons
   the API server gives.
   */
  class GatewayController {
    var records: Records
    var gateways: Gateways
    var cachedGateways: Gateways
    var writes: nat
    const faulty: bool

    // ---- Addresses ----------------------------------------------------------------------

    method DeleteAddress(name: string) returns (ok: bool)
      modifies this`records, this`writes
      ensures records == Removed(old(records), name) || (!ok && records == old(records))
      ensures !faulty ==> ok
    {
      writes := writes + 1;
      var lost := Fails(faulty);
      if lost {
        return false;
      }
      records := Removed(records, name);
      var unanswered := Fails(faulty);
      return !unanswered;
    }

    method CreateAddress(name: string, id: NamespacedName) returns (result: CreateResult)
      modifies this`records, this`writes
      ensures result.Done? ==> name !in old(records.api) && records == Created(old(records), name, RecordFor(id))
      ensures result.AlreadyExists? ==> name in old(records.api) && records == old(records)
      ensures result.Failed? ==> faulty
      ensures result.Failed? ==>
                records == old(records) || (name !in old(records.api) && records == Created(old(records), name, RecordFor(id)))
    {
      writes := writes + 1;
      var lost := Fails(faulty);
      if lost {
        return Failed;
      }
      if name in records.api {
        return AlreadyExists;
      }
      records := Created(records, name, RecordFor(id));
      var unanswered := Fails(faulty);
      return if unanswered then Failed else Done;
    }

    /** `listOwnedGatewayIPAddresses`, from the cache and in any order. */
    method ListOwned(id: NamespacedName) returns (owned: seq<string>)
      ensures Enumerates(owned, OwnedNames(records.cache, id))
    {
      owned := AnyOrder(OwnedNames(records.cache, id));
    }

    /** Delete the named addresses one by one, stopping at the first error. */
    method DeleteAll(names: seq<string>, ghost id: NamespacedName) returns (ok: bool)
      requires forall n :: n in names ==> n in OwnedNames(records.cache, id)
      modifies this`records, this`writes
      ensures Touches(old(records), records, id)
      ensures forall n :: n in records.api ==> n in old(records.api)
      ensures ok ==> forall n :: n in records.api <==> n in old(records.api) && n !in names
      ensures names == [] ==> ok && records == old(records) && writes == old(writes)
      ensures !faulty ==> ok
    {
      for i := 0 to |names|
        invariant Touches(old(records), records, id)
        invariant forall n :: n in records.api <==> n in old(records.api) && n !in names[..i]
        invariant names == [] ==> records == old(records) && writes == old(writes)
      {
        assert names[..i + 1] == names[..i] + [names[i]];
        RemovedTouches(records, names[i], id);
        TouchesComposes(old(records), records, Removed(records, names[i]), id);
        ok := DeleteAddress(names[i]);
        if !ok {
          return;
        }
      }
      assert names[..|names|] == names;
      ok := true;
    }

    /** `releaseGatewayIPAddresses`. */
    method ReleaseAddresses(id: NamespacedName) returns (ok: bool)
      modifies this`records, this`writes
      ensures Touches(old(records), records, id)
      ensures forall n :: n in records.api ==> n in old(records.api)
      ensures ok ==> forall n :: n in records.api <==> n in old(records.api) && n !in OwnedNames(old(records.cache), id)
      ensures OwnedNames(old(records.cache), id) == {} ==> ok && records == old(records) && writes == old(writes)
      ensures !faulty ==> ok
    {
      var owned := ListOwned(id);
      assert OwnedNames(records.cache, id) == {} ==> owned == [] by {
        if owned != [] {
          assert owned[0] in owned;
        }
      }
      ok := DeleteAll(owned, id);
    }

    /** The owned-address branch of `ensureGatewayVIP`: keep the least name, delete the others. */
    method KeepLeast(owned: seq<string>, id: NamespacedName) returns (result: VIPResult)
      requires owned != [] && Enumerates(owned, OwnedNames(records.cache, id))
      modifies this`records, this`writes
      ensures Touches(old(records), records, id)
      ensures result.VIP? ==> IsLeast(result.address, OwnedNames(old(records.cache), id))
      ensures result.VIP? ==>
                forall n :: n in records.api <==>
                  n in old(records.api) && (n !in OwnedNames(old(records.cache), id) || n == result.address)
      ensures |owned| == 1 ==> result == VIP(owned[0]) && records == old(records) && writes == old(writes)
      ensures !faulty ==> result.VIP?
      ensures result.NoVIP? ==> result.message == API_ERROR
    {
      var sorted := SortFunc(NAME_KEY, owned);
      MultisetMembers(sorted, owned);
      SortedIsDistinct(owned, sorted, OwnedNames(records.cache, id));
      assert sorted[0] in sorted;
      assert sorted == [sorted[0]] + sorted[1..];
      ghost var names := OwnedNames(records.cache, id);
      assert IsLeast(sorted[0], names) by {
        forall n | n in names
          ensures LessEqual(sorted[0], n)
        {
          var i :| 0 <= i < |sorted| && sorted[i] == n;
          assert i == 0 || LessEqual(NAME_KEY(sorted[0]), NAME_KEY(sorted[i]));
        }
      }
      var ok := DeleteAll(sorted[1..], id);
      assert forall n :: n in sorted[1..] <==> n in names && n != sorted[0];
      return if ok then VIP(sorted[0]) else NoVIP(API_ERROR);
    }

    /** The inner loop of `ensureGatewayVIP` over one prefix; `taken` grows by the names the API server refuses. */
    method AllocateIn(prefix: Prefix, id: NamespacedName, taken: set<string>)
      returns (result: Option<VIPResult>, taken': set<string>)
      requires prefix.IsMasked() && id.namespace != "" && id.name != ""
      requires records.cache.Keys <= taken <= records.cache.Keys + records.api.Keys
      modifies this`records, this`writes
      ensures Touches(old(records), records, id)
      ensures taken <= taken' <= old(records.cache.Keys + records.api.Keys)
      ensures result.None? ==> records == old(records) && Full(prefix, old(records.cache.Keys + records.api.Keys))
      ensures Full(prefix, taken) ==> result.None? && writes == old(writes)
      ensures result.Some? && result.value.NoVIP? ==> faulty && result.value.message == API_ERROR
      ensures result.Some? && result.value.VIP? ==>
                exists a: Addr :: Allocated(old(records), records, id, prefix, a) && result.value == VIP(Dotted(a))
    {
      taken' := taken;
      ghost var busy := records.cache.Keys + records.api.Keys;
      MaskedAddr(prefix);
      PrefixFits(prefix);
      var last := LastAddr(prefix);
      var candidate := NextAddr(Some(prefix.addr));
      while candidate.Some? && prefix.Contains(candidate.value)
        invariant candidate.Some? ==> Value(prefix.addr) < Value(candidate.value)
        invariant candidate.Some? ==> BusyBelow(prefix, busy, Value(candidate.value))
        invariant candidate.None? ==> Full(prefix, busy)
        invariant taken <= taken' <= busy && records == old(records)
        invariant Full(prefix, taken) ==> writes == old(writes)
        decreases if candidate.None? then 0 else MAX_VALUE + 1 - Value(candidate.value)
      {
        var a := candidate.value;
        ContainsIsRange(prefix, a);
        if a == last {
          PastIsFull(prefix, busy, a);
          return None, taken';
        }
        if Value(a) == Value(last) {
          ValueInjective(a, last);
        }
        if Dotted(a) !in taken' {
          assert Candidate(prefix, a) && Dotted(a) !in taken;
          CreatedTouchesIf(records, a, id);
          var created := CreateAddress(Dotted(a), id);
          if created.Failed? {
            return Some(NoVIP(API_ERROR)), taken';
          }
          if created.Done? {
            assert Allocated(old(records), records, id, prefix, a);
            return Some(VIP(Dotted(a))), taken';
          }
          taken' := taken' + {Dotted(a)};
        }
        BusyNext(prefix, busy, a);
        candidate := NextAddr(candidate);
      }
      if candidate.Some? {
        ContainsIsRange(prefix, candidate.value);
        PastIsFull(prefix, busy, candidate.value);
      }
      return None, taken';
    }

    /** The scan over all prefixes. */
    method Allocate(prefixes: seq<Prefix>, id: NamespacedName) returns (result: VIPResult)
      requires AllMasked(prefixes) && id.namespace != "" && id.name != ""
      modifies this`records, this`writes
      ensures Touches(old(records), records, id)
      ensures result.VIP? ==>
                exists a: Addr ::
                  && FirstFit(prefixes, old(records.cache.Keys + records.api.Keys), a) && result == VIP(Dotted(a))
                  && records == Created(old(records), Dotted(a), RecordFor(id))
      ensures result.VIP? ==>
                exists k: nat :: FirstFree(prefixes, old(records.cache.Keys + records.api.Keys), k, result.address)
      ensures result.VIP? ==> AddedFor(id, old(records.api), records.api, result.address)
      ensures result.NoVIP? && !faulty ==> result.message == NoVIPMessage(prefixes)
      ensures result.NoVIP? && result.message == NoVIPMessage(prefixes) ==>
                && Exhausted(prefixes, old(records.cache.Keys + records.api.Keys)) && records == old(records)
                && forall p, t :: p in prefixes && Within(p, t) ==> t in old(records.cache.Keys + records.api.Keys)
      ensures Exhausted(prefixes, old(records.cache.Keys)) ==>
                result == NoVIP(NoVIPMessage(prefixes)) && records == old(records) && writes == old(writes)
    {
      if |prefixes| == 0 {
        return NoVIP(NoVIPMessage(prefixes));
      }
      var taken := records.cache.Keys;
      ghost var busy := records.cache.Keys + records.api.Keys;
      for k := 0 to |prefixes|
        invariant records == old(records) && Exhausted(prefixes[..k], busy)
        invariant records.cache.Keys <= taken <= busy
        invariant Exhausted(prefixes, old(records.cache.Keys)) ==> writes == old(writes)
      {
        var attempt: Option<VIPResult>;
        assert prefixes[k] in prefixes;
        if Exhausted(prefixes, records.cache.Keys) {
          assert Full(prefixes[k], taken);
        }
        attempt, taken := AllocateIn(prefixes[k], id, taken);
        if attempt.Some? {
          if attempt.value.VIP? {
            ghost var a: Addr :| Allocated(old(records), records, id, prefixes[k], a) && attempt.value == VIP(Dotted(a));
            assert FitsAt(prefixes, busy, k, a);
            FitRecorded(old(records), prefixes, k, a, id);
          }
          return attempt.value;
        }
        assert prefixes[..k + 1] == prefixes[..k] + [prefixes[k]];
      }
      assert prefixes[..|prefixes|] == prefixes;
      ExhaustedReads(prefixes, busy);
      return NoVIP(NoVIPMessage(prefixes));
    }

    /** `ensureGatewayVIP`. */
    method EnsureGatewayVIP(prefixes: seq<Prefix>, id: NamespacedName) returns (result: VIPResult)
      requires AllMasked(prefixes) && id.namespace != "" && id.name != ""
      modifies this`records, this`writes
      ensures Touches(old(records), records, id)
      ensures result.VIP? ==> Assigned(old(records), records, prefixes, id, result.address)
      ensures result.VIP? && result.address !in OwnedNames(old(records.cache), id) ==>
                && AddedFor(id, old(records.api), records.api, result.address)
                && exists k: nat :: FirstFree(prefixes, old(records.cache.Keys + records.api.Keys), k, result.address)
      ensures result.NoVIP? && !faulty ==> result.message == NoVIPMessage(prefixes)
      ensures result.NoVIP? && result.message == NoVIPMessage(prefixes) ==>
                && OwnedNames(old(records.cache), id) == {} && records == old(records)
                && Exhausted(prefixes, old(records.cache.Keys + records.api.Keys))
                && forall p, t :: p in prefixes && Within(p, t) ==> t in old(records.cache.Keys + records.api.Keys)
      ensures OwnedNames(old(records.cache), id) == {} && Exhausted(prefixes, old(records.cache.Keys)) ==>
                result == NoVIP(NoVIPMessage(prefixes)) && records == old(records) && writes == old(writes)
      ensures forall n :: OwnedNames(old(records.cache), id) == {n} ==>
                result == VIP(n) && records == old(records) && writes == old(writes)
    {
      var owned := ListOwned(id);
      if |owned| > 0 {
        assert owned[0] in owned;
        forall n | OwnedNames(records.cache, id) == {n}
          ensures owned == [n]
        {
          EnumerationBag(owned, {n});
          assert owned[0] in owned && |owned| == 1;
        }
        result := KeepLeast(owned, id);
        return;
      }
      result := Allocate(prefixes, id);
    }

    // ---- Finalizer and status -------------------------------------------------------------

    /** `ensureGatewayFinalizer`; the API server accepts no new finalizer on an object that is being deleted. */
    method EnsureFinalizer(gateway: Gateway) returns (ok: bool, added: bool)
      requires GatewaysValid(gateways)
      modifies this`gateways, this`writes
      ensures gateways == old(gateways)
              || (gateway.Id() in old(gateways) && !old(gateways)[gateway.Id()].deleting
                  && gateways == WithFinalizer(old(gateways), gateway.Id()))
      ensures ok && added ==> gateway.Id() in old(gateways) && gateways == WithFinalizer(old(gateways), gateway.Id())
      ensures ok && added ==>
                gateways[gateway.Id()] == old(gateways)[gateway.Id()].(finalizers :=
                  old(gateways)[gateway.Id()].finalizers + ["grosskur.github.io/clusterip-gw-ip-address-protection"])
      ensures ok && !added ==> gateways == old(gateways) && writes == old(writes)
      ensures ok && !added ==> HasFinalizer(gateway) || (gateway.Id() in gateways && HasFinalizer(gateways[gateway.Id()]))
      ensures !added ==> writes == old(writes) || !ok
      ensures HasFinalizer(gateway) ==> ok && !added
      ensures !faulty && gateway.Id() in old(gateways) && old(gateways)[gateway.Id()] == gateway && !gateway.deleting ==>
                ok && added == !HasFinalizer(gateway)
    {
      if HasFinalizer(gateway) {
        return true, false;
      }
      var unread := Fails(faulty);
      var id := gateway.Id();
      if unread || id !in gateways {
        return false, false;
      }
      var current := gateways[id];
      if HasFinalizer(current) {
        return true, false;
      }
      writes := writes + 1;
      var lost := Fails(faulty);
      if lost || current.deleting {
        return false, false;
      }
      gateways := gateways[id := current.(finalizers := current.finalizers + [CONTROLLER_FINALIZER])];
      var unanswered := Fails(faulty);
      return !unanswered, !unanswered;
    }

    /** `removeGatewayFinalizer`. */
    method RemoveFinalizer(id: NamespacedName) returns (ok: bool)
      requires GatewaysValid(gateways)
      modifies this`gateways, this`writes
      ensures gateways == old(gateways) || gateways == WithoutFinalizer(old(gateways), id)
      ensures ok ==> gateways == WithoutFinalizer(old(gateways), id)
      ensures id !in old(gateways) || !HasFinalizer(old(gateways)[id]) ==> gateways == old(gateways) && writes == old(writes)
      ensures !faulty ==> ok
    {
      var unread := Fails(faulty);
      if unread {
        return false;
      }
      if id !in gateways || !HasFinalizer(gateways[id]) {
        return true;
      }
      var current := gateways[id];
      var values := new string[|current.finalizers|](i requires 0 <= i < |current.finalizers| => current.finalizers[i]);
      assert values[..] == current.finalizers;
      var kept := DeleteString(values, CONTROLLER_FINALIZER);
      writes := writes + 1;
      var lost := Fails(faulty);
      if lost {
        return false;
      }
      gateways := StoreGateway(gateways, current.(finalizers := values[..kept]));
      var unanswered := Fails(faulty);
      return !unanswered;
    }

    /** The common end of `updateGatewayStatus` and `clearManagedGatewayStatus`; a stale copy is refused as a conflict. */
    method WriteStatus(gateway: Gateway, status: GatewayStatus) returns (ok: bool)
      modifies this`gateways, this`writes
      ensures StatusWritten(old(gateways), gateways, gateway, status)
      ensures StatusEqual(gateway.status, status) ==> ok && gateways == old(gateways) && writes == old(writes)
      ensures gateway.Id() in old(gateways) && old(gateways)[gateway.Id()] == gateway ==>
                (!faulty ==> ok) && (ok ==> gateways == old(gateways)[gateway.Id() := Restated(gateway, status)])
    {
      if StatusEqual(gateway.status, status) {
        assert gateway.Id() in gateways && gateways[gateway.Id()] == gateway ==> gateways[gateway.Id() := gateway] == gateways;
        return true;
      }
      writes := writes + 1;
      var lost := Fails(faulty);
      if lost || gateway.Id() !in gateways || gateways[gateway.Id()] != gateway {
        return false;
      }
      gateways := gateways[gateway.Id() := gateway.(status := status)];
      var unanswered := Fails(faulty);
      return !unanswered;
    }

    /** `cleanupGatewayResources`: addresses first, then the finalizer. */
    method Cleanup(id: NamespacedName) returns (ok: bool)
      requires GatewaysValid(gateways)
      modifies this`records, this`gateways, this`writes
      ensures Touches(old(records), records, id)
      ensures forall n :: n in records.api ==> n in old(records.api)
      ensures gateways == old(gateways)
              || (gateways == WithoutFinalizer(old(gateways), id) && Released(old(records), records, id))
      ensures ok ==> gateways == WithoutFinalizer(old(gateways), id) && Released(old(records), records, id)
      ensures OwnedNames(old(records.cache), id) == {} && (id in old(gateways) ==> !HasFinalizer(old(gateways)[id])) ==>
                records == old(records) && gateways == old(gateways) && writes == old(writes)
      ensures !faulty ==> ok
    {
      ok := ReleaseAddresses(id);
      if !ok {
        return;
      }
      ok := RemoveFinalizer(id);
    }

    // ---- The reconcile --------------------------------------------------------------------

    /** The caches of both kinds show what the API server holds. */
    ghost predicate CaughtUp()
      reads this
    {
      AddressesCaughtUp(records) && cachedGateways == gateways
    }

    /** The branch for a Gateway of another class. */
    method ReconcileUnmanaged(gateway: Gateway) returns (ok: bool)
      requires GatewaysValid(gateways) && DistinctKinds(gateway.status.conditions) && gateway.spec.className != GATEWAY_CLASS_NAME
      modifies this`records, this`gateways, this`writes
      ensures Step(old(records), records, old(gateways), gateways, gateway.Id(), true)
      ensures old(CaughtTo(records, gateways, gateway)) && ok ==>
                ClearedAway(old(records), records, gateway, gateways)
      ensures old(CaughtTo(records, gateways, gateway)) && OwnedNames(old(records.api), gateway.Id()) == {} && !HasFinalizer(gateway) ==>
                records == old(records) && gateways == old(gateways) && writes == old(writes)
      ensures old(CaughtTo(records, gateways, gateway)) && !faulty ==> ok
    {
      var id := gateway.Id();
      var owned := ListOwned(id);
      var previouslyManaged := HasFinalizer(gateway) || |owned| > 0;
      assert previouslyManaged <==> HasFinalizer(gateway) || OwnedNames(records.cache, id) != {} by {
        EnumerationBag(owned, OwnedNames(records.cache, id));
      }
      RemovedMeaning(gateway.status.conditions, {ACCEPTED, PROGRAMMED});
      if StatusEqual(gateway.status, ClearedStatus(gateway.status)) {
        ClearedIsExact(gateway.status);
      }
      if previouslyManaged {
        ok := WriteStatus(gateway, ClearedStatus(gateway.status));
        if !ok {
          StatusStep(records, old(gateways), gateways, gateway, ClearedStatus(gateway.status));
          return;
        }
      }
      ghost var between := gateways;
      assert CaughtTo(records, old(gateways), gateway) ==> old(gateways)[id := gateway] == old(gateways);
      StatusStep(records, old(gateways), between, gateway, ClearedStatus(gateway.status));
      ok := Cleanup(id);
      CleanupStep(old(records), records, between, gateways, id);
      StatusFirst(old(records), records, old(gateways), between, gateways, id);
      if old(CaughtTo(records, gateways, gateway)) && ok {
        CleanupClears(old(records), records, old(gateways), between, gateways, gateway, previouslyManaged);
      }
    }

    /** The branch for a live Gateway of this class. */
    method ReconcileLive(gateway: Gateway, env: Environment, prefixes: seq<Prefix>) returns (ok: bool)
      requires GatewaysValid(gateways) && DistinctKinds(gateway.status.conditions) && Managed(gateway)
      requires AllMasked(prefixes) && gateway.namespace != "" && gateway.name != ""
      modifies this`records, this`gateways, this`writes
      ensures Step(old(records), records, old(gateways), gateways, gateway.Id(), old(CaughtTo(records, gateways, gateway)))
      ensures old(CaughtTo(records, gateways, gateway)) && !faulty ==> ok && Prepared(gateways, gateway.Id())
      ensures old(CaughtTo(records, gateways, gateway)) && !faulty && HasFinalizer(gateway) ==>
                Goal(records.api, gateways, env, prefixes, gateway.Id())
      ensures old(CaughtTo(records, gateways, gateway)) && HasFinalizer(gateway)
                && GoalLive(old(records.api), gateway, Evaluate(env, gateway), prefixes) ==>
                records == old(records) && gateways == old(gateways) && writes == old(writes)
      ensures old(CaughtTo(records, gateways, gateway)) && HasFinalizer(gateway) && Evaluate(env, gateway).valid
                && Singleton(OwnedNames(old(records.api), gateway.Id())) ==>
                records == old(records)
    {
      var added;
      ok, added := EnsureFinalizer(gateway);
      FinalizerStep(records, old(gateways), gateways, gateway.Id());
      if !ok || added {
        return;
      }
      var evaluation := EvaluateGateway(env, gateway);
      var published;
      ok, published := Arrange(gateway, evaluation, prefixes);
      OwnStep(old(records), records, gateways, gateway);
      if !ok {
        return;
      }
      StatusSettles(gateway, published);
      ok := WriteStatus(gateway, StatusFor(gateway, published));
      StatusLast(old(records), records, old(gateways), gateways, gateway, StatusFor(gateway, published),
        old(CaughtTo(records, gateways, gateway)));
      if old(CaughtTo(records, gateways, gateway)) && !faulty {
        GoalReached(old(records), records, gateway, env, prefixes, published);
      }
    }

    /** Release the addresses of an invalid Gateway, or see to the VIP of a valid one. */
    method Arrange(gateway: Gateway, evaluation: Evaluation, prefixes: seq<Prefix>) returns (ok: bool, published: Evaluation)
      requires AllMasked(prefixes) && gateway.namespace != "" && gateway.name != ""
      modifies this`records, this`writes
      ensures Touches(old(records), records, gateway.Id())
      ensures !faulty ==> ok && Arranged(old(records), records, gateway, evaluation, prefixes, published)
      ensures old(AddressesCaughtUp(records)) && GoalLive(old(records.api), gateway, evaluation, prefixes) ==>
                ok && records == old(records) && writes == old(writes) && StatusEqual(gateway.status, StatusFor(gateway, published))
      ensures evaluation.valid && Singleton(OwnedNames(old(records.cache), gateway.Id())) ==> records == old(records)
    {
      if !evaluation.valid {
        ok := ReleaseAddresses(gateway.Id());
        published := evaluation;
      } else {
        published := AssignVIP(gateway, evaluation, prefixes);
        ok := true;
      }
    }

    /** From the evaluation to the one that is published. */
    method AssignVIP(gateway: Gateway, evaluation: Evaluation, prefixes: seq<Prefix>) returns (published: Evaluation)
      requires AllMasked(prefixes) && gateway.namespace != "" && gateway.name != ""
      modifies this`records, this`writes
      ensures Touches(old(records), records, gateway.Id())
      ensures Chosen(old(records), records, prefixes, gateway, evaluation, published, faulty)
      ensures OwnedNames(old(records.cache), gateway.Id()) == {} && Exhausted(prefixes, old(records.cache.Keys)) ==>
                && published == WithoutVIP(evaluation, NoVIPMessage(prefixes), gateway.generation)
                && records == old(records) && writes == old(writes)
      ensures forall n :: OwnedNames(old(records.cache), gateway.Id()) == {n} ==>
                published == WithVIP(evaluation, n, gateway.generation) && records == old(records) && writes == old(writes)
    {
      var vip := EnsureGatewayVIP(prefixes, gateway.Id());
      match vip {
        case VIP(address) =>
          var listeners := SetListenerProgrammedCondition(evaluation.listeners, "Pending", "VIP reserved", gateway.generation);
          published := evaluation.(
            selectedVIP := address, programmedReason := "Pending", programmedMessage := "VIP reserved", listeners := listeners);
          assert published == WithVIP(evaluation, address, gateway.generation);
        case NoVIP(message) =>
          var listeners := SetListenerProgrammedCondition(evaluation.listeners, "AddressNotAssigned", message, gateway.generation);
          published := evaluation.(
            selectedVIP := "", programmedReason := "AddressNotAssigned", programmedMessage := message, listeners := listeners);
          assert published == WithoutVIP(evaluation, message, gateway.generation);
      }
    }

    /** `reconcileGateway`, as one step with respect to cache delivery. */
    method ReconcileGateway(env: Environment, prefixes: seq<Prefix>, id: NamespacedName) returns (ok: bool)
      requires GatewaysValid(gateways) && GatewaysValid(cachedGateways) && AllMasked(prefixes)
      modifies this`records, this`gateways, this`writes
      ensures Step(old(records), records, old(gateways), gateways, id, old(CaughtUp()))
      ensures old(CaughtUp()) && !faulty ==> Prepared(gateways, id) && (ok <==> id.namespace != "" && id.name != "")
      ensures old(CaughtUp()) && !faulty && old(Prepared(gateways, id)) ==> Goal(records.api, gateways, env, prefixes, id)
      ensures old(CaughtUp() && Goal(records.api, gateways, env, prefixes, id)) ==>
                records == old(records) && gateways == old(gateways) && writes == old(writes)
      ensures old(CaughtUp()) && ok && id in old(gateways) && !Managed(old(gateways)[id]) ==>
                ClearedAway(old(records), records, old(gateways)[id], gateways)
      ensures old(CaughtUp() && Quiet(records.api, gateways, env, id)) ==>
                forall n :: n in old(records.api) ==> n in records.api
    {
      if id.namespace == "" || id.name == "" {
        KeyRoundTrip(id);
        return false;
      }
      if id !in cachedGateways {
        return true;
      }
      var gateway := cachedGateways[id];
      if gateway.spec.className != GATEWAY_CLASS_NAME {
        ok := ReconcileUnmanaged(gateway);
        return;
      }
      if gateway.deleting {
        ok := ReconcileDeleting(gateway);
        return;
      }
      ok := ReconcileLive(gateway, env, prefixes);
    }

    method ReconcileDeleting(gateway: Gateway) returns (ok: bool)
      requires GatewaysValid(gateways) && DistinctKinds(gateway.status.conditions) && gateway.spec.className == GATEWAY_CLASS_NAME
      modifies this`records, this`gateways, this`writes
      ensures Step(old(records), records, old(gateways), gateways, gateway.Id(), true)
      ensures old(CaughtTo(records, gateways, gateway)) && ok ==> ClearedAway(old(records), records, gateway, gateways)
      ensures old(CaughtTo(records, gateways, gateway)) && OwnedNames(old(records.api), gateway.Id()) == {} && !HasFinalizer(gateway) ==>
                records == old(records) && gateways == old(gateways) && writes == old(writes)
      ensures old(CaughtTo(records, gateways, gateway)) && !faulty ==> ok
    {
      RemovedMeaning(gateway.status.conditions, {ACCEPTED, PROGRAMMED});
      ok := Cleanup(gateway.Id());
      CleanupStep(old(records), records, old(gateways), gateways, gateway.Id());
      if old(CaughtTo(records, gateways, gateway)) && ok {
        assert old(gateways) == old(gateways)[gateway.Id() := gateway.(status := gateway.status)];
        CleanupClears(old(records), records, old(gateways), old(gateways), gateways, gateway, false);
      }
    }
  }
}
