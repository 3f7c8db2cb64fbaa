/** The EndpointSlice diff: desired against existing (internal/controller/endpointselector_reconcile.go:29-109). */
module SliceReconcile {
  import opened Sorting
  import opened Objects
  import opened ApiMeaning
  import opened Faults
  import opened AgentState
  import opened Routes
  import opened GatewayEvaluation
  import opened Bindings
  import opened Slices
  import opened SliceDiff

  /** The caches a selector reconcile reads; `podsIn` lists a namespace in any order. */
  datatype View = View(stores: Stores, pods: map<NamespacedName, Pod>, podsIn: Segment -> seq<Pod>) {
    ghost predicate Valid() {
      && stores.Valid() && stores.lib.RejectsNul() && PodStore(pods)
      && forall namespace: Segment :: Enumerates(podsIn(namespace), PodsIn(pods, namespace))
    }
  }

  predicate WellFormed(id: NamespacedName) {
    id.namespace != "" && id.name != ""
  }

  /** The slices a selector asks for; none if nothing binds it. */
  ghost function Wanted(v: View, id: NamespacedName): map<Segment, EndpointSlice> {
    if id !in v.stores.selectors then map[]
    else
      var selector := v.stores.selectors[id];
      DesiredUpTo(v.stores.lib, selector, SortedKeys(BINDING_KEY, ReferencedBindings(v.stores, id)),
        DesiredEndpoints(v.stores.lib, v.pods, selector))
  }

  predicate LabelledFor(slice: EndpointSlice, id: NamespacedName) {
    && Label(slice.labels, LABEL_MANAGED_BY, "") == MANAGED_BY_VALUE
    && Label(slice.labels, SELECTOR_NAMESPACE_LABEL, "") == id.namespace
    && Label(slice.labels, SELECTOR_NAME_LABEL, "") == id.name
  }

  function UnderKey(id: NamespacedName): EndpointSlice -> bool {
    slice => Under(slice, id)
  }

  lemma LabelledIsUnder(slice: EndpointSlice, id: NamespacedName)
    requires WellFormed(id) && LabelledFor(slice, id)
    ensures UnderKey(id)(slice)
  {
  }

  lemma DesiredAsks(lib: Library, selector: Selector, b: Binding, endpoints: seq<SliceEndpoint>)
    requires b.gateway.namespace == selector.namespace
    ensures var slice := DesiredEndpointSlice(lib, selector, b, endpoints);
            slice.name == NameOf(lib, b) && slice.namespace == selector.namespace && LabelledFor(slice, selector.Id())
  {
  }

  lemma WantedComesFrom(v: View, id: NamespacedName, name: Segment) returns (b: Binding)
    requires v.Valid() && name in Wanted(v, id)
    ensures id in v.stores.selectors && v.stores.lib.selectorValid(v.stores.selectors[id].selector)
    ensures b in ReferencedBindings(v.stores, id) && name == NameOf(v.stores.lib, b) && b.gateway.namespace == id.namespace
    ensures Wanted(v, id)[name] == DesiredEndpointSlice(v.stores.lib, v.stores.selectors[id], b,
              DesiredEndpoints(v.stores.lib, v.pods, v.stores.selectors[id]))
  {
    var selector := v.stores.selectors[id];
    var bindings := SortedKeys(BINDING_KEY, ReferencedBindings(v.stores, id));
    var endpoints := DesiredEndpoints(v.stores.lib, v.pods, selector);
    DesiredComesFrom(v.stores.lib, selector, bindings, endpoints, name);
    b :| b in bindings && name == NameOf(v.stores.lib, b)
      && DesiredUpTo(v.stores.lib, selector, bindings, endpoints)[name] == DesiredEndpointSlice(v.stores.lib, selector, b, endpoints);
    SortedKeysEnumerates(BINDING_KEY, ReferencedBindings(v.stores, id));
    var r :| r in BindingRoutes(v.stores, id) && b == BoundBy(v.stores, id)(r);
    BindingInSelectorNamespace(v.stores, id, r);
  }

  /** In sync, every slice under a selector's key belongs to a binding, and says so. */
  lemma SyncedSliceSays(v: View, slices: Store, id: NamespacedName, i: NamespacedName) returns (r: NamespacedName, b: Binding)
    requires v.Valid() && InSync(slices, UnderKey(id), Wanted(v, id)) && i in slices && UnderKey(id)(slices[i])
    ensures id in v.stores.selectors && r in v.stores.routes && Bound(v.stores, id, v.stores.routes[r], b)
    ensures SliceSays(v.stores.lib, v.pods, v.stores.selectors[id], b, slices[i]) && i.name == NameOf(v.stores.lib, b)
  {
    b := WantedComesFrom(v, id, i.name);
    r :| r in BindingRoutes(v.stores, id) && b == BoundBy(v.stores, id)(r);
    BindingExactly(v.stores, id, r, b);
    DesiredSliceSays(v.stores.lib, v.pods, v.stores.selectors[id], b, slices[i]);
  }

  /** And unless two bindings ask for one name, every binding has its slice. */
  lemma BindingHasSlice(v: View, slices: Store, id: NamespacedName, r: NamespacedName, b: Binding) returns (i: NamespacedName)
    requires v.Valid() && InSync(slices, UnderKey(id), Wanted(v, id)) && id in v.stores.selectors
    requires DistinctNames(v.stores.lib, ReferencedBindings(v.stores, id))
    requires r in v.stores.routes && Bound(v.stores, id, v.stores.routes[r], b)
    ensures i in slices && UnderKey(id)(slices[i]) && i.name == NameOf(v.stores.lib, b)
    ensures SliceSays(v.stores.lib, v.pods, v.stores.selectors[id], b, slices[i])
  {
    var s, selector := v.stores, v.stores.selectors[id];
    BindingExactly(s, id, r, b);
    FoundIsReferenced(s, id, r);
    var bindings := SortedKeys(BINDING_KEY, ReferencedBindings(s, id));
    SortedKeysEnumerates(BINDING_KEY, ReferencedBindings(s, id));
    BindingGetsSlice(s.lib, selector, bindings, DesiredEndpoints(s.lib, v.pods, selector), b);
    assert Held(slices, UnderKey(id), NameOf(s.lib, b));
    i :| i in slices && UnderKey(id)(slices[i]) && i.name == NameOf(s.lib, b);
    DesiredSliceSays(s.lib, v.pods, selector, b, slices[i]);
  }

  /** Every binding of a selector is in its namespace, so its slices are. */
  lemma WantedAsks(v: View, id: NamespacedName)
    requires v.Valid()
    ensures Asks(Wanted(v, id), UnderKey(id), id.namespace)
  {
    if id in v.stores.selectors {
      var selector := v.stores.selectors[id];
      assert selector.Id() == id;
      forall name | name in Wanted(v, id)
        ensures Wanted(v, id)[name].name == name && Wanted(v, id)[name].namespace == id.namespace
        ensures UnderKey(id)(Wanted(v, id)[name]) && forall e :: UnderKey(id)(Revised(e, Wanted(v, id)[name]))
      {
        var b := WantedComesFrom(v, id, name);
        DesiredAsks(v.stores.lib, selector, b, DesiredEndpoints(v.stores.lib, v.pods, selector));
        LabelledIsUnder(Wanted(v, id)[name], id);
        forall e
          ensures UnderKey(id)(Revised(e, Wanted(v, id)[name]))
        {
          LabelledIsUnder(Revised(e, Wanted(v, id)[name]), id);
        }
      }
    }
  }

  /** Nothing binds a selector that is missing or invalid. */
  lemma UnusableIsUnreferenced(v: View, id: NamespacedName)
    requires v.Valid()
    requires id !in v.stores.selectors || !v.stores.lib.selectorValid(v.stores.selectors[id].selector)
             || ReferencedBindings(v.stores, id) == {}
    ensures Wanted(v, id) == map[]
  {
    if name :| name in Wanted(v, id) {
      var b := WantedComesFrom(v, id, name);
    }
  }

  // ---- The controller ---------------------------------------------------------------

  /** `updateEndpointSelectorStatus` replaces the whole condition list. */
  function SelectorStatus(lib: Library, selector: Selector): seq<Condition> {
    if lib.selectorValid(selector.selector)
    then [Condition("Accepted", "True", "Accepted", "accepted", selector.generation)]
    else [Condition("Accepted", "False", "Invalid", "selector is invalid", selector.generation)]
  }

  ghost predicate StatusCurrent(lib: Library, selectors: map<NamespacedName, Selector>, id: NamespacedName) {
    id in selectors ==> selectors[id].conditions == SelectorStatus(lib, selectors[id])
  }

  /** A current status says whether the selector is valid. */
  lemma CurrentSays(lib: Library, selectors: map<NamespacedName, Selector>, id: NamespacedName)
    requires id in selectors && StatusCurrent(lib, selectors, id)
    ensures SelectorSays(lib, selectors[id])
  {
  }

  method BuildDesired(lib: Library, selector: Selector, bindings: seq<Binding>, endpoints: seq<SliceEndpoint>)
    returns (desired: Wants)
    ensures desired == DesiredUpTo(lib, selector, bindings, endpoints)
  {
    desired := map[];
    for i := 0 to |bindings|
      invariant desired == DesiredUpTo(lib, selector, bindings[..i], endpoints)
    {
      assert bindings[..i + 1][..i] == bindings[..i];
      var slice := DesiredEndpointSlice(lib, selector, bindings[i], endpoints);
      desired := desired[slice.name := slice];
    }
    assert bindings[..|bindings|] == bindings;
  }

  /**
   The API objects a selector reconcile writes. `writes` counts the write calls. With `faulty` set any call
   may fail, before or after it took effect; otherwise only for the reasons the API server gives.
   */
  class SelectorController {
    var slices: map<NamespacedName, EndpointSlice>
    var selectors: map<NamespacedName, Selector>
    var writes: nat
    const faulty: bool

    method Delete(i: NamespacedName) returns (ok: bool)
      modifies this`slices, this`writes
      ensures writes == old(writes) + 1
      ensures slices == old(slices) - {i} || (!ok && slices == old(slices))
      ensures !faulty ==> ok
    {
      writes := writes + 1;
      var lost := Fails(faulty);
      if lost {
        return false;
      }
      slices := slices - {i};
      var unanswered := Fails(faulty);
      return !unanswered;
    }

    method Update(slice: EndpointSlice) returns (ok: bool)
      modifies this`slices, this`writes
      ensures writes == old(writes) + 1
      ensures (slice.Id() in old(slices) && slices == old(slices)[slice.Id() := slice]) || (!ok && slices == old(slices))
      ensures !faulty ==> (ok <==> slice.Id() in old(slices))
    {
      writes := writes + 1;
      var lost := Fails(faulty);
      if lost || slice.Id() !in slices {
        return false;
      }
      slices := slices[slice.Id() := slice];
      var unanswered := Fails(faulty);
      return !unanswered;
    }

    method Create(slice: EndpointSlice) returns (ok: bool)
      modifies this`slices, this`writes
      ensures writes == old(writes) + 1
      ensures (slice.Id() !in old(slices) && slices == old(slices)[slice.Id() := slice]) || (!ok && slices == old(slices))
      ensures !faulty ==> (ok <==> slice.Id() !in old(slices))
    {
      writes := writes + 1;
      var lost := Fails(faulty);
      if lost || slice.Id() in slices {
        return false;
      }
      slices := slices[slice.Id() := slice];
      var unanswered := Fails(faulty);
      return !unanswered;
    }

    /** `updateEndpointSelectorStatus`. */
    method UpdateSelectorStatus(lib: Library, id: NamespacedName) returns (ok: bool)
      requires id in selectors
      modifies this`selectors, this`writes
      ensures SameSelectors(old(selectors), selectors)
      ensures selectors == old(selectors)[id := old(selectors)[id].(conditions := SelectorStatus(lib, old(selectors)[id]))]
              || (!ok && selectors == old(selectors))
      ensures ok ==> SelectorSays(lib, selectors[id])
      ensures old(StatusCurrent(lib, selectors, id)) ==> ok && writes == old(writes) && selectors == old(selectors)
      ensures !faulty ==> ok
    {
      var selector := selectors[id];
      var updated := selector.(conditions := SelectorStatus(lib, selector));
      if selector == updated {
        assert selectors[id := updated] == selectors;
        return true;
      }
      writes := writes + 1;
      var lost := Fails(faulty);
      if lost {
        return false;
      }
      selectors := selectors[id := updated];
      var unanswered := Fails(faulty);
      return !unanswered;
    }

    /** One turn of the loop: delete, leave alone or update. */
    method ApplyOne(e: EndpointSlice, rest: Wants) returns (ok: bool, rest': Wants)
      requires e.Id() in slices && slices[e.Id()] == e
      modifies this`slices, this`writes
      ensures Work(slices, rest') == Turn(Work(old(slices), rest), e)
              || (!ok && (slices == old(slices) || slices == Turn(Work(old(slices), rest), e).slices))
      ensures e.name in rest && SliceEqual(e, rest[e.name]) ==> ok && writes == old(writes)
      ensures !faulty ==> ok
    {
      rest' := rest;
      if e.name !in rest {
        ok := Delete(e.Id());
        return;
      }
      if SliceEqual(e, rest[e.name]) {
        TurnKeeps(Work(slices, rest), e);
        return true, rest - {e.name};
      }
      ok := Update(Revised(e, rest[e.name]));
      if ok {
        rest' := rest - {e.name};
      }
    }

    /** The loop over the existing slices; an error stops it after some number of turns. */
    method ApplyDiff(existing: seq<EndpointSlice>, wanted: Wants) returns (ok: bool, rest: Wants, ghost turns: nat)
      requires Reachable(slices, existing, wanted)
      modifies this`slices, this`writes
      ensures turns <= |existing| && slices == DiffUpTo(old(slices), existing, turns, wanted).slices
      ensures ok ==> turns == |existing| && rest == DiffUpTo(old(slices), existing, turns, wanted).rest
      ensures old(AllMatch(slices, existing, wanted)) ==> ok && writes == old(writes)
      ensures !faulty ==> ok
    {
      rest, turns := wanted, 0;
      ghost var before := slices;
      for n := 0 to |existing|
        invariant turns == n && Work(slices, rest) == DiffUpTo(before, existing, n, wanted)
        invariant AllMatch(before, existing, wanted) ==> writes == old(writes)
      {
        assert ReachedAt(before, existing, n, wanted);
        assert AllMatch(before, existing, wanted) ==> MatchAt(before, existing, n, wanted);
        ghost var now := slices;
        ok, rest := ApplyOne(existing[n], rest);
        turns := if slices == now && !ok then n else n + 1;
        if !ok {
          return;
        }
      }
      ok := true;
    }

    method CreateOne(rest: Wants, name: Segment, ghost home: Segment, ghost base: Store, ghost landed: set<Segment>)
      returns (ok: bool, ghost landed': set<Segment>)
      requires name in rest && name !in landed && rest[name].Id() == NamespacedName(home, name)
      requires slices == base + Placed(home, rest, landed)
      modifies this`slices, this`writes
      ensures slices == base + Placed(home, rest, landed')
      ensures (landed' == landed + {name} && NamespacedName(home, name) !in base) || (!ok && landed' == landed)
      ensures !faulty ==> (ok <==> NamespacedName(home, name) !in base)
    {
      PlaceOne(base, home, rest, landed, name);
      ghost var before := slices;
      ok := Create(rest[name]);
      landed' := if slices == before then landed else landed + {name};
    }

    /** The loop over the desired slices that no existing one matched, in any order. */
    method CreateRest(home: Segment, rest: Wants) returns (ok: bool, ghost landed: set<Segment>)
      requires forall name :: name in rest ==> rest[name].Id() == NamespacedName(home, name)
      modifies this`slices, this`writes
      ensures slices == old(slices) + Placed(home, rest, landed)
      ensures landed <= rest.Keys && Vacant(old(slices), home, landed)
      ensures ok ==> landed == rest.Keys
      ensures !faulty ==> (ok <==> Vacant(old(slices), home, rest.Keys))
      ensures rest == map[] ==> ok && writes == old(writes)
    {
      landed := {};
      var todo := rest.Keys;
      while todo != {}
        invariant slices == old(slices) + Placed(home, rest, landed)
        invariant todo <= rest.Keys && landed == rest.Keys - todo && Vacant(old(slices), home, landed)
        invariant rest == map[] ==> writes == old(writes)
        decreases todo
      {
        var name :| name in todo;
        ok, landed := CreateOne(rest, name, home, old(slices), landed);
        if !ok {
          return;
        }
        todo := todo - {name};
      }
      ok := true;
    }

    /** `deleteManagedEndpointSlices`. */
    method DeleteManaged(existing: seq<EndpointSlice>) returns (ok: bool, ghost turns: nat)
      modifies this`slices, this`writes
      ensures turns <= |existing| && slices == DiffUpTo(old(slices), existing, turns, map[]).slices
      ensures ok ==> turns == |existing| && DiffUpTo(old(slices), existing, turns, map[]).rest == map[]
      ensures existing == [] ==> ok && writes == old(writes)
      ensures !faulty ==> ok
    {
      turns := 0;
      for n := 0 to |existing|
        invariant turns == n && Work(slices, map[]) == DiffUpTo(old(slices), existing, n, map[])
        invariant existing == [] ==> writes == old(writes)
      {
        ghost var now := slices;
        ok := Delete(existing[n].Id());
        turns := if slices == now && !ok then n else n + 1;
        if !ok {
          return;
        }
      }
      ok := true;
    }

    /** Diff, then create: what a run does to the slices, whose outcome `ok` reports. */
    method Settle(ghost mine: EndpointSlice -> bool, home: Segment, existing: seq<EndpointSlice>, wanted: Wants) returns (ok: bool)
      requires Asks(wanted, mine, home) && Answers(existing, slices, mine)
      modifies this`slices, this`writes
      ensures AfterRun(old(slices), slices, mine, home, existing, wanted, ok)
      ensures !faulty ==> AfterDiffRun(old(slices), slices, mine, wanted)
      ensures old(InSync(slices, mine, wanted)) ==> ok && slices == old(slices) && writes == old(writes)
      ensures !faulty ==> (ok <==> !old(Squatted(slices, mine, home, wanted)))
    {
      DiffFacts(slices, existing, mine, wanted);
      Restful(slices, existing, mine, home, wanted);
      var rest: Wants;
      ghost var turns: nat, landed: set<Segment>;
      ok, rest, turns := ApplyDiff(existing, wanted);
      if !ok {
        Stopped(old(slices), existing, mine, home, wanted, turns);
        return;
      }
      ok, landed := CreateRest(home, rest);
      Completed(old(slices), existing, mine, home, wanted, landed, ok);
    }

    /** Deleting everything is settling with nothing wanted. */
    method Clear(ghost mine: EndpointSlice -> bool, ghost home: Segment, existing: seq<EndpointSlice>) returns (ok: bool)
      requires Answers(existing, slices, mine)
      modifies this`slices, this`writes
      ensures AfterRun(old(slices), slices, mine, home, existing, map[], ok)
      ensures !faulty ==> AfterDiffRun(old(slices), slices, mine, map[])
      ensures old(InSync(slices, mine, map[])) ==> ok && slices == old(slices) && writes == old(writes)
      ensures !faulty ==> ok
    {
      ghost var turns: nat;
      NothingListed(slices, existing, mine);
      ok, turns := DeleteManaged(existing);
      if !ok {
        Stopped(old(slices), existing, mine, home, map[], turns);
        return;
      }
      assert slices + Placed(home, map[], {}) == slices;
      Completed(old(slices), existing, mine, home, map[], {}, ok);
    }

    /** `reconcileEndpointSelector`, with caught-up caches; `existing` is the answer of the slice index. */
    method ReconcileEndpointSelector(v: View, id: NamespacedName, existing: seq<EndpointSlice>) returns (ok: bool)
      requires v.Valid() && v.stores.selectors == selectors && Answers(existing, slices, UnderKey(id))
      modifies this
      ensures SameSelectors(old(selectors), selectors)
      ensures AfterRun(old(slices), slices, UnderKey(id), id.namespace, existing, Wanted(v, id), ok)
      ensures !faulty && WellFormed(id) ==> AfterDiffRun(old(slices), slices, UnderKey(id), Wanted(v, id))
      ensures ok ==> WellFormed(id) && StatusCurrent(v.stores.lib, selectors, id)
      ensures WellFormed(id) && old(InSync(slices, UnderKey(id), Wanted(v, id)) && StatusCurrent(v.stores.lib, selectors, id)) ==>
                ok && slices == old(slices) && selectors == old(selectors) && writes == old(writes)
      ensures !faulty ==> (ok <==> WellFormed(id) && !old(Squatted(slices, UnderKey(id), id.namespace, Wanted(v, id))))
    {
      if !WellFormed(id) {
        KeyRoundTrip(id);
        return false;
      }
      WantedAsks(v, id);
      if id !in selectors {
        UnusableIsUnreferenced(v, id);
        ok := Clear(UnderKey(id), id.namespace, existing);
        return;
      }
      ok := ReconcileExisting(v, id, existing);
    }

    /** The status of a selector that exists, then its slices. */
    method ReconcileExisting(v: View, id: NamespacedName, existing: seq<EndpointSlice>) returns (ok: bool)
      requires v.Valid() && v.stores.selectors == selectors && Answers(existing, slices, UnderKey(id))
      requires id in selectors && Asks(Wanted(v, id), UnderKey(id), id.namespace)
      modifies this
      ensures SameSelectors(old(selectors), selectors)
      ensures AfterRun(old(slices), slices, UnderKey(id), id.namespace, existing, Wanted(v, id), ok)
      ensures !faulty ==> AfterDiffRun(old(slices), slices, UnderKey(id), Wanted(v, id))
      ensures ok ==> StatusCurrent(v.stores.lib, selectors, id) && SelectorSays(v.stores.lib, selectors[id])
      ensures old(InSync(slices, UnderKey(id), Wanted(v, id)) && StatusCurrent(v.stores.lib, selectors, id)) ==>
                ok && slices == old(slices) && selectors == old(selectors) && writes == old(writes)
      ensures !faulty ==> (ok <==> !old(Squatted(slices, UnderKey(id), id.namespace, Wanted(v, id))))
    {
      var selector := selectors[id];
      ok := UpdateSelectorStatus(v.stores.lib, id);
      if !ok {
        return;
      }
      ok := ReconcileSlices(v, id, selector, existing);
    }

    /** The slices of a selector that exists. */
    method ReconcileSlices(v: View, id: NamespacedName, selector: Selector, existing: seq<EndpointSlice>) returns (ok: bool)
      requires v.Valid() && id in v.stores.selectors && v.stores.selectors[id] == selector && Answers(existing, slices, UnderKey(id))
      requires Asks(Wanted(v, id), UnderKey(id), id.namespace)
      modifies this`slices, this`writes
      ensures AfterRun(old(slices), slices, UnderKey(id), id.namespace, existing, Wanted(v, id), ok)
      ensures !faulty ==> AfterDiffRun(old(slices), slices, UnderKey(id), Wanted(v, id))
      ensures old(InSync(slices, UnderKey(id), Wanted(v, id))) ==> ok && slices == old(slices) && writes == old(writes)
      ensures !faulty ==> (ok <==> !old(Squatted(slices, UnderKey(id), id.namespace, Wanted(v, id))))
    {
      if !v.stores.lib.selectorValid(selector.selector) {
        UnusableIsUnreferenced(v, id);
        ok := Clear(UnderKey(id), id.namespace, existing);
        return;
      }
      var bindings := ListReferencedGatewayBindings(v.stores, id);
      if |bindings| == 0 {
        SortedKeysEnumerates(BINDING_KEY, ReferencedBindings(v.stores, id));
        UnusableIsUnreferenced(v, id);
        ok := Clear(UnderKey(id), id.namespace, existing);
        return;
      }
      var endpoints := BuildEndpointSliceEndpoints(v.stores.lib, v.pods, v.podsIn(id.namespace), selector);
      var wanted := BuildDesired(v.stores.lib, selector, bindings, endpoints);
      ok := Settle(UnderKey(id), id.namespace, existing, wanted);
    }
  }

  /** The answer of the slice index, in whatever order it yields. */
  method ListManagedEndpointSlices(slices: Store, id: NamespacedName) returns (existing: seq<EndpointSlice>)
    requires SliceStore(slices)
    ensures Answers(existing, slices, UnderKey(id))
  {
    existing := [];
    var todo, seen := slices.Keys, {};
    while todo != {}
      invariant todo + seen == slices.Keys && todo !! seen
      invariant forall x :: x in existing <==> x.Id() in seen && slices[x.Id()] == x && Under(x, id)
      invariant forall i, j :: 0 <= i < j < |existing| ==> existing[i] != existing[j]
      decreases todo
    {
      var i :| i in todo;
      if Under(slices[i], id) {
        existing := existing + [slices[i]];
      }
      todo, seen := todo - {i}, seen + {i};
    }
  }

  /** Reconciling one selector leaves every other selector that is in sync in sync. */
  lemma OthersStayInSync(before: Store, after: Store, id: NamespacedName, other: NamespacedName, wanted: Wants)
    requires OthersKept(before, after, UnderKey(id)) && id != other && InSync(before, UnderKey(other), wanted)
    ensures InSync(after, UnderKey(other), wanted)
  {
    forall i | i in before || i in after
      ensures i in before && Under(before[i], other) ==> i in after && after[i] == before[i]
      ensures i in after && Under(after[i], other) ==> i in before && before[i] == after[i]
    {
      if i in before && Under(before[i], other) && Under(before[i], id) {
        UnderOne(before[i], id, other);
      }
      if i in after && Under(after[i], other) && Under(after[i], id) {
        UnderOne(after[i], id, other);
      }
    }
    forall name | name in wanted
      ensures Held(after, UnderKey(other), name)
    {
      var i :| i in before && UnderKey(other)(before[i]) && i.name == name;
    }
  }

  lemma {:induction false} SameDesired(lib: Library, s: Selector, t: Selector, bindings: seq<Binding>, endpoints: seq<SliceEndpoint>)
    requires s.Id() == t.Id()
    ensures DesiredUpTo(lib, s, bindings, endpoints) == DesiredUpTo(lib, t, bindings, endpoints)
  {
    if bindings != [] {
      SameDesired(lib, s, t, bindings[..|bindings| - 1], endpoints);
    }
  }

  lemma SameEndpoints(lib: Library, pods: map<NamespacedName, Pod>, s: Selector, t: Selector)
    requires s.(conditions := t.conditions) == t
    ensures DesiredEndpoints(lib, pods, s) == DesiredEndpoints(lib, pods, t)
  {
    assert forall pod :: Selected(lib, s, pod) <==> Selected(lib, t, pod);
    assert ReadyEndpoints(lib, pods, s) == ReadyEndpoints(lib, pods, t);
  }

  /** Two views of the same objects, apart from what the controllers write. */
  ghost predicate SameView(v: View, w: View) {
    && w.(stores := v.stores) == v
    && SameSelectors(v.stores.selectors, w.stores.selectors) && SameGateways(v.stores.gateways, w.stores.gateways)
    && w.stores.(gateways := v.stores.gateways, selectors := v.stores.selectors) == v.stores
  }

  lemma SameViewValid(v: View, w: View)
    requires v.Valid() && SameView(v, w)
    ensures w.Valid()
  {
    forall i
      ensures Enumerates(w.stores.routesByGateway(i), w.stores.RoutesUnderGateway(i))
      ensures Enumerates(w.stores.routesBySelector(i), w.stores.RoutesUnderSelector(i))
    {
      assert w.stores.RoutesUnderGateway(i) == v.stores.RoutesUnderGateway(i);
      assert w.stores.RoutesUnderSelector(i) == v.stores.RoutesUnderSelector(i);
    }
    forall id | id in w.stores.gateways
      ensures w.stores.gateways[id].Id() == id
    {
      assert SameSpec(v.stores.gateways[id], w.stores.gateways[id]);
    }
    forall id | id in w.stores.selectors
      ensures w.stores.selectors[id].Id() == id
    {
      assert v.stores.selectors[id].(conditions := w.stores.selectors[id].conditions) == w.stores.selectors[id];
    }
  }

  /** What a selector asks for does not depend on anything the controllers write. */
  lemma StatusIsIrrelevant(v: View, w: View, id: NamespacedName)
    requires v.Valid() && SameView(v, w)
    ensures w.Valid() && Wanted(w, id) == Wanted(v, id)
    ensures ReferencedBindings(w.stores, id) == ReferencedBindings(v.stores, id)
  {
    SameViewValid(v, w);
    BindingsOrderFree(v.stores, w.stores, id);
    if id in v.stores.selectors {
      var s, t := v.stores.selectors[id], w.stores.selectors[id];
      assert s.(conditions := t.conditions) == t;
      SameEndpoints(v.stores.lib, v.pods, s, t);
      SameDesired(v.stores.lib, s, t, SortedKeys(BINDING_KEY, ReferencedBindings(v.stores, id)), DesiredEndpoints(v.stores.lib, v.pods, s));
    }
  }

  /**
   Running again right after: a first run that succeeds leaves `slices` and `selectors` in sync after `writes` writes in
   all, and the second run then succeeds, changes nothing and writes nothing.
   */
  method ReconcileTwice(c: SelectorController, v: View, id: NamespacedName)
    returns (first: bool, second: bool, writes: nat, ghost slices: Store, ghost selectors: map<NamespacedName, Selector>)
    requires v.Valid() && v.stores.selectors == c.selectors && SliceStore(c.slices)
    modifies c
    ensures OthersKept(old(c.slices), slices, UnderKey(id)) && SameSelectors(old(c.selectors), selectors)
    ensures first ==> InSync(slices, UnderKey(id), Wanted(v, id)) && StatusCurrent(v.stores.lib, selectors, id)
    ensures first ==> second && c.slices == slices && c.selectors == selectors && c.writes == writes
    ensures !c.faulty ==> (first <==> WellFormed(id) && !old(Squatted(c.slices, UnderKey(id), id.namespace, Wanted(v, id))))
  {
    var existing := ListManagedEndpointSlices(c.slices, id);
    first := c.ReconcileEndpointSelector(v, id, existing);
    writes, slices, selectors := c.writes, c.slices, c.selectors;
    existing := ListManagedEndpointSlices(c.slices, id);
    var again := v.(stores := v.stores.(selectors := c.selectors));
    StatusIsIrrelevant(v, again, id);
    second := c.ReconcileEndpointSelector(again, id, existing);
  }
}
