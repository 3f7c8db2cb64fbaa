/** Controllers, agent and kernel together: from any state to the right packets. */
module BringUp {
  import opened Wrappers
  import opened Sorting
  import opened Addresses
  import opened Objects
  import opened Routes
  import opened GatewayEvaluation
  import opened Bindings
  import opened Slices
  import opened SliceDiff
  import opened SliceReconcile
  import opened SelectorRounds
  import opened Records
  import opened Allocation
  import opened ControllerState
  import opened GatewayReconcile
  import opened ControllerRuns
  import opened AgentState
  import opened EndToEnd

  /** Every slice the agent would read carries some selector's key. */
  ghost predicate AllClaimed(slices: Store) {
    forall i :: i in slices && FrontendKeyForSlice(slices[i]).Some? ==> Claimed(slices[i])
  }

  /** Only these selectors have slices. */
  ghost predicate Covers(ids: seq<NamespacedName>, slices: Store) {
    forall i, id :: i in slices && Under(slices[i], id) ==> id in ids
  }

  lemma RunKeepsClaims(before: Store, after: Store, id: NamespacedName, ids: seq<NamespacedName>)
    requires WellFormed(id) && id in ids && OthersKept(before, after, UnderKey(id))
    requires AllClaimed(before) && Covers(ids, before)
    ensures AllClaimed(after) && Covers(ids, after)
  {
    forall i | i in after
      ensures FrontendKeyForSlice(after[i]).Some? ==> Claimed(after[i])
      ensures forall other :: Under(after[i], other) ==> other in ids
    {
      if UnderKey(id)(after[i]) {
        forall other | Under(after[i], other)
          ensures other == id
        {
          UnderOne(after[i], id, other);
        }
      } else {
        assert i in before && before[i] == after[i];
      }
    }
  }

  ghost function WantedIn(v: View): Wishes {
    id => Wanted(v, id)
  }

  lemma KeysExclude()
    ensures Exclusive(UnderKey)
  {
    forall slice, a, b | UnderKey(a)(slice) && UnderKey(b)(slice)
      ensures a == b
    {
      UnderOne(slice, a, b);
    }
  }

  lemma SameSelectorsComposes(a: map<NamespacedName, Selector>, b: map<NamespacedName, Selector>, c: map<NamespacedName, Selector>)
    requires SameSelectors(a, b) && SameSelectors(b, c)
    ensures SameSelectors(a, c)
  {
    forall id | id in a
      ensures a[id].(conditions := c[id].conditions) == c[id]
    {
      assert a[id].(conditions := b[id].conditions) == b[id] && b[id].(conditions := c[id].conditions) == c[id];
    }
  }

  // ---- Rounds over the selectors ------------------------------------------------------

  /** What the selector controller has to work with; `wishes` is what the view asks for. */
  ghost predicate Ready(sc: SelectorController, v: View, wishes: Wishes, ids: seq<NamespacedName>)
    reads sc
  {
    && v.Valid() && SameSelectors(v.stores.selectors, sc.selectors) && SliceStore(sc.slices)
    && AllClaimed(sc.slices) && Covers(ids, sc.slices)
    && (forall id :: id in ids ==> WellFormed(id)) && forall id :: wishes(id) == Wanted(v, id)
  }

  /** One run, with caches that have caught up; a refused create is not the end of the round. */
  method RunSelector(sc: SelectorController, v: View, ghost wishes: Wishes, id: NamespacedName, ghost ids: seq<NamespacedName>)
    returns (ok: bool)
    requires Ready(sc, v, wishes, ids) && id in ids && !sc.faulty
    modifies sc
    ensures Ready(sc, v, wishes, ids) && Ran(old(sc.slices), sc.slices, UnderKey, wishes, id)
    ensures ok ==> InSync(sc.slices, UnderKey(id), wishes(id))
    ensures ok <==> !old(Squatted(sc.slices, UnderKey(id), id.namespace, wishes(id)))
  {
    ghost var before := sc.slices;
    var existing := ListManagedEndpointSlices(sc.slices, id);
    var now := v.(stores := v.stores.(selectors := sc.selectors));
    StatusIsIrrelevant(v, now, id);
    ok := sc.ReconcileEndpointSelector(now, id, existing);
    SameSelectorsComposes(v.stores.selectors, now.stores.selectors, sc.selectors);
    RunKeepsClaims(before, sc.slices, id, ids);
  }

  method RoundTurn(
    sc: SelectorController, v: View, ghost wishes: Wishes, ids: seq<NamespacedName>, ghost start: Store, ghost first: Store,
    k: nat, ok: bool)
    returns (ok': bool)
    requires Ready(sc, v, wishes, ids) && !sc.faulty && k < |ids|
    requires Progress(start, first, sc.slices, UnderKey, wishes, ids, k, ok)
    modifies sc
    ensures Ready(sc, v, wishes, ids) && Progress(start, first, sc.slices, UnderKey, wishes, ids, k + 1, ok')
  {
    ghost var before := sc.slices;
    var done := RunSelector(sc, v, wishes, ids[k], ids);
    KeysExclude();
    ProgressStep(start, first, before, sc.slices, UnderKey, wishes, ids, k, ok, done);
    ok' := ok && done;
  }

  /** Reconcile every selector once, going on past runs that fail. */
  method Round(sc: SelectorController, v: View, ghost wishes: Wishes, ids: seq<NamespacedName>, ghost start: Store)
    returns (ok: bool)
    requires Ready(sc, v, wishes, ids) && !sc.faulty && Since(start, sc.slices, UnderKey, wishes, ids)
    modifies sc
    ensures Ready(sc, v, wishes, ids) && RoundDone(start, old(sc.slices), sc.slices, UnderKey, wishes, ids, ok)
  {
    ok := true;
    ghost var before := sc.slices;
    ProgressStart(start, before, UnderKey, wishes, ids);
    for k := 0 to |ids|
      invariant Ready(sc, v, wishes, ids) && Progress(start, before, sc.slices, UnderKey, wishes, ids, k, ok)
    {
      ok := RoundTurn(sc, v, wishes, ids, start, before, k, ok);
    }
    ProgressEnd(start, before, sc.slices, UnderKey, wishes, ids, ok);
  }

  /**
   Two rounds, or more, bring every selector in sync if the start state is open. Where no selector starts with
   two slices of one name, no number of rounds does so otherwise.
   */
  method SettleSelectors(sc: SelectorController, v: View, ghost wishes: Wishes, ids: seq<NamespacedName>, rounds: nat)
    returns (ok: bool)
    requires Ready(sc, v, wishes, ids) && !sc.faulty
    modifies sc
    ensures Ready(sc, v, wishes, ids)
    ensures rounds >= 2 && old(Open(sc.slices, UnderKey, wishes, ids)) ==> ok
    ensures rounds >= 2 ==> Served(old(sc.slices), sc.slices, UnderKey, wishes, ids)
    ensures ok && rounds > 0 ==> AllSynced(sc.slices, UnderKey, wishes, ids)
    ensures old(OneEach(sc.slices, UnderKey, ids) && !Open(sc.slices, UnderKey, wishes, ids)) ==>
              !AllSynced(sc.slices, UnderKey, wishes, ids)
  {
    ghost var start := sc.slices;
    KeysExclude();
    SinceSelf(start, UnderKey, wishes, ids);
    ok := true;
    for n := 0 to rounds
      invariant Ready(sc, v, wishes, ids) && Since(start, sc.slices, UnderKey, wishes, ids)
      invariant n > 0 ==> TrimmedAll(sc.slices, UnderKey, wishes, ids)
      invariant n > 0 && ok ==> AllSynced(sc.slices, UnderKey, wishes, ids)
      invariant n >= 2 && Open(start, UnderKey, wishes, ids) ==> ok
    {
      ok := Round(sc, v, wishes, ids, start);
    }
    if OneEach(start, UnderKey, ids) && AllSynced(sc.slices, UnderKey, wishes, ids) {
      SyncedWasOpen(start, sc.slices, UnderKey, wishes, ids);
    }
  }

  // ---- Everything at once -----------------------------------------------------------

  function EnvironmentsOf(s: Stores): NamespacedName -> Environment {
    id => Environment(s.lib, s.gatewayClass, s.routesByGateway(id), s.selectors)
  }

  /** The caches once both controllers have written what they had to write. */
  function ViewAfter(v: View, gateways: Gateways, selectors: map<NamespacedName, Selector>): View {
    v.(stores := v.stores.(gateways := gateways, selectors := selectors))
  }

  /** The Gateways that reconciling will not make disappear. */
  function LastingOf(gateways: Gateways): Gateways {
    map id | id in gateways && Lasts(gateways[id]) :: gateways[id]
  }

  /** The caches at the start, without Gateways that are about to disappear. */
  function StartView(v: View): View {
    ViewAfter(v, LastingOf(v.stores.gateways), v.stores.selectors)
  }

  lemma ViewStaysValid(v: View, gateways: Gateways)
    requires v.Valid() && forall id :: id in gateways ==> gateways[id].Id() == id
    ensures ViewAfter(v, gateways, v.stores.selectors).Valid()
  {
    var w := ViewAfter(v, gateways, v.stores.selectors);
    forall i
      ensures Enumerates(w.stores.routesByGateway(i), w.stores.RoutesUnderGateway(i))
      ensures Enumerates(w.stores.routesBySelector(i), w.stores.RoutesUnderSelector(i))
    {
      assert w.stores.RoutesUnderGateway(i) == v.stores.RoutesUnderGateway(i);
      assert w.stores.RoutesUnderSelector(i) == v.stores.RoutesUnderSelector(i);
    }
  }

  /** Settled Gateways last, so those that lasted from the start are all that is left. */
  lemma OnlyLastingLeft(
    start: Gateways, api: map<string, IPAddress>, gs: Gateways, envs: NamespacedName -> Environment, prefixes: seq<Prefix>,
    ids: seq<NamespacedName>)
    requires AllMasked(prefixes) && AllSettled(api, gs, envs, prefixes, ids) && EvolvesAll(start, gs)
    requires forall id :: id in gs ==> id in ids
    ensures SameGateways(LastingOf(start), gs)
  {
    forall id
      ensures id in gs <==> id in LastingOf(start)
      ensures id in gs ==> SameSpec(start[id], gs[id])
    {
      assert Evolves(start, gs, id);
      assert id in gs ==> Goal(api, gs, envs(id), prefixes, id);
    }
  }

  lemma NamesStayCanonical(lib: Library, start: map<string, IPAddress>, api: map<string, IPAddress>)
    requires lib.ReadsDottedQuads() && CanonicalNames(lib, start)
    requires forall n :: n in api ==> n in start || IsDotted(n)
    ensures CanonicalNames(lib, api)
  {
    forall n | n in api
      ensures n != "" && forall a :: lib.parseIPv4(n) == Some(a) ==> ReadQuad(n) == Some(a)
    {
      if n !in start {
        assert IsDotted(n);
        EmptyIsNoQuad();
      }
    }
  }

  /** The Gateways' goals, seen through the final caches. */
  lemma GoalsSettle(c: Cluster, envs: NamespacedName -> Environment, ids: seq<NamespacedName>)
    requires AllMasked(c.prefixes) && AllSettled(c.addresses, c.Gateways(), envs, c.prefixes, ids)
    requires GatewaysValid(c.Gateways()) && forall id :: id in c.Gateways() ==> id in ids
    requires forall id :: SameInputs(envs(id), EnvironmentsOf(c.view.stores)(id))
    ensures GatewaysSettled(c)
  {
    forall id | id in c.Gateways()
      ensures Goal(c.addresses, c.Gateways(), c.view.stores.EnvironmentOf(c.Gateways()[id]), c.prefixes, id)
    {
      GoalOrderFree(c.addresses, c.Gateways(), envs(id), EnvironmentsOf(c.view.stores)(id), c.prefixes, id);
      assert c.Gateways()[id].Id() == id;
    }
  }

  /** A selector nobody covers has neither slices nor wishes. */
  lemma UncoveredInSync(c: Cluster, ids: seq<NamespacedName>, id: NamespacedName)
    requires Covers(ids, c.slices) && id !in ids && id !in c.view.stores.selectors
    ensures InSync(c.slices, UnderKey(id), Wanted(c.view, id))
  {
    assert forall i :: i in c.slices ==> !UnderKey(id)(c.slices[i]);
    assert Wanted(c.view, id) == map[];
  }

  /** No selector asks for two slices of one name. */
  ghost predicate NamesApart(v: View) {
    forall id :: WellFormed(id) ==> DistinctNames(v.stores.lib, ReferencedBindings(v.stores, id))
  }

  lemma FinalSync(first: View, c: Cluster, ids: seq<NamespacedName>, id: NamespacedName)
    requires first.Valid() && SameView(first, c.view) && Covers(ids, c.slices)
    requires forall id :: id in first.stores.selectors ==> id in ids
    ensures id in ids ==> (InSync(c.slices, UnderKey(id), Wanted(c.view, id)) <==> InSync(c.slices, UnderKey(id), WantedIn(first)(id)))
    ensures id !in ids ==> InSync(c.slices, UnderKey(id), Wanted(c.view, id))
    ensures ReferencedBindings(c.view.stores, id) == ReferencedBindings(first.stores, id)
  {
    StatusIsIrrelevant(first, c.view, id);
    if id !in ids {
      UncoveredInSync(c, ids, id);
    }
  }

  lemma NamesStayApart(first: View, c: Cluster)
    requires first.Valid() && SameView(first, c.view)
    ensures NamesApart(c.view) <==> NamesApart(first)
  {
    forall id
      ensures ReferencedBindings(c.view.stores, id) == ReferencedBindings(first.stores, id)
    {
      StatusIsIrrelevant(first, c.view, id);
    }
  }

  ghost predicate EveryoneInSync(c: Cluster) {
    forall id :: WellFormed(id) ==> InSync(c.slices, UnderKey(id), Wanted(c.view, id))
  }

  lemma EveryoneSynced(first: View, c: Cluster, ids: seq<NamespacedName>)
    requires first.Valid() && SameView(first, c.view) && Covers(ids, c.slices)
    requires forall id :: id in first.stores.selectors ==> id in ids
    requires forall id :: id in ids ==> WellFormed(id)
    ensures EveryoneInSync(c) <==> AllSynced(c.slices, UnderKey, WantedIn(first), ids)
  {
    forall id
      ensures id in ids ==>
                (InSync(c.slices, UnderKey(id), Wanted(c.view, id)) <==> InSync(c.slices, UnderKey(id), WantedIn(first)(id)))
      ensures id !in ids ==> InSync(c.slices, UnderKey(id), Wanted(c.view, id))
    {
      FinalSync(first, c, ids, id);
    }
  }

  /** The selectors are settled exactly if all of them are in sync and no names clash. */
  lemma SelectorsSettledExactly(first: View, c: Cluster, ids: seq<NamespacedName>)
    requires first.Valid() && SameView(first, c.view)
    requires Covers(ids, c.slices) && AllClaimed(c.slices)
    requires forall id :: id in first.stores.selectors ==> id in ids
    requires forall id :: id in ids ==> WellFormed(id)
    ensures SelectorsSettled(c) <==> AllSynced(c.slices, UnderKey, WantedIn(first), ids) && NamesApart(first)
  {
    EveryoneSynced(first, c, ids);
    NamesStayApart(first, c);
    assert SelectorsSettled(c) <==> EveryoneInSync(c) && NamesApart(c.view);
  }

  lemma SameEnvironments(v: View, w: View, id: NamespacedName)
    requires SameSelectors(v.stores.selectors, w.stores.selectors) && w == ViewAfter(v, w.stores.gateways, w.stores.selectors)
    ensures SameInputs(EnvironmentsOf(v.stores)(id), EnvironmentsOf(w.stores)(id))
  {
  }

  lemma GatewaysSettle(v: View, c: Cluster, ids: seq<NamespacedName>)
    requires SameSelectors(v.stores.selectors, c.view.stores.selectors)
    requires c.view == ViewAfter(v, c.Gateways(), c.view.stores.selectors)
    requires AllMasked(c.prefixes) && AllSettled(c.addresses, c.Gateways(), EnvironmentsOf(v.stores), c.prefixes, ids)
    requires GatewaysValid(c.Gateways()) && forall id :: id in c.Gateways() ==> id in ids
    ensures GatewaysSettled(c)
  {
    forall id
      ensures SameInputs(EnvironmentsOf(v.stores)(id), EnvironmentsOf(c.view.stores)(id))
    {
      SameEnvironments(v, c.view, id);
    }
    GoalsSettle(c, EnvironmentsOf(v.stores), ids);
  }

  lemma SettledParts(c: Cluster)
    requires c.view.Valid() && SliceStore(c.slices) && GatewaysValid(c.Gateways()) && AllMasked(c.prefixes)
    requires c.Lib().ReadsDottedQuads() && CanonicalNames(c.Lib(), c.addresses) && GatewaysSettled(c)
    ensures Settled(c) <==> SelectorsSettled(c)
  {
  }

  lemma SameWishes(first: View, now: View)
    requires first.Valid() && SameView(first, now)
    ensures now.Valid() && forall id :: WantedIn(first)(id) == Wanted(now, id)
  {
    SameViewValid(first, now);
    forall id
      ensures WantedIn(first)(id) == Wanted(now, id)
    {
      StatusIsIrrelevant(first, now, id);
    }
  }

  /** Where the Gateways' rounds leave the caches. */
  lemma GatewaysUp(
    v: View, start: Start, gc: GatewayController, api: map<string, IPAddress>, gs: Gateways, prefixes: seq<Prefix>,
    ids: seq<NamespacedName>)
    requires v.Valid() && v.stores.lib.ReadsDottedQuads() && v.stores.gateways == start.gateways && AllMasked(prefixes)
    requires CanonicalNames(v.stores.lib, start.api) && Sound(gc, ids, start)
    requires gc.records.api == api && gc.gateways == gs && AllSettled(api, gs, EnvironmentsOf(v.stores), prefixes, ids)
    ensures CanonicalNames(v.stores.lib, api) && StartView(v).Valid()
    ensures var now := ViewAfter(v, gs, v.stores.selectors);
            SameView(StartView(v), now) && now.Valid() && forall id :: WantedIn(StartView(v))(id) == Wanted(now, id)
  {
    OnlyLastingLeft(v.stores.gateways, api, gs, EnvironmentsOf(v.stores), prefixes, ids);
    ViewStaysValid(v, LastingOf(v.stores.gateways));
    SameWishes(StartView(v), ViewAfter(v, gs, v.stores.selectors));
    NamesStayCanonical(v.stores.lib, start.api, api);
  }

  /** The Gateways' rounds, and where they leave the caches. */
  method GatewaysFirst(gc: GatewayController, v: View, prefixes: seq<Prefix>, ids: seq<NamespacedName>)
    requires v.Valid() && v.stores.lib.ReadsDottedQuads() && v.stores.gateways == gc.gateways && AllMasked(prefixes)
    requires Starts(gc, ids) && !gc.faulty && CanonicalNames(v.stores.lib, gc.records.api)
    modifies gc
    ensures GatewaysValid(gc.gateways) && forall id :: id in gc.gateways ==> id in ids
    ensures AllSettled(gc.records.api, gc.gateways, EnvironmentsOf(v.stores), prefixes, ids)
    ensures CanonicalNames(v.stores.lib, gc.records.api) && StartView(v).Valid()
    ensures var now := ViewAfter(v, gc.gateways, v.stores.selectors);
            SameView(StartView(v), now) && now.Valid() && forall id :: WantedIn(StartView(v))(id) == Wanted(now, id)
  {
    var writes;
    ghost var api, gs;
    ghost var start := Start(gc.records.api, gc.gateways);
    writes, api, gs := ConvergeAll(gc, EnvironmentsOf(v.stores), prefixes, ids);
    GatewaysUp(v, start, gc, api, gs, prefixes, ids);
  }

  /** When the cluster both controllers leave behind is settled. */
  lemma Verdict(v: View, c: Cluster, gatewayIds: seq<NamespacedName>, selectorIds: seq<NamespacedName>)
    requires StartView(v).Valid() && v.stores.lib.ReadsDottedQuads() && AllMasked(c.prefixes)
    requires c.view == ViewAfter(v, c.Gateways(), c.view.stores.selectors)
    requires SameSelectors(v.stores.selectors, c.view.stores.selectors) && SameView(StartView(v), c.view)
    requires GatewaysValid(c.Gateways()) && forall id :: id in c.Gateways() ==> id in gatewayIds
    requires AllSettled(c.addresses, c.Gateways(), EnvironmentsOf(v.stores), c.prefixes, gatewayIds)
    requires CanonicalNames(c.Lib(), c.addresses)
    requires SliceStore(c.slices) && AllClaimed(c.slices) && Covers(selectorIds, c.slices)
    requires forall id :: id in v.stores.selectors ==> id in selectorIds
    requires forall id :: id in selectorIds ==> WellFormed(id)
    ensures Settled(c) <==> AllSynced(c.slices, UnderKey, WantedIn(StartView(v)), selectorIds) && NamesApart(StartView(v))
  {
    SameViewValid(StartView(v), c.view);
    GatewaysSettle(v, c, gatewayIds);
    SettledParts(c);
    SelectorsSettledExactly(StartView(v), c, selectorIds);
  }

  /** The start state lets every selector get its slices, and no selector asks for two of one name. */
  ghost predicate Promising(slices: Store, v: View, ids: seq<NamespacedName>) {
    Open(slices, UnderKey, WantedIn(StartView(v)), ids) && NamesApart(StartView(v))
  }

  lemma PromiseKept(slices: Store, v: View, c: Cluster, ids: seq<NamespacedName>)
    requires Served(slices, c.slices, UnderKey, WantedIn(StartView(v)), ids)
    requires Settled(c) <==> AllSynced(c.slices, UnderKey, WantedIn(StartView(v)), ids) && NamesApart(StartView(v))
    ensures Promising(slices, v, ids) ==> Settled(c)
    ensures OneEach(slices, UnderKey, ids) ==> (Settled(c) <==> Promising(slices, v, ids))
  {
  }

  /**
   Without API errors, three rounds over the Gateways and two over the selectors settle the cluster if
   the start state is promising, and then the end-to-end theorems hold of it. Where no selector
   starts with two slices of one name, they settle it only then.
   */
  method BringUp(
    gc: GatewayController, sc: SelectorController, v: View, prefixes: seq<Prefix>,
    gatewayIds: seq<NamespacedName>, selectorIds: seq<NamespacedName>)
    returns (ghost c: Cluster)
    requires v.Valid() && v.stores.lib.ReadsDottedQuads() && AllMasked(prefixes)
    requires v.stores.gateways == gc.gateways && v.stores.selectors == sc.selectors
    requires Starts(gc, gatewayIds) && !gc.faulty && CanonicalNames(v.stores.lib, gc.records.api)
    requires SliceStore(sc.slices) && AllClaimed(sc.slices) && Covers(selectorIds, sc.slices) && !sc.faulty
    requires forall id :: id in sc.selectors ==> id in selectorIds
    requires forall id :: id in selectorIds ==> WellFormed(id)
    modifies gc, sc
    ensures c == Cluster(ViewAfter(v, gc.gateways, sc.selectors), sc.slices, gc.records.api, prefixes)
    ensures Promising(old(sc.slices), v, selectorIds) ==> Settled(c)
    ensures OneEach(old(sc.slices), UnderKey, selectorIds) ==> (Settled(c) <==> Promising(old(sc.slices), v, selectorIds))
  {
    GatewaysFirst(gc, v, prefixes, gatewayIds);
    var now := ViewAfter(v, gc.gateways, v.stores.selectors);
    var ok := SettleSelectors(sc, now, WantedIn(StartView(v)), selectorIds, 2);
    c := Cluster(ViewAfter(v, gc.gateways, sc.selectors), sc.slices, gc.records.api, prefixes);
    Verdict(v, c, gatewayIds, selectorIds);
    PromiseKept(old(sc.slices), v, c, selectorIds);
  }
}
