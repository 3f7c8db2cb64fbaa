/**
 Route status: one entry per parentRef, merged with those of other controllers
 (internal/controller/route_reconcile.go:16-76, internal/controller/status.go:176-228).
 */
module RouteStatus {
  import opened Wrappers
  import opened Text
  import opened Sorting
  import opened Folds
  import opened Objects
  import opened ApiMeaning
  import opened GatewayEvaluation
  import opened Conditions
  import opened Routes
  import opened Bindings

  datatype ParentStatus = ParentStatus(parent: ParentRef, controller: string, conditions: seq<Condition>)

  function TextOf(field: Option<string>): string {
    OrDefault(field, "")
  }

  function PortText(port: Option<int>): string {
    if port.Some? then Itoa(port.value) else ""
  }

  /** `routeParentSortKey`. */
  function SortKey(p: ParentStatus): string {
    p.controller + "/" + TextOf(p.parent.group) + "/" + TextOf(p.parent.kind) + "/" + NamespaceOr(p.parent.namespace, "")
      + "/" + p.parent.name + "/" + TextOf(p.parent.sectionName) + "/" + PortText(p.parent.port)
  }

  const PARENT_KEY := (p: ParentStatus) => SortKey(p)

  /** Group, kind, namespace and section name hold no slash; the API server validates a parentRef's name for length only. */
  predicate Plain(p: ParentRef) {
    '/' !in TextOf(p.group) && '/' !in TextOf(p.kind) && '/' !in TextOf(p.sectionName)
  }

  /** An entry as the API server admits it: controller names are domain-prefixed paths. */
  predicate Admitted(p: ParentStatus) {
    Plain(p.parent) && '/' in p.controller
  }

  /** A separator that does not occur in the right parts makes a join unambiguous. */
  lemma CutLastUnique(a: string, b: string, a': string, b': string)
    requires '/' !in b && '/' !in b' && a + "/" + b == a' + "/" + b'
    ensures a == a' && b == b'
  {
    var s := a + "/" + b;
    assert s[|a|] == '/' && s[|a'|] == '/';
    assert forall i :: |a| < i < |s| ==> s[i] == b[i - |a| - 1] && s[i] != '/';
    assert forall i :: |a'| < i < |s| ==> s[i] == b'[i - |a'| - 1] && s[i] != '/';
    assert |a| == |a'|;
    assert a == s[..|a|] && a' == s[..|a'|];
    assert b == s[|a| + 1..] && b' == s[|a'| + 1..];
  }

  lemma PortTextPlain(port: Option<int>)
    ensures '/' !in PortText(port)
  {
    if port.Some? {
      DecimalDigitsOnly(if port.value < 0 then -port.value else port.value);
    }
  }

  lemma PortTextMeans(p: Option<int>, q: Option<int>)
    requires PortText(p) == PortText(q)
    ensures p == q
  {
    if p.Some? {
      DecimalDigitsOnly(if p.value < 0 then -p.value else p.value);
    }
    if q.Some? {
      DecimalDigitsOnly(if q.value < 0 then -q.value else q.value);
    }
    if p.Some? && q.Some? {
      ItoaInjective(p.value, q.value);
    }
  }

  /** Equal sort keys mean the same controller, and parentRefs that differ at most in how they write a default. */
  lemma SortKeyMeaning(p: ParentStatus, q: ParentStatus)
    requires Plain(p.parent) && Plain(q.parent) && '/' !in p.parent.name && '/' !in q.parent.name
    requires SortKey(p) == SortKey(q)
    ensures p.controller == q.controller
    ensures TextOf(p.parent.group) == TextOf(q.parent.group) && TextOf(p.parent.kind) == TextOf(q.parent.kind)
    ensures NamespaceOr(p.parent.namespace, "") == NamespaceOr(q.parent.namespace, "") && p.parent.name == q.parent.name
    ensures TextOf(p.parent.sectionName) == TextOf(q.parent.sectionName) && p.parent.port == q.parent.port
  {
    var c, d := p.controller, q.controller;
    var g, h := c + "/" + TextOf(p.parent.group), d + "/" + TextOf(q.parent.group);
    var k, l := g + "/" + TextOf(p.parent.kind), h + "/" + TextOf(q.parent.kind);
    var n, o := k + "/" + NamespaceOr(p.parent.namespace, ""), l + "/" + NamespaceOr(q.parent.namespace, "");
    var m, r := n + "/" + p.parent.name, o + "/" + q.parent.name;
    var s, t := m + "/" + TextOf(p.parent.sectionName), r + "/" + TextOf(q.parent.sectionName);
    PortTextPlain(p.parent.port);
    PortTextPlain(q.parent.port);
    CutLastUnique(s, PortText(p.parent.port), t, PortText(q.parent.port));
    PortTextMeans(p.parent.port, q.parent.port);
    CutLastUnique(m, TextOf(p.parent.sectionName), r, TextOf(q.parent.sectionName));
    CutLastUnique(n, p.parent.name, o, q.parent.name);
    CutLastUnique(k, NamespaceOr(p.parent.namespace, ""), l, NamespaceOr(q.parent.namespace, ""));
    CutLastUnique(g, TextOf(p.parent.kind), h, TextOf(q.parent.kind));
    CutLastUnique(c, TextOf(p.parent.group), d, TextOf(q.parent.group));
  }

  lemma {:induction false} SplitLast(a: string, b: string, c: char)
    requires c !in b
    ensures SplitAt(a + [c] + b, c) == SplitAt(a, c) + [b]
  {
    var s := a + [c] + b;
    if a == "" {
      assert s[1..] == b;
      SplitWhole(b, c);
    } else {
      assert s[1..] == a[1..] + [c] + b;
      SplitLast(a[1..], b, c);
    }
  }

  /** The sort key splits into the controller's name and the six parts of the parentRef, in this order. */
  lemma SortKeyReads(p: ParentStatus)
    requires Plain(p.parent) && '/' !in p.parent.name
    ensures SplitAt(SortKey(p), '/') == SplitAt(p.controller, '/')
              + [if p.parent.group.Some? then p.parent.group.value else ""]
              + [if p.parent.kind.Some? then p.parent.kind.value else ""]
              + [if p.parent.namespace.Some? then p.parent.namespace.value else ""]
              + [p.parent.name]
              + [if p.parent.sectionName.Some? then p.parent.sectionName.value else ""]
              + [if p.parent.port.Some? then Itoa(p.parent.port.value) else ""]
  {
    var g := p.controller + "/" + TextOf(p.parent.group);
    var k := g + "/" + TextOf(p.parent.kind);
    var n := k + "/" + NamespaceOr(p.parent.namespace, "");
    var m := n + "/" + p.parent.name;
    var s := m + "/" + TextOf(p.parent.sectionName);
    SplitLast(p.controller, TextOf(p.parent.group), '/');
    SplitLast(g, TextOf(p.parent.kind), '/');
    SplitLast(k, NamespaceOr(p.parent.namespace, ""), '/');
    SplitLast(n, p.parent.name, '/');
    SplitLast(m, TextOf(p.parent.sectionName), '/');
    PortTextPlain(p.parent.port);
    SplitLast(s, PortText(p.parent.port), '/');
  }

  function Slashes(s: string): nat {
    if s == "" then 0 else (if s[0] == '/' then 1 else 0) + Slashes(s[1..])
  }

  lemma {:induction false} SlashesJoin(a: string, b: string)
    ensures Slashes(a + "/" + b) == Slashes(a) + 1 + Slashes(b)
  {
    var s := a + "/" + b;
    if a == "" {
      assert s[1..] == b;
    } else {
      assert s[1..] == a[1..] + "/" + b;
      SlashesJoin(a[1..], b);
    }
  }

  lemma {:induction false} NoSlashes(s: string)
    ensures Slashes(s) == 0 <==> '/' !in s
  {
    if s != "" {
      NoSlashes(s[1..]);
      assert s == [s[0]] + s[1..];
    }
  }

  lemma KeySlashes(p: ParentStatus)
    requires Plain(p.parent)
    ensures Slashes(SortKey(p)) == Slashes(p.controller) + 6 + Slashes(p.parent.name)
  {
    var g := p.controller + "/" + TextOf(p.parent.group);
    var k := g + "/" + TextOf(p.parent.kind);
    var n := k + "/" + NamespaceOr(p.parent.namespace, "");
    var m := n + "/" + p.parent.name;
    var s := m + "/" + TextOf(p.parent.sectionName);
    SlashesJoin(p.controller, TextOf(p.parent.group));
    SlashesJoin(g, TextOf(p.parent.kind));
    SlashesJoin(k, NamespaceOr(p.parent.namespace, ""));
    SlashesJoin(n, p.parent.name);
    SlashesJoin(m, TextOf(p.parent.sectionName));
    SlashesJoin(s, PortText(p.parent.port));
    NoSlashes(TextOf(p.parent.group));
    NoSlashes(TextOf(p.parent.kind));
    NoSlashes(NamespaceOr(p.parent.namespace, ""));
    NoSlashes(TextOf(p.parent.sectionName));
    PortTextPlain(p.parent.port);
    NoSlashes(PortText(p.parent.port));
  }

  lemma {:induction false} SlashesAt(s: string, i: nat)
    requires i < |s| && s[i] == '/' && '/' !in s[..i] && '/' !in s[i + 1..]
    ensures Slashes(s) == 1
  {
    assert s == s[..i] + "/" + s[i + 1..];
    SlashesJoin(s[..i], s[i + 1..]);
    NoSlashes(s[..i]);
    NoSlashes(s[i + 1..]);
  }

  lemma OwnNameHasOneSlash()
    ensures Slashes(CONTROLLER_NAME) == 1
  {
    SlashesAt(CONTROLLER_NAME, 18);
  }

  /** An entry of this controller never shares its key with one of another. */
  lemma OwnKeyIsOwn(x: ParentStatus, y: ParentStatus)
    requires Plain(x.parent) && '/' !in x.parent.name && x.controller == CONTROLLER_NAME
    requires Admitted(y) && SortKey(x) == SortKey(y)
    ensures y.controller == CONTROLLER_NAME && SameRef(x.parent, y.parent)
  {
    KeySlashes(x);
    KeySlashes(y);
    OwnNameHasOneSlash();
    NoSlashes(x.parent.name);
    NoSlashes(y.controller);
    NoSlashes(y.parent.name);
    SortKeyMeaning(x, y);
  }

  // ---- Merging ------------------------------------------------------------------------

  function Foreign(existing: seq<ParentStatus>): seq<ParentStatus> {
    Filter((p: ParentStatus) => p.controller != CONTROLLER_NAME, existing)
  }

  /** A list `mergeRouteParents` may return: foreign entries kept, own ones replaced, sorted by key. */
  ghost predicate Merged(out: seq<ParentStatus>, existing: seq<ParentStatus>, desired: seq<ParentStatus>) {
    SortedBy(PARENT_KEY, out) && multiset(out) == multiset(Foreign(existing) + desired)
  }

  method MergeRouteParents(existing: seq<ParentStatus>, desired: seq<ParentStatus>) returns (out: seq<ParentStatus>)
    ensures Merged(out, existing, desired)
  {
    var kept: seq<ParentStatus> := [];
    var p := (p: ParentStatus) => p.controller != CONTROLLER_NAME;
    for i := 0 to |existing|
      invariant kept == Filter(p, existing[..i])
    {
      assert existing[..i + 1][..i] == existing[..i];
      if existing[i].controller == CONTROLLER_NAME {
        continue;
      }
      kept := kept + [existing[i]];
    }
    assert existing[..|existing|] == existing;
    out := SortFunc(PARENT_KEY, kept + desired);
  }

  /** `routeParentsEqual`. */
  predicate ParentsEqual(a: seq<ParentStatus>, b: seq<ParentStatus>) {
    |a| == |b| && forall i :: 0 <= i < |a| ==> SortKey(a[i]) == SortKey(b[i]) && a[i].conditions == b[i].conditions
  }

  /** Entries with the same sort key agree on their conditions. */
  ghost predicate KeyDecides(s: seq<ParentStatus>) {
    forall x, y :: x in s && y in s && SortKey(x) == SortKey(y) ==> x.conditions == y.conditions
  }

  const SAME := (s: string) => s

  ghost function KeyBag(): ParentStatus -> multiset<string> {
    (p: ParentStatus) => multiset{SortKey(p)}
  }

  lemma {:induction false} KeysAreBagSum(s: seq<ParentStatus>)
    ensures multiset(Map(PARENT_KEY, s)) == BagSum(KeyBag(), s)
  {
    if s != [] {
      KeysAreBagSum(s[..|s| - 1]);
    }
  }

  lemma KeysSorted(s: seq<ParentStatus>)
    requires SortedBy(PARENT_KEY, s)
    ensures SortedBy(SAME, Map(PARENT_KEY, s))
  {
    MapAt(PARENT_KEY, s);
    var keys := Map(PARENT_KEY, s);
    forall i, j | 0 <= i < j < |keys|
      ensures LessEqual(SAME(keys[i]), SAME(keys[j]))
    {
      assert keys[i] == PARENT_KEY(s[i]) && keys[j] == PARENT_KEY(s[j]);
    }
  }

  /** Two sorted permutations have the same keys in the same places. */
  lemma SortedKeysAgree(a: seq<ParentStatus>, b: seq<ParentStatus>)
    requires SortedBy(PARENT_KEY, a) && SortedBy(PARENT_KEY, b) && multiset(a) == multiset(b)
    ensures Map(PARENT_KEY, a) == Map(PARENT_KEY, b)
  {
    KeysAreBagSum(a);
    KeysAreBagSum(b);
    BagSumOrderFree(KeyBag(), a, b);
    KeysSorted(a);
    KeysSorted(b);
    SortedUnique(SAME, Map(PARENT_KEY, a), Map(PARENT_KEY, b));
  }

  /** If keys decide, the comparison cannot tell two outcomes of the unstable sort apart. */
  lemma SortsAgree(a: seq<ParentStatus>, b: seq<ParentStatus>)
    requires SortedBy(PARENT_KEY, a) && SortedBy(PARENT_KEY, b) && multiset(a) == multiset(b) && KeyDecides(a)
    ensures ParentsEqual(a, b)
  {
    SortedKeysAgree(a, b);
    MultisetMembers(a, b);
    MapAt(PARENT_KEY, a);
    MapAt(PARENT_KEY, b);
    forall i | 0 <= i < |a|
      ensures SortKey(a[i]) == SortKey(b[i]) && a[i].conditions == b[i].conditions
    {
      assert Map(PARENT_KEY, a)[i] == Map(PARENT_KEY, b)[i];
      assert a[i] in a && b[i] in b;
    }
  }

  lemma SwapBag<T>(s: seq<T>, i: nat, j: nat)
    requires i < j < |s|
    ensures multiset(s[i := s[j]][j := s[i]]) == multiset(s)
  {
  }

  /** Swapping two entries of one key leaves a list sorted. */
  lemma SwapStaysSorted(a: seq<ParentStatus>, i: nat, j: nat)
    requires SortedBy(PARENT_KEY, a) && i < j < |a| && SortKey(a[i]) == SortKey(a[j])
    ensures SortedBy(PARENT_KEY, a[i := a[j]][j := a[i]])
  {
    var b := a[i := a[j]][j := a[i]];
    forall k, l | 0 <= k < l < |b|
      ensures LessEqual(PARENT_KEY(b[k]), PARENT_KEY(b[l]))
    {
      assert SortKey(b[k]) == SortKey(a[k]) && SortKey(b[l]) == SortKey(a[l]);
      assert LessEqual(PARENT_KEY(a[k]), PARENT_KEY(a[l]));
    }
  }

  /** Where two entries with one key disagree. */
  lemma FindTie(a: seq<ParentStatus>) returns (i: nat, j: nat)
    requires !KeyDecides(a)
    ensures i < j < |a| && SortKey(a[i]) == SortKey(a[j]) && a[i].conditions != a[j].conditions
  {
    var x, y :| x in a && y in a && SortKey(x) == SortKey(y) && x.conditions != y.conditions;
    i :| 0 <= i < |a| && a[i] == x;
    j :| 0 <= j < |a| && a[j] == y;
    if j < i {
      i, j := j, i;
    }
  }

  /** If they do not, some other outcome of the sort looks different, and the status would be written again. */
  lemma TiesCanFlip(a: seq<ParentStatus>) returns (b: seq<ParentStatus>)
    requires SortedBy(PARENT_KEY, a) && !KeyDecides(a)
    ensures SortedBy(PARENT_KEY, b) && multiset(b) == multiset(a) && !ParentsEqual(a, b)
  {
    var i, j := FindTie(a);
    b := a[i := a[j]][j := a[i]];
    SwapBag(a, i, j);
    SwapStaysSorted(a, i, j);
    assert b[i] == a[j];
  }

  // ---- Reconciling a route --------------------------------------------------------------

  function StatusText(ok: bool): string {
    if ok then "True" else "False"
  }

  function RouteConditions(e: RouteEvaluation, generation: int): seq<Condition> {
    MergeConditions([],
      [Condition("Accepted", StatusText(e.accepted), e.acceptedReason, e.acceptedMessage, generation),
       Condition("ResolvedRefs", StatusText(e.resolved), e.resolvedReason, e.resolvedMessage, generation)])
  }

  /** The entry for one parentRef, if it names a stored Gateway of this class. */
  function EntryFor(s: Stores, route: Route, parent: ParentRef, generation: int): Option<ParentStatus> {
    if !IsGatewayParentRef(parent) then None
    else match FindGateway(s.gateways, ParentNamespace(route, parent), parent.name)
      case None => None
      case Some(g) =>
        if g.spec.className != GATEWAY_CLASS_NAME then None
        else
          var e := EvaluateRoute(s.lib, s.selectors, route, parent, g, s.gatewayClass, s.routesByGateway(g.Id()));
          Some(ParentStatus(parent, CONTROLLER_NAME, RouteConditions(e, generation)))
  }

  function Entries(s: Stores, route: Route, parents: seq<ParentRef>, generation: int): seq<ParentStatus> {
    if parents == [] then []
    else
      var n := |parents| - 1;
      var entry := EntryFor(s, route, parents[n], generation);
      Entries(s, route, parents[..n], generation) + (if entry.Some? then [entry.value] else [])
  }

  // ---- What an entry says -----------------------------------------------------------------

  /** The parentRef names this stored Gateway, and that is of this class. */
  ghost predicate NamesOurs(s: Stores, route: Route, parent: ParentRef, gateway: NamespacedName) {
    && gateway in s.gateways && s.gateways[gateway].spec.className == "clusterip-gw"
    && NamesGateway(route.namespace, parent, gateway)
  }

  /** The route attaches alone, by its only parentRef, to the one listener that selects. */
  ghost predicate AttachesAlone(s: Stores, route: Route, parent: ParentRef, g: Gateway) {
    && route.namespace == g.namespace && |route.parentRefs| == 1 && ListenersFit(g.spec.listeners)
    && exists l :: PicksOnly(parent, g.spec.listeners, l)
         && forall r :: r in s.routes.Values && AttachesTo(r, g.Id(), l) ==> r == route
  }

  /** The two conditions of an entry, and their reasons. */
  ghost predicate EntrySays(s: Stores, route: Route, parent: ParentRef, g: Gateway, conditions: seq<Condition>, generation: int) {
    var ours := ClassIsOurs(s.gatewayClass);
    var accepted := ours && AttachesAlone(s, route, parent, g);
    && |conditions| == 2
    && Says(conditions[0], "Accepted", accepted,
         if !ours then "Pending" else if route.namespace != g.namespace then "NotAllowedByListeners"
         else if accepted then "Accepted" else "UnsupportedValue", generation)
    && Says(conditions[1], "ResolvedRefs", !ours || BackendUsable(s.lib, s.selectors, route),
         if ours then BackendReason(s.lib, s.selectors, route) else "ResolvedRefs", generation)
  }

  lemma ConditionsSay(e: RouteEvaluation, generation: int)
    ensures var c := RouteConditions(e, generation);
            && |c| == 2 && Says(c[0], "Accepted", e.accepted, e.acceptedReason, generation)
            && Says(c[1], "ResolvedRefs", e.resolved, e.resolvedReason, generation)
  {
    MergeTwo(
      Condition("Accepted", StatusText(e.accepted), e.acceptedReason, e.acceptedMessage, generation),
      Condition("ResolvedRefs", StatusText(e.resolved), e.resolvedReason, e.resolvedMessage, generation));
  }

  lemma ResolvesAlone(s: Stores, id: NamespacedName, parent: ParentRef, g: Gateway, l: Listener)
    requires s.Valid() && id in s.routes && s.routes[id].parentRefs == [parent] && s.routes[id].namespace == g.namespace
    requires NamesGateway(g.namespace, parent, g.Id()) && PicksOnly(parent, g.spec.listeners, l)
    ensures |AttachedRoutes(g, l, s.routesByGateway(g.Id()))| == 1 <==>
            forall r :: r in s.routes.Values && AttachesTo(r, g.Id(), l) ==> r == s.routes[id]
  {
    var route, answer := s.routes[id], s.routesByGateway(g.Id());
    IndexedEnvironment(s, g);
    assert parent in route.parentRefs && AttachesTo(route, g.Id(), l);
    AttachingIsAnswered(s, g, l, route);
    AttachedAlone(g, l, answer, route);
    assert Enumerates(answer, s.RoutesUnderGateway(g.Id()));
    if OnlyRoute(answer, g.Id(), l, route) {
      forall r | r in s.routes.Values && AttachesTo(r, g.Id(), l)
        ensures r == route
      {
        AttachingIsAnswered(s, g, l, r);
      }
    }
  }

  /** When a route is accepted, and why not. */
  lemma AttachmentMeaning(s: Stores, id: NamespacedName, parent: ParentRef, g: Gateway)
    requires s.Valid() && id in s.routes && parent in s.routes[id].parentRefs
    requires NamesGateway(s.routes[id].namespace, parent, g.Id())
    ensures var route := s.routes[id];
            var a := EvaluateAttachment(route, parent, g, s.routesByGateway(g.Id()));
            && a.ok == AttachesAlone(s, route, parent, g)
            && a.reason ==
               if route.namespace != g.namespace then "NotAllowedByListeners" else if a.ok then "Accepted" else "UnsupportedValue"
  {
    var route := s.routes[id];
    if route.namespace == g.namespace && |route.parentRefs| == 1 {
      assert route.parentRefs == [parent];
      var r := ResolveListener(g, parent);
      if r.Resolved? {
        ResolveExactly(g, parent, r.listener);
        ResolvesAlone(s, id, parent, g, r.listener);
      }
      if AttachesAlone(s, route, parent, g) {
        var l :| PicksOnly(parent, g.spec.listeners, l) && forall r :: r in s.routes.Values && AttachesTo(r, g.Id(), l) ==> r == route;
        ResolveExactly(g, parent, l);
        ResolvesAlone(s, id, parent, g, l);
      }
    }
  }

  lemma JudgementSays(s: Stores, id: NamespacedName, parent: ParentRef, gid: NamespacedName, generation: int)
    requires s.Valid() && id in s.routes && parent in s.routes[id].parentRefs && NamesOurs(s, s.routes[id], parent, gid)
    ensures var route, g := s.routes[id], s.gateways[gid];
            var e := EvaluateRoute(s.lib, s.selectors, route, parent, g, s.gatewayClass, s.routesByGateway(gid));
            EntrySays(s, route, parent, g, RouteConditions(e, generation), generation)
  {
    var route, g := s.routes[id], s.gateways[gid];
    AttachmentMeaning(s, id, parent, g);
    BackendMeaning(s.lib, s.selectors, route);
    ConditionsSay(EvaluateRoute(s.lib, s.selectors, route, parent, g, s.gatewayClass, s.routesByGateway(gid)), generation);
  }

  lemma GoodIsAlone(s: Stores, id: NamespacedName, parent: ParentRef, g: Gateway, l: Listener)
    requires s.Valid() && id in s.routes && parent in s.routes[id].parentRefs && RouteServes(s, g, l, s.routes[id])
    ensures AttachesAlone(s, s.routes[id], parent, g)
  {
    assert parent == s.routes[id].parentRefs[0];
    assert PicksOnly(parent, g.spec.listeners, l);
  }

  lemma AloneIsGood(s: Stores, id: NamespacedName, parent: ParentRef, gid: NamespacedName) returns (l: Listener)
    requires s.Valid() && id in s.routes && parent in s.routes[id].parentRefs && NamesOurs(s, s.routes[id], parent, gid)
    requires ClassIsOurs(s.gatewayClass) && AttachesAlone(s, s.routes[id], parent, s.gateways[gid])
    requires BackendUsable(s.lib, s.selectors, s.routes[id])
    ensures RouteServes(s, s.gateways[gid], l, s.routes[id]) && s.routes[id] in s.routesByGateway(gid)
  {
    var route, g := s.routes[id], s.gateways[gid];
    l :| PicksOnly(parent, g.spec.listeners, l) && forall r :: r in s.routes.Values && AttachesTo(r, g.Id(), l) ==> r == route;
    assert parent == route.parentRefs[0] && Chooses(route, g, l);
    assert AttachesTo(route, g.Id(), l);
    AttachingIsAnswered(s, g, l, route);
  }

  /** An entry is accepted and resolved exactly if the Gateway counts the route among its good ones. */
  lemma EntryAgreesWithGateway(
    s: Stores, id: NamespacedName, parent: ParentRef, gid: NamespacedName, conditions: seq<Condition>, generation: int)
    requires s.Valid() && id in s.routes && parent in s.routes[id].parentRefs && NamesOurs(s, s.routes[id], parent, gid)
    requires EntrySays(s, s.routes[id], parent, s.gateways[gid], conditions, generation)
    ensures conditions[0].status == "True" && conditions[1].status == "True" <==>
            s.routes[id] in GoodRoutes(s.EnvironmentOf(s.gateways[gid]), s.gateways[gid])
  {
    var route, g, env := s.routes[id], s.gateways[gid], s.EnvironmentOf(s.gateways[gid]);
    IndexedEnvironment(s, g);
    if route in GoodRoutes(env, g) {
      GoodMeaning(env, g, route);
      var l :| GoodFor(env, g, l, route);
      ServesMeaning(s, g, l, route);
      GoodIsAlone(s, id, parent, g, l);
    }
    if ClassIsOurs(s.gatewayClass) && AttachesAlone(s, route, parent, g) && BackendUsable(s.lib, s.selectors, route) {
      var l := AloneIsGood(s, id, parent, gid);
      ServesMeaning(s, g, l, route);
      GoodMeaning(env, g, route);
    }
  }

  /** There is an entry for exactly the parentRefs that name a stored Gateway of this class, and this is what it says. */
  lemma EntryMeaning(s: Stores, id: NamespacedName, parent: ParentRef, generation: int)
    requires s.Valid() && id in s.routes && parent in s.routes[id].parentRefs
    ensures EntryFor(s, s.routes[id], parent, generation).Some? <==> exists gid :: NamesOurs(s, s.routes[id], parent, gid)
    ensures forall gid :: NamesOurs(s, s.routes[id], parent, gid) && EntryFor(s, s.routes[id], parent, generation).Some? ==>
              var x := EntryFor(s, s.routes[id], parent, generation).value;
              && x.parent == parent && x.controller == "grosskur.github.io/clusterip-gw"
              && EntrySays(s, s.routes[id], parent, s.gateways[gid], x.conditions, generation)
  {
    var route := s.routes[id];
    forall gid | NamesOurs(s, route, parent, gid)
      ensures EntryFor(s, route, parent, generation).Some?
      ensures var x := EntryFor(s, route, parent, generation).value;
              && x.parent == parent && x.controller == "grosskur.github.io/clusterip-gw"
              && EntrySays(s, route, parent, s.gateways[gid], x.conditions, generation)
    {
      RefersMeaning(route, parent, gid);
      JudgementSays(s, id, parent, gid, generation);
    }
    if EntryFor(s, route, parent, generation).Some? {
      var gid := NamespacedName(ParentNamespace(route, parent), parent.name);
      RefersMeaning(route, parent, gid);
      assert NamesOurs(s, route, parent, gid);
    }
  }

  lemma EntryExists(s: Stores, id: NamespacedName, parent: ParentRef, generation: int)
    requires s.Valid() && id in s.routes && parent in s.routes[id].parentRefs
    ensures EntryFor(s, s.routes[id], parent, generation).Some? <==> exists gid :: NamesOurs(s, s.routes[id], parent, gid)
  {
    EntryMeaning(s, id, parent, generation);
  }

  lemma {:induction false} EntriesComeFrom(s: Stores, route: Route, parents: seq<ParentRef>, generation: int, x: ParentStatus)
    requires x in Entries(s, route, parents, generation)
    ensures x.parent in parents && EntryFor(s, route, x.parent, generation) == Some(x)
    ensures x.controller == CONTROLLER_NAME && '/' !in x.parent.name
  {
    var n := |parents| - 1;
    if x in Entries(s, route, parents[..n], generation) {
      EntriesComeFrom(s, route, parents[..n], generation, x);
    }
  }

  /** Two parentRefs of one route with the same key name the same Gateway and are judged the same. */
  lemma OwnEntriesAgree(s: Stores, route: Route, generation: int, x: ParentStatus, y: ParentStatus)
    requires s.Valid() && forall p :: p in route.parentRefs ==> Plain(p)
    requires x in Entries(s, route, route.parentRefs, generation) && y in Entries(s, route, route.parentRefs, generation)
    requires SortKey(x) == SortKey(y)
    ensures x.conditions == y.conditions
  {
    EntriesComeFrom(s, route, route.parentRefs, generation, x);
    EntriesComeFrom(s, route, route.parentRefs, generation, y);
    SortKeyMeaning(x, y);
    assert ParentNamespace(route, x.parent) == ParentNamespace(route, y.parent);
    if |route.parentRefs| == 1 {
      assert x.parent == y.parent;
    }
  }

  lemma MergedMembers(out: seq<ParentStatus>, existing: seq<ParentStatus>, desired: seq<ParentStatus>)
    requires Merged(out, existing, desired)
    ensures forall x :: x in out <==> x in Foreign(existing) || x in desired
  {
    MultisetMembers(out, Foreign(existing) + desired);
  }

  lemma EntryKinds(s: Stores, route: Route, generation: int, existing: seq<ParentStatus>, x: ParentStatus)
    requires forall p :: p in route.parentRefs ==> Plain(p)
    requires forall y :: y in existing ==> Admitted(y)
    ensures x in Foreign(existing) ==> x.controller != CONTROLLER_NAME && Admitted(x)
    ensures x in Entries(s, route, route.parentRefs, generation) ==>
              x.controller == CONTROLLER_NAME && Plain(x.parent) && '/' !in x.parent.name
  {
    FilterMembers((p: ParentStatus) => p.controller != CONTROLLER_NAME, existing, x);
    if x in Entries(s, route, route.parentRefs, generation) {
      EntriesComeFrom(s, route, route.parentRefs, generation, x);
    }
  }

  /** Only entries of other controllers can make a merge ambiguous. */
  lemma ForeignDecide(s: Stores, route: Route, generation: int, existing: seq<ParentStatus>, out: seq<ParentStatus>)
    requires s.Valid() && forall p :: p in route.parentRefs ==> Plain(p)
    requires forall x :: x in existing ==> Admitted(x)
    requires Merged(out, existing, Entries(s, route, route.parentRefs, generation)) && KeyDecides(Foreign(existing))
    ensures KeyDecides(out)
  {
    var desired := Entries(s, route, route.parentRefs, generation);
    MergedMembers(out, existing, desired);
    forall x, y | x in out && y in out && SortKey(x) == SortKey(y)
      ensures x.conditions == y.conditions
    {
      EntryKinds(s, route, generation, existing, x);
      EntryKinds(s, route, generation, existing, y);
      if x in desired && y in desired {
        OwnEntriesAgree(s, route, generation, x, y);
      } else if x in desired {
        OwnKeyIsOwn(x, y);
      } else if y in desired {
        OwnKeyIsOwn(y, x);
      }
    }
  }

  ghost function ForeignBag(): ParentStatus -> multiset<ParentStatus> {
    (p: ParentStatus) => if p.controller != CONTROLLER_NAME then multiset{p} else multiset{}
  }

  lemma {:induction false} ForeignOf(s: seq<ParentStatus>)
    ensures multiset(Foreign(s)) == BagSum(ForeignBag(), s)
  {
    if s != [] {
      ForeignOf(s[..|s| - 1]);
    }
  }

  lemma {:induction false} AllForeign(s: seq<ParentStatus>)
    requires forall x :: x in s ==> x.controller != CONTROLLER_NAME
    ensures BagSum(ForeignBag(), s) == multiset(s)
  {
    if s != [] {
      var n := |s| - 1;
      assert s[n] in s;
      AllForeign(s[..n]);
      assert s == s[..n] + [s[n]];
    }
  }

  lemma {:induction false} NoneForeign(s: seq<ParentStatus>)
    requires forall x :: x in s ==> x.controller == CONTROLLER_NAME
    ensures BagSum(ForeignBag(), s) == multiset{}
  {
    if s != [] {
      assert s[|s| - 1] in s;
      NoneForeign(s[..|s| - 1]);
    }
  }

  lemma {:induction false} BagSumAppend(f: ParentStatus -> multiset<ParentStatus>, a: seq<ParentStatus>, b: seq<ParentStatus>)
    ensures BagSum(f, a + b) == BagSum(f, a) + BagSum(f, b)
  {
    if b == [] {
      assert a + b == a;
    } else {
      var n := |b| - 1;
      assert (a + b)[..|a| + n] == a + b[..n];
      BagSumAppend(f, a, b[..n]);
    }
  }

  /** Merging keeps every entry of every other controller, with its multiplicity. */
  lemma MergeKeepsForeign(out: seq<ParentStatus>, existing: seq<ParentStatus>, desired: seq<ParentStatus>)
    requires Merged(out, existing, desired) && forall x :: x in desired ==> x.controller == CONTROLLER_NAME
    ensures multiset(Foreign(out)) == multiset(Foreign(existing))
  {
    forall x | x in Foreign(existing)
      ensures x.controller != CONTROLLER_NAME
    {
      FilterMembers((p: ParentStatus) => p.controller != CONTROLLER_NAME, existing, x);
    }
    ForeignOf(out);
    BagSumOrderFree(ForeignBag(), out, Foreign(existing) + desired);
    BagSumAppend(ForeignBag(), Foreign(existing), desired);
    AllForeign(Foreign(existing));
    NoneForeign(desired);
  }

  /** The list is stored with one write, unless the stored one already compares equal. */
  ghost predicate Written(
    before: map<NamespacedName, seq<ParentStatus>>, after: map<NamespacedName, seq<ParentStatus>>, writes: nat, writes': nat,
    id: NamespacedName, out: seq<ParentStatus>)
    requires id in before
  {
    if ParentsEqual(before[id], out) then after == before && writes' == writes
    else after == before[id := out] && writes' == writes + 1
  }

  method DesiredEntries(s: Stores, route: Route, generation: int) returns (desired: seq<ParentStatus>)
    ensures desired == Entries(s, route, route.parentRefs, generation)
  {
    desired := [];
    var parents := route.parentRefs;
    for i := 0 to |parents|
      invariant desired == Entries(s, route, parents[..i], generation)
    {
      assert parents[..i + 1][..i] == parents[..i];
      var entry := EntryFor(s, route, parents[i], generation);
      if entry.None? {
        continue;
      }
      desired := desired + [entry.value];
    }
    assert parents[..|parents|] == parents;
  }

  lemma EntriesAreOwn(s: Stores, route: Route, generation: int)
    ensures forall x :: x in Entries(s, route, route.parentRefs, generation) ==> x.controller == CONTROLLER_NAME
  {
    forall x | x in Entries(s, route, route.parentRefs, generation)
      ensures x.controller == CONTROLLER_NAME
    {
      EntriesComeFrom(s, route, route.parentRefs, generation, x);
    }
  }

  // ---- What the stored list says ------------------------------------------------------------

  /** The positions of this controller's entries. */
  ghost function OwnAt(list: seq<ParentStatus>): set<nat> {
    set i: nat | i < |list| && list[i].controller == "grosskur.github.io/clusterip-gw"
  }

  /** The positions of the parentRefs, of the first `n`, that name a stored Gateway of this class. */
  ghost function OursUpTo(s: Stores, route: Route, n: nat): set<nat>
    requires n <= |route.parentRefs|
  {
    set k: nat | k < n && exists gid :: NamesOurs(s, route, route.parentRefs[k], gid)
  }

  /** The entry stands for this parentRef. */
  ghost predicate Stands(s: Stores, route: Route, parent: ParentRef, x: ParentStatus, generation: int) {
    && x.controller == "grosskur.github.io/clusterip-gw" && SameRef(x.parent, parent)
    && exists gid :: NamesOurs(s, route, parent, gid) && EntrySays(s, route, parent, s.gateways[gid], x.conditions, generation)
  }

  /** Some entry of the list stands for parentRef `k`. */
  ghost predicate Listed(s: Stores, route: Route, generation: int, list: seq<ParentStatus>, k: nat) {
    && k < |route.parentRefs|
    && exists i: nat :: i < |list| && Stands(s, route, route.parentRefs[k], list[i], generation)
  }

  /** Entry `i` stands for some parentRef. */
  ghost predicate Justified(s: Stores, route: Route, generation: int, list: seq<ParentStatus>, i: nat) {
    && i < |list|
    && exists k: nat :: k < |route.parentRefs| && Stands(s, route, route.parentRefs[k], list[i], generation)
  }

  /** The list has an entry of this controller for each parentRef that names a stored Gateway of this class, and no other. */
  ghost predicate ListReports(s: Stores, route: Route, generation: int, list: seq<ParentStatus>) {
    var refs := OursUpTo(s, route, |route.parentRefs|);
    && |OwnAt(list)| == |refs|
    && (forall k {:trigger Listed(s, route, generation, list, k)} :: k in refs ==> Listed(s, route, generation, list, k))
    && (forall i {:trigger Justified(s, route, generation, list, i)} :: i in OwnAt(list) ==> Justified(s, route, generation, list, i))
  }

  lemma {:induction false} OwnCount(list: seq<ParentStatus>)
    ensures |OwnAt(list)| + |Foreign(list)| == |list|
  {
    if list == [] {
      assert OwnAt(list) == {};
    } else {
      var n := |list| - 1;
      OwnCount(list[..n]);
      if list[n].controller == CONTROLLER_NAME {
        assert OwnAt(list) == OwnAt(list[..n]) + {n};
      } else {
        assert OwnAt(list) == OwnAt(list[..n]);
      }
    }
  }

  lemma OursGrow(s: Stores, route: Route, n: nat)
    requires n < |route.parentRefs|
    ensures |OursUpTo(s, route, n + 1)| ==
            |OursUpTo(s, route, n)| + if exists gid :: NamesOurs(s, route, route.parentRefs[n], gid) then 1 else 0
  {
    if exists gid :: NamesOurs(s, route, route.parentRefs[n], gid) {
      assert OursUpTo(s, route, n + 1) == OursUpTo(s, route, n) + {n};
    } else {
      assert OursUpTo(s, route, n + 1) == OursUpTo(s, route, n);
    }
  }

  lemma EntriesGrow(s: Stores, route: Route, n: nat, generation: int)
    requires n < |route.parentRefs|
    ensures |Entries(s, route, route.parentRefs[..n + 1], generation)| ==
            |Entries(s, route, route.parentRefs[..n], generation)|
              + if EntryFor(s, route, route.parentRefs[n], generation).Some? then 1 else 0
  {
    assert route.parentRefs[..n + 1][..n] == route.parentRefs[..n];
  }

  lemma {:induction false} EntriesCount(s: Stores, id: NamespacedName, n: nat, generation: int)
    requires s.Valid() && id in s.routes && n <= |s.routes[id].parentRefs|
    ensures |Entries(s, s.routes[id], s.routes[id].parentRefs[..n], generation)| == |OursUpTo(s, s.routes[id], n)|
  {
    var route := s.routes[id];
    if n == 0 {
      assert OursUpTo(s, route, 0) == {};
    } else {
      EntriesCount(s, id, n - 1, generation);
      EntryExists(s, id, route.parentRefs[n - 1], generation);
      EntriesGrow(s, route, n - 1, generation);
      OursGrow(s, route, n - 1);
    }
  }

  lemma {:induction false} EntriesInclude(s: Stores, route: Route, parents: seq<ParentRef>, generation: int, p: ParentRef)
    requires p in parents && EntryFor(s, route, p, generation).Some?
    ensures EntryFor(s, route, p, generation).value in Entries(s, route, parents, generation)
  {
    var n := |parents| - 1;
    if parents[n] != p {
      EntriesInclude(s, route, parents[..n], generation, p);
    }
  }

  lemma EntryStandsFor(s: Stores, id: NamespacedName, parent: ParentRef, generation: int)
    requires s.Valid() && id in s.routes && parent in s.routes[id].parentRefs
    requires EntryFor(s, s.routes[id], parent, generation).Some?
    ensures Stands(s, s.routes[id], parent, EntryFor(s, s.routes[id], parent, generation).value, generation)
    ensures exists gid :: NamesOurs(s, s.routes[id], parent, gid)
  {
    EntryMeaning(s, id, parent, generation);
    var x := EntryFor(s, s.routes[id], parent, generation).value;
    var gid :| NamesOurs(s, s.routes[id], parent, gid);
    assert EntrySays(s, s.routes[id], parent, s.gateways[gid], x.conditions, generation);
  }

  lemma EntryStands(s: Stores, id: NamespacedName, generation: int, x: ParentStatus) returns (k: nat)
    requires s.Valid() && id in s.routes && x in Entries(s, s.routes[id], s.routes[id].parentRefs, generation)
    ensures k in OursUpTo(s, s.routes[id], |s.routes[id].parentRefs|)
    ensures Stands(s, s.routes[id], s.routes[id].parentRefs[k], x, generation)
  {
    var route := s.routes[id];
    EntriesComeFrom(s, route, route.parentRefs, generation, x);
    k :| 0 <= k < |route.parentRefs| && route.parentRefs[k] == x.parent;
    EntryStandsFor(s, id, x.parent, generation);
  }

  lemma StandingEntry(s: Stores, id: NamespacedName, generation: int, k: nat) returns (x: ParentStatus)
    requires s.Valid() && id in s.routes && k in OursUpTo(s, s.routes[id], |s.routes[id].parentRefs|)
    ensures x in Entries(s, s.routes[id], s.routes[id].parentRefs, generation)
    ensures Stands(s, s.routes[id], s.routes[id].parentRefs[k], x, generation)
  {
    var route := s.routes[id];
    var p := route.parentRefs[k];
    EntryExists(s, id, p, generation);
    EntryStandsFor(s, id, p, generation);
    x := EntryFor(s, route, p, generation).value;
    EntriesInclude(s, route, route.parentRefs, generation, p);
  }

  lemma MergedOwn(out: seq<ParentStatus>, existing: seq<ParentStatus>, desired: seq<ParentStatus>, i: nat)
    requires Merged(out, existing, desired) && i < |out| && out[i].controller == CONTROLLER_NAME
    ensures out[i] in desired
  {
    MergedMembers(out, existing, desired);
    FilterMembers((p: ParentStatus) => p.controller != CONTROLLER_NAME, existing, out[i]);
  }

  lemma MergedOwnCount(s: Stores, id: NamespacedName, generation: int, existing: seq<ParentStatus>, out: seq<ParentStatus>)
    requires s.Valid() && id in s.routes
    requires Merged(out, existing, Entries(s, s.routes[id], s.routes[id].parentRefs, generation))
    ensures |OwnAt(out)| == |OursUpTo(s, s.routes[id], |s.routes[id].parentRefs|)|
    ensures |out| == |existing| ==> |OwnAt(existing)| == |OwnAt(out)|
  {
    var route := s.routes[id];
    var desired := Entries(s, route, route.parentRefs, generation);
    EntriesAreOwn(s, route, generation);
    MergeKeepsForeign(out, existing, desired);
    assert |multiset(Foreign(out))| == |multiset(Foreign(existing))|;
    assert |multiset(out)| == |multiset(Foreign(existing) + desired)|;
    OwnCount(out);
    OwnCount(existing);
    EntriesCount(s, id, |route.parentRefs|, generation);
    assert route.parentRefs[..|route.parentRefs|] == route.parentRefs;
  }

  /** The merged list reports every parentRef. */
  lemma MergedReports(s: Stores, id: NamespacedName, generation: int, existing: seq<ParentStatus>, out: seq<ParentStatus>)
    requires s.Valid() && id in s.routes
    requires Merged(out, existing, Entries(s, s.routes[id], s.routes[id].parentRefs, generation))
    ensures ListReports(s, s.routes[id], generation, out)
  {
    var route := s.routes[id];
    var desired := Entries(s, route, route.parentRefs, generation);
    MergedOwnCount(s, id, generation, existing, out);
    MergedMembers(out, existing, desired);
    forall k | k in OursUpTo(s, route, |route.parentRefs|)
      ensures Listed(s, route, generation, out, k)
    {
      var x := StandingEntry(s, id, generation, k);
      var i: nat :| i < |out| && out[i] == x;
      assert i in OwnAt(out);
    }
    forall i | i in OwnAt(out)
      ensures Justified(s, route, generation, out, i)
    {
      MergedOwn(out, existing, desired, i);
      var k := EntryStands(s, id, generation, out[i]);
    }
  }

  lemma SubsetOfSameSize<T>(a: set<T>, b: set<T>)
    requires a <= b && |a| == |b|
    ensures a == b
  {
    assert |b - a| == 0;
  }

  lemma KeptEntry(existing: seq<ParentStatus>, out: seq<ParentStatus>, i: nat)
    requires ParentsEqual(existing, out) && i < |out| && out[i].controller == CONTROLLER_NAME
    requires Plain(out[i].parent) && '/' !in out[i].parent.name && Admitted(existing[i])
    ensures existing[i].controller == CONTROLLER_NAME && SameRef(existing[i].parent, out[i].parent)
    ensures existing[i].conditions == out[i].conditions
  {
    OwnKeyIsOwn(out[i], existing[i]);
  }

  lemma StandsToo(s: Stores, route: Route, parent: ParentRef, x: ParentStatus, y: ParentStatus, generation: int)
    requires Stands(s, route, parent, x, generation)
    requires y.controller == x.controller && SameRef(y.parent, x.parent) && y.conditions == x.conditions
    ensures Stands(s, route, parent, y, generation)
  {
  }

  /** Lists whose own entries sit in the same places and agree report the same. */
  lemma ReportsCarry(s: Stores, route: Route, generation: int, a: seq<ParentStatus>, b: seq<ParentStatus>)
    requires ListReports(s, route, generation, a) && OwnAt(a) == OwnAt(b)
    requires forall i :: i in OwnAt(a) ==> SameRef(b[i].parent, a[i].parent) && b[i].conditions == a[i].conditions
    ensures ListReports(s, route, generation, b)
  {
    forall k | k in OursUpTo(s, route, |route.parentRefs|)
      ensures Listed(s, route, generation, b, k)
    {
      assert Listed(s, route, generation, a, k);
      var i: nat :| i < |a| && Stands(s, route, route.parentRefs[k], a[i], generation);
      assert i in OwnAt(a) && i in OwnAt(b);
      StandsToo(s, route, route.parentRefs[k], a[i], b[i], generation);
    }
    forall i | i in OwnAt(b)
      ensures Justified(s, route, generation, b, i)
    {
      assert i in OwnAt(a) && Justified(s, route, generation, a, i);
      var k: nat :| k < |route.parentRefs| && Stands(s, route, route.parentRefs[k], a[i], generation);
      StandsToo(s, route, route.parentRefs[k], a[i], b[i], generation);
    }
  }

  lemma KeptAgree(s: Stores, id: NamespacedName, generation: int, existing: seq<ParentStatus>, out: seq<ParentStatus>)
    requires s.Valid() && id in s.routes && forall p :: p in s.routes[id].parentRefs ==> Plain(p)
    requires forall x :: x in existing ==> Admitted(x)
    requires Merged(out, existing, Entries(s, s.routes[id], s.routes[id].parentRefs, generation)) && ParentsEqual(existing, out)
    ensures OwnAt(out) == OwnAt(existing)
    ensures forall i :: i in OwnAt(out) ==> SameRef(existing[i].parent, out[i].parent) && existing[i].conditions == out[i].conditions
  {
    var route := s.routes[id];
    var desired := Entries(s, route, route.parentRefs, generation);
    forall i | i in OwnAt(out)
      ensures i in OwnAt(existing)
      ensures SameRef(existing[i].parent, out[i].parent) && existing[i].conditions == out[i].conditions
    {
      MergedOwn(out, existing, desired, i);
      EntriesComeFrom(s, route, route.parentRefs, generation, out[i]);
      assert existing[i] in existing;
      KeptEntry(existing, out, i);
    }
    MergedOwnCount(s, id, generation, existing, out);
    SubsetOfSameSize(OwnAt(out), OwnAt(existing));
  }

  /** A kept list compares equal with the merged one, so it reports the same. */
  lemma KeptReports(s: Stores, id: NamespacedName, generation: int, existing: seq<ParentStatus>, out: seq<ParentStatus>)
    requires s.Valid() && id in s.routes && forall p :: p in s.routes[id].parentRefs ==> Plain(p)
    requires forall x :: x in existing ==> Admitted(x)
    requires Merged(out, existing, Entries(s, s.routes[id], s.routes[id].parentRefs, generation)) && ParentsEqual(existing, out)
    ensures ListReports(s, s.routes[id], generation, existing)
  {
    MergedReports(s, id, generation, existing, out);
    KeptAgree(s, id, generation, existing, out);
    ReportsCarry(s, s.routes[id], generation, out, existing);
  }

  class RouteController {
    var statuses: map<NamespacedName, seq<ParentStatus>>
    var writes: nat

    /** `reconcileRoute`, without API errors. */
    method ReconcileRoute(s: Stores, id: NamespacedName, generation: int)
      requires s.Valid() && s.routes.Keys <= statuses.Keys
      modifies this
      ensures id !in s.routes ==> statuses == old(statuses) && writes == old(writes)
      ensures id in s.routes ==>
                var desired := Entries(s, s.routes[id], s.routes[id].parentRefs, generation);
                exists out :: Merged(out, old(statuses)[id], desired) && Written(old(statuses), statuses, old(writes), writes, id, out)
      ensures id in s.routes && (forall p :: p in s.routes[id].parentRefs ==> Plain(p))
                && (forall x :: x in old(statuses)[id] ==> Admitted(x)) ==>
                ListReports(s, s.routes[id], generation, statuses[id])
    {
      if id !in s.routes {
        return;
      }
      var desired := DesiredEntries(s, s.routes[id], generation);
      var updated := MergeRouteParents(statuses[id], desired);
      assert Merged(updated, statuses[id], desired);
      MergedReports(s, id, generation, statuses[id], updated);
      if ParentsEqual(statuses[id], updated) {
        if (forall p :: p in s.routes[id].parentRefs ==> Plain(p)) && forall x :: x in statuses[id] ==> Admitted(x) {
          KeptReports(s, id, generation, statuses[id], updated);
        }
        return;
      }
      writes := writes + 1;
      statuses := statuses[id := updated];
    }
  }

  /** What is stored after a run: the merged list, unless the old one compared equal. */
  function StoredAfter(existing: seq<ParentStatus>, merged: seq<ParentStatus>): seq<ParentStatus> {
    if ParentsEqual(existing, merged) then existing else merged
  }

  /** Merging after a merge, stored or not, has the same entries again. */
  lemma MergedAgain(
    existing: seq<ParentStatus>, first: seq<ParentStatus>, second: seq<ParentStatus>, desired: seq<ParentStatus>, kept: bool)
    requires Merged(first, existing, desired) && forall x :: x in desired ==> x.controller == CONTROLLER_NAME
    requires Merged(second, if kept then existing else first, desired)
    ensures multiset(second) == multiset(first)
  {
    MergeKeepsForeign(first, existing, desired);
    assert multiset(Foreign(existing) + desired) == multiset(Foreign(existing)) + multiset(desired);
    assert multiset(Foreign(first) + desired) == multiset(Foreign(first)) + multiset(desired);
  }

  lemma ParentsEqualComposes(a: seq<ParentStatus>, b: seq<ParentStatus>, c: seq<ParentStatus>)
    requires ParentsEqual(a, b) && ParentsEqual(b, c)
    ensures ParentsEqual(a, c)
  {
  }

  /** A second run compares equal whatever its sort does, if entries of other controllers with one key agree. */
  lemma SecondRunIsSilent(
    s: Stores, route: Route, generation: int, existing: seq<ParentStatus>, first: seq<ParentStatus>, second: seq<ParentStatus>)
    requires s.Valid() && forall p :: p in route.parentRefs ==> Plain(p)
    requires KeyDecides(Foreign(existing)) && forall x :: x in existing ==> Admitted(x)
    requires Merged(first, existing, Entries(s, route, route.parentRefs, generation))
    requires Merged(second, StoredAfter(existing, first), Entries(s, route, route.parentRefs, generation))
    ensures ParentsEqual(StoredAfter(existing, first), second)
  {
    var desired := Entries(s, route, route.parentRefs, generation);
    EntriesAreOwn(s, route, generation);
    MergedAgain(existing, first, second, desired, ParentsEqual(existing, first));
    ForeignDecide(s, route, generation, existing, first);
    SortsAgree(first, second);
    if ParentsEqual(existing, first) {
      ParentsEqualComposes(existing, first, second);
    }
  }

  lemma TiesRemain(existing: seq<ParentStatus>, first: seq<ParentStatus>, desired: seq<ParentStatus>)
    requires !KeyDecides(Foreign(existing)) && Merged(first, existing, desired)
    ensures !KeyDecides(first)
  {
    MergedMembers(first, existing, desired);
    var x, y :| x in Foreign(existing) && y in Foreign(existing) && SortKey(x) == SortKey(y) && x.conditions != y.conditions;
    assert x in first && y in first;
  }

  /** Any other sort of a merged list is a merge of it, stored or not. */
  lemma MergesAgain(
    existing: seq<ParentStatus>, first: seq<ParentStatus>, second: seq<ParentStatus>, desired: seq<ParentStatus>, kept: bool)
    requires Merged(first, existing, desired) && forall x :: x in desired ==> x.controller == CONTROLLER_NAME
    requires SortedBy(PARENT_KEY, second) && multiset(second) == multiset(first)
    ensures Merged(second, if kept then existing else first, desired)
  {
    MergeKeepsForeign(first, existing, desired);
    assert multiset(Foreign(existing) + desired) == multiset(Foreign(existing)) + multiset(desired);
    assert multiset(Foreign(first) + desired) == multiset(Foreign(first)) + multiset(desired);
  }

  lemma StoredDiffers(existing: seq<ParentStatus>, first: seq<ParentStatus>, second: seq<ParentStatus>)
    requires !ParentsEqual(first, second)
    ensures !ParentsEqual(StoredAfter(existing, first), second)
  {
    if ParentsEqual(existing, first) && ParentsEqual(existing, second) {
      ParentsEqualComposes(first, existing, second);
    }
  }

  /** Otherwise the sort of the second run may come out so that the status is written again. */
  lemma SecondRunMayWrite(s: Stores, route: Route, generation: int, existing: seq<ParentStatus>, first: seq<ParentStatus>)
    returns (second: seq<ParentStatus>)
    requires !KeyDecides(Foreign(existing)) && Merged(first, existing, Entries(s, route, route.parentRefs, generation))
    ensures Merged(second, StoredAfter(existing, first), Entries(s, route, route.parentRefs, generation))
    ensures !ParentsEqual(StoredAfter(existing, first), second)
  {
    var desired := Entries(s, route, route.parentRefs, generation);
    EntriesAreOwn(s, route, generation);
    TiesRemain(existing, first, desired);
    second := TiesCanFlip(first);
    MergesAgain(existing, first, second, desired, ParentsEqual(existing, first));
    StoredDiffers(existing, first, second);
  }

  /** The second run is silent, whatever its sort does, exactly if entries of other controllers with one key agree. */
  lemma SilentExactly(s: Stores, route: Route, generation: int, existing: seq<ParentStatus>, first: seq<ParentStatus>)
    requires s.Valid() && forall p :: p in route.parentRefs ==> Plain(p)
    requires forall x :: x in existing ==> Admitted(x)
    requires Merged(first, existing, Entries(s, route, route.parentRefs, generation))
    ensures KeyDecides(Foreign(existing)) <==>
            forall second :: Merged(second, StoredAfter(existing, first), Entries(s, route, route.parentRefs, generation)) ==>
              ParentsEqual(StoredAfter(existing, first), second)
  {
    if KeyDecides(Foreign(existing)) {
      forall second | Merged(second, StoredAfter(existing, first), Entries(s, route, route.parentRefs, generation))
        ensures ParentsEqual(StoredAfter(existing, first), second)
      {
        SecondRunIsSilent(s, route, generation, existing, first, second);
      }
    } else {
      var second := SecondRunMayWrite(s, route, generation, existing, first);
    }
  }

  lemma BothKept<T>(p: T -> bool, x: T, y: T)
    requires p(x) && p(y)
    ensures Filter(p, [x, y]) == [x, y]
  {
    assert [x, y][..1] == [x] && [x][..0] == [];
    assert Filter(p, [x]) == Filter(p, []) + [x];
  }

  lemma BothForeign(x: ParentStatus, y: ParentStatus)
    requires x.controller != CONTROLLER_NAME && y.controller != CONTROLLER_NAME && SortKey(x) == SortKey(y)
    ensures Foreign([x, y]) == [x, y] && Merged([x, y], [x, y], []) && Merged([y, x], [x, y], [])
  {
    BothKept((p: ParentStatus) => p.controller != CONTROLLER_NAME, x, y);
    assert [x, y] + [] == [x, y];
  }

  /** Two entries of other controllers with one key that disagree can be merged in either order. */
  lemma OpinionsClash(x: ParentStatus, y: ParentStatus)
    requires x.controller != CONTROLLER_NAME && y.controller != CONTROLLER_NAME
    requires SortKey(x) == SortKey(y) && x.conditions != y.conditions
    ensures !KeyDecides(Foreign([x, y])) && !ParentsEqual([x, y], [y, x])
    ensures Merged([x, y], [x, y], []) && Merged([y, x], StoredAfter([x, y], [x, y]), [])
  {
    BothForeign(x, y);
    assert x in [x, y] && y in [x, y];
  }

  const BARE_REF := ParentRef(None, None, None, "gw", None, None)
  const NO_OPINION := ParentStatus(BARE_REF, "example.com/gw", [])
  const AN_OPINION := ParentStatus(BARE_REF, "example.com/gw", [Condition("Accepted", "True", "Accepted", "", 1)])

  lemma OpinionsAreForeign()
    ensures Admitted(NO_OPINION) && Admitted(AN_OPINION)
    ensures NO_OPINION.controller != CONTROLLER_NAME && AN_OPINION.controller != CONTROLLER_NAME
    ensures SortKey(NO_OPINION) == SortKey(AN_OPINION)
  {
    assert NO_OPINION.controller[11] == '/' && NO_OPINION.controller[0] != CONTROLLER_NAME[0];
  }

  /**
   A list on which it is not: two entries of one other controller for one parentRef that disagree. One merge may
   return the list itself and the next one the other order, which compares as different.
   */
  lemma TwoOpinions()
    ensures var x, y := NO_OPINION, AN_OPINION;
            && Admitted(x) && Admitted(y) && !KeyDecides(Foreign([x, y]))
            && Merged([x, y], [x, y], []) && Merged([y, x], StoredAfter([x, y], [x, y]), [])
            && !ParentsEqual([x, y], [y, x])
  {
    OpinionsAreForeign();
    assert |NO_OPINION.conditions| != |AN_OPINION.conditions|;
    OpinionsClash(NO_OPINION, AN_OPINION);
  }

  /**
   Running again right after: the first run leaves `between` after `writes` writes in all, and the second changes and writes
   nothing if entries of other controllers with one key agree.
   */
  method ReconcileRouteTwice(c: RouteController, s: Stores, id: NamespacedName, generation: int)
    returns (writes: nat, ghost between: map<NamespacedName, seq<ParentStatus>>, ghost first: seq<ParentStatus>)
    requires s.Valid() && id in s.routes && s.routes.Keys <= c.statuses.Keys
    requires forall p :: p in s.routes[id].parentRefs ==> Plain(p)
    requires KeyDecides(Foreign(c.statuses[id])) && forall x :: x in c.statuses[id] ==> Admitted(x)
    modifies c
    ensures Merged(first, old(c.statuses)[id], Entries(s, s.routes[id], s.routes[id].parentRefs, generation))
    ensures Written(old(c.statuses), between, old(c.writes), writes, id, first)
    ensures c.statuses == between && c.writes == writes
  {
    ghost var route := s.routes[id];
    ghost var desired := Entries(s, route, route.parentRefs, generation);
    ghost var start := c.statuses;
    c.ReconcileRoute(s, id, generation);
    writes, between := c.writes, c.statuses;
    first :| Merged(first, start[id], desired) && Written(start, between, old(c.writes), writes, id, first);
    c.ReconcileRoute(s, id, generation);
    ghost var second :| Merged(second, between[id], desired) && Written(between, c.statuses, writes, c.writes, id, second);
    assert between[id] == StoredAfter(start[id], first);
    SecondRunIsSilent(s, route, generation, start[id], first, second);
  }
}
