/** Writing and comparing Gateway status (internal/controller/status.go, internal/controller/gateway_reconcile.go:482-504). */
module GatewayStatuses {
  import opened Wrappers
  import opened Sorting
  import opened Folds
  import opened Objects
  import opened ApiMeaning
  import opened Conditions
  import opened Listeners
  import opened Routes
  import opened GatewayEvaluation

  // ---- Merging conditions -------------------------------------------------------------

  lemma DistinctCons(c: Condition, s: seq<Condition>)
    requires DistinctKinds(s) && forall x :: x in s ==> x.kind != c.kind
    ensures DistinctKinds([c] + s)
  {
    var r := [c] + s;
    forall i, j | 0 <= i < j < |r|
      ensures r[i].kind != r[j].kind
    {
      assert r[j] == s[j - 1] && r[j] in s;
      if i > 0 {
        assert r[i] == s[i - 1];
      }
    }
  }

  lemma {:induction false} SetConditionMeaning(s: seq<Condition>, c: Condition)
    requires DistinctKinds(s)
    ensures DistinctKinds(SetCondition(s, c))
    ensures forall x :: x in SetCondition(s, c) <==> x == c || (x in s && x.kind != c.kind)
  {
    if s != [] {
      assert s == [s[0]] + s[1..];
      assert forall x :: x in s[1..] ==> x.kind != s[0].kind;
      if s[0].kind != c.kind {
        SetConditionMeaning(s[1..], c);
        DistinctCons(s[0], SetCondition(s[1..], c));
      } else {
        DistinctCons(c, s[1..]);
      }
    }
  }

  lemma {:induction false} SetHeldCondition(s: seq<Condition>, c: Condition)
    requires DistinctKinds(s) && c in s
    ensures SetCondition(s, c) == s
  {
    assert s == [s[0]] + s[1..];
    if s[0].kind != c.kind {
      SetHeldCondition(s[1..], c);
    } else {
      assert s[0] == c;
    }
  }

  lemma {:induction false} SetAllMeaning(s: seq<Condition>, desired: seq<Condition>)
    requires DistinctKinds(s) && DistinctKinds(desired)
    ensures DistinctKinds(SetAll(s, desired))
    ensures forall x :: x in desired ==> x in SetAll(s, desired)
  {
    if desired != [] {
      var n := |desired| - 1;
      SetAllMeaning(s, desired[..n]);
      SetConditionMeaning(SetAll(s, desired[..n]), desired[n]);
    }
  }

  lemma {:induction false} SetAllHeld(s: seq<Condition>, desired: seq<Condition>)
    requires DistinctKinds(s) && forall x :: x in desired ==> x in s
    ensures SetAll(s, desired) == s
  {
    if desired != [] {
      var n := |desired| - 1;
      SetAllHeld(s, desired[..n]);
      assert desired[n] in desired;
      SetHeldCondition(s, desired[n]);
    }
  }

  lemma {:induction false} OnceEach(a: seq<Condition>, x: Condition)
    requires DistinctKinds(a)
    ensures multiset(a)[x] <= 1
  {
    if a != [] {
      OnceEach(a[1..], x);
      assert a == [a[0]] + a[1..];
    }
  }

  lemma {:induction false} DistinctFromBagOf(a: seq<Condition>, b: seq<Condition>)
    requires multiset(a) == multiset(b) && DistinctKinds(a)
    ensures DistinctKinds(b)
  {
    MultisetMembers(a, b);
    forall i, j | 0 <= i < j < |b|
      ensures b[i].kind != b[j].kind
    {
      assert b[i] in a && b[j] in a;
      if b[i] == b[j] {
        CountAtLeastTwo(b, i, j);
        OnceEach(a, b[i]);
      }
    }
  }

  lemma KindsDetermine(s: seq<Condition>)
    requires DistinctKinds(s)
    ensures KeyDetermines(KIND_KEY, s)
  {
  }

  /** Merging sorts by kind, keeps kinds distinct and holds what was asked for. */
  lemma MergeMeaning(s: seq<Condition>, desired: seq<Condition>)
    requires DistinctKinds(s) && DistinctKinds(desired)
    ensures var m := MergeConditions(s, desired);
            DistinctKinds(m) && SortedBy(KIND_KEY, m) && forall x :: x in desired ==> x in m
  {
    SetAllMeaning(s, desired);
    var all := SetAll(s, desired);
    SortIsSorted(KIND_KEY, all);
    DistinctFromBagOf(all, Sort(KIND_KEY, all));
    MultisetMembers(all, Sort(KIND_KEY, all));
  }

  /** Merging the same conditions again changes nothing. */
  lemma MergeIdempotent(s: seq<Condition>, desired: seq<Condition>)
    requires DistinctKinds(s) && DistinctKinds(desired)
    ensures MergeConditions(MergeConditions(s, desired), desired) == MergeConditions(s, desired)
  {
    var m := MergeConditions(s, desired);
    MergeMeaning(s, desired);
    SetAllHeld(m, desired);
    SortIsSorted(KIND_KEY, m);
    KindsDetermine(m);
    SortedUnique(KIND_KEY, m, Sort(KIND_KEY, m));
  }

  /** `mergeConditions`: an unstable sort by kind still has one outcome. */
  method MergeStatusConditions(existing: seq<Condition>, desired: seq<Condition>) returns (out: seq<Condition>)
    requires DistinctKinds(existing) && DistinctKinds(desired)
    ensures out == MergeConditions(existing, desired)
  {
    var all := existing;
    for i := 0 to |desired|
      invariant all == SetAll(existing, desired[..i])
    {
      assert desired[..i + 1][..i] == desired[..i];
      all := SetCondition(all, desired[i]);
    }
    assert desired[..|desired|] == desired;
    out := SortFunc(KIND_KEY, all);
    SetAllMeaning(existing, desired);
    SortIsSorted(KIND_KEY, all);
    MultisetMembers(out, all);
    DistinctFromBagOf(all, out);
    KindsDetermine(out);
    SortedUnique(KIND_KEY, out, Sort(KIND_KEY, all));
  }

  lemma {:induction false} RemovedMeaning(s: seq<Condition>, kinds: set<string>)
    requires DistinctKinds(s)
    ensures DistinctKinds(RemoveConditions(s, kinds))
    ensures forall x :: x in RemoveConditions(s, kinds) <==> x in s && x.kind !in kinds
  {
    if s != [] {
      RemovedMeaning(s[1..], kinds);
      assert s == [s[0]] + s[1..];
      var rest := RemoveConditions(s[1..], kinds);
      assert forall x :: x in rest ==> x in s[1..];
      if s[0].kind !in kinds {
        DistinctCons(s[0], rest);
      } else {
        assert [] + rest == rest;
      }
    }
  }

  // ---- Gateway status -----------------------------------------------------------------

  const ACCEPTED := "Accepted"
  const PROGRAMMED := "Programmed"

  /** Whether the first Accepted condition is true. */
  predicate IsAccepted(conditions: seq<Condition>) {
    exists i :: 0 <= i < |conditions| && conditions[i].kind == ACCEPTED && conditions[i].status == "True"
      && forall j :: 0 <= j < i ==> conditions[j].kind != ACCEPTED
  }

  function Programmed(reason: string, message: string, generation: int): ListenerStatus -> ListenerStatus {
    (s: ListenerStatus) => if !IsAccepted(s.conditions) then s
         else s.(conditions := MergeConditions(s.conditions, [Condition(PROGRAMMED, "False", reason, message, generation)]))
  }

  function GatewayConditions(e: Evaluation, generation: int): seq<Condition> {
    [Condition(ACCEPTED, e.accepted, e.acceptedReason, e.acceptedMessage, generation),
     Condition(PROGRAMMED, "False", e.programmedReason, e.programmedMessage, generation)]
  }

  /** The status `updateGatewayStatus` writes. */
  function StatusFor(gateway: Gateway, e: Evaluation): GatewayStatus {
    GatewayStatus(
      if e.selectedVIP != "" then [StatusAddress(Some("IPAddress"), e.selectedVIP)] else [],
      MergeConditions(gateway.status.conditions, GatewayConditions(e, gateway.generation)),
      e.listeners)
  }

  /** The status `clearManagedGatewayStatus` writes. */
  function ClearedStatus(status: GatewayStatus): GatewayStatus {
    GatewayStatus([], RemoveConditions(status.conditions, {ACCEPTED, PROGRAMMED}), [])
  }

  predicate AddressesEqual(a: seq<StatusAddress>, b: seq<StatusAddress>) {
    && |a| == |b|
    && forall i :: 0 <= i < |a| ==> a[i].value == b[i].value && OrDefault(a[i].kind, "") == OrDefault(b[i].kind, "")
  }

  predicate ListenerEqual(a: ListenerStatus, b: ListenerStatus) {
    && a.name == b.name && a.attachedRoutes == b.attachedRoutes && a.conditions == b.conditions
    && |a.supportedKinds| == |b.supportedKinds|
    && forall j :: 0 <= j < |a.supportedKinds| ==> a.supportedKinds[j].kind == b.supportedKinds[j].kind
  }

  /** `listenerStatusesEqual`: of the supported kinds only the kind is compared, not its group. */
  predicate ListenersEqual(a: seq<ListenerStatus>, b: seq<ListenerStatus>) {
    |a| == |b| && forall i :: 0 <= i < |a| ==> ListenerEqual(a[i], b[i])
  }

  /** `gatewayStatusEqual`; transition times are not part of the model. */
  predicate StatusEqual(a: GatewayStatus, b: GatewayStatus) {
    a.conditions == b.conditions && AddressesEqual(a.addresses, b.addresses) && ListenersEqual(a.listeners, b.listeners)
  }

  /** A listener status without the groups of its supported kinds. */
  function Ungrouped(s: ListenerStatus): ListenerStatus {
    s.(supportedKinds := seq(|s.supportedKinds|, j requires 0 <= j < |s.supportedKinds| =>
      s.supportedKinds[j].(group := None)))
  }

  lemma ListenerEqualMeaning(a: ListenerStatus, b: ListenerStatus)
    ensures ListenerEqual(a, b) <==> Ungrouped(a) == Ungrouped(b)
  {
    if Ungrouped(a) == Ungrouped(b) {
      forall j | 0 <= j < |a.supportedKinds|
        ensures a.supportedKinds[j].kind == b.supportedKinds[j].kind
      {
        assert Ungrouped(a).supportedKinds[j] == Ungrouped(b).supportedKinds[j];
      }
    }
    if ListenerEqual(a, b) {
      assert Ungrouped(a).supportedKinds == Ungrouped(b).supportedKinds;
    }
  }

  /** The comparison with a status to be written is exact, but for the groups of supported kinds. */
  lemma StatusEqualMeaning(a: GatewayStatus, b: GatewayStatus)
    requires forall i :: 0 <= i < |b.addresses| ==> b.addresses[i].kind == Some("IPAddress")
    ensures StatusEqual(a, b) <==>
            && a.conditions == b.conditions && a.addresses == b.addresses && |a.listeners| == |b.listeners|
            && forall i :: 0 <= i < |a.listeners| ==> Ungrouped(a.listeners[i]) == Ungrouped(b.listeners[i])
  {
    if AddressesEqual(a.addresses, b.addresses) {
      forall i | 0 <= i < |a.addresses|
        ensures a.addresses[i] == b.addresses[i]
      {
        assert OrDefault(b.addresses[i].kind, "") == "IPAddress";
      }
      assert a.addresses == b.addresses;
    }
    forall i | 0 <= i < |a.listeners| && |a.listeners| == |b.listeners|
      ensures ListenerEqual(a.listeners[i], b.listeners[i]) <==> Ungrouped(a.listeners[i]) == Ungrouped(b.listeners[i])
    {
      ListenerEqualMeaning(a.listeners[i], b.listeners[i]);
    }
  }

  /** So a supported kind of a wrong group is never corrected. */
  lemma WrongGroupStays(s: ListenerStatus)
    requires s.supportedKinds == [RouteGroupKind(Some(GATEWAY_API_GROUP), "TCPRoute")]
    ensures var wrong := s.(supportedKinds := [RouteGroupKind(Some("example.com"), "TCPRoute")]);
            wrong != s && StatusEqual(GatewayStatus([], [], [wrong]), GatewayStatus([], [], [s]))
  {
    var wrong := s.(supportedKinds := [RouteGroupKind(Some("example.com"), "TCPRoute")]);
    assert wrong.supportedKinds[0] != s.supportedKinds[0];
  }

  /** Clearing a status that compares as cleared changes nothing. */
  lemma ClearedIsExact(status: GatewayStatus)
    requires StatusEqual(status, ClearedStatus(status))
    ensures status == ClearedStatus(status)
  {
  }

  /** The Gateway once `status` has been written, if it had to be. */
  function Restated(gateway: Gateway, status: GatewayStatus): Gateway {
    if StatusEqual(gateway.status, status) then gateway else gateway.(status := status)
  }

  /** Writing the status twice is writing it once. */
  lemma StatusSettles(gateway: Gateway, e: Evaluation)
    requires DistinctKinds(gateway.status.conditions)
    ensures DistinctKinds(StatusFor(gateway, e).conditions)
    ensures var settled := Restated(gateway, StatusFor(gateway, e)); StatusEqual(settled.status, StatusFor(settled, e))
  {
    var desired := GatewayConditions(e, gateway.generation);
    assert DistinctKinds(desired) by {
      assert ACCEPTED[0] != PROGRAMMED[0];
    }
    MergeMeaning(gateway.status.conditions, desired);
    MergeIdempotent(gateway.status.conditions, desired);
  }

  // ---- Listener conditions ------------------------------------------------------------

  /** `setListenerProgrammedCondition`, always called with status False. */
  function SetListenerProgrammed(statuses: seq<ListenerStatus>, reason: string, message: string, generation: int)
    : seq<ListenerStatus>
  {
    Map(Programmed(reason, message, generation), statuses)
  }

  /** The evaluation once the VIP is known. */
  function WithVIP(e: Evaluation, vip: string, generation: int): Evaluation {
    e.(selectedVIP := vip, programmedReason := "Pending", programmedMessage := "VIP reserved",
       listeners := SetListenerProgrammed(e.listeners, "Pending", "VIP reserved", generation))
  }

  /** The evaluation when no VIP could be had. */
  function WithoutVIP(e: Evaluation, message: string, generation: int): Evaluation {
    e.(selectedVIP := "", programmedReason := "AddressNotAssigned", programmedMessage := message,
       listeners := SetListenerProgrammed(e.listeners, "AddressNotAssigned", message, generation))
  }

  method SetListenerProgrammedCondition(statuses: seq<ListenerStatus>, reason: string, message: string, generation: int)
    returns (out: seq<ListenerStatus>)
    ensures out == SetListenerProgrammed(statuses, reason, message, generation)
  {
    var update := Programmed(reason, message, generation);
    out := [];
    for i := 0 to |statuses|
      invariant out == Map(update, statuses[..i])
    {
      assert statuses[..i + 1][..i] == statuses[..i];
      out := out + [update(statuses[i])];
    }
    assert statuses[..|statuses|] == statuses;
  }

  // ---- What a published status says -----------------------------------------------------

  lemma {:induction false} SetAllMembers(s: seq<Condition>, desired: seq<Condition>, x: Condition)
    requires DistinctKinds(s) && DistinctKinds(desired)
    ensures x in SetAll(s, desired) <==> x in desired || (x in s && forall d :: d in desired ==> d.kind != x.kind)
  {
    if desired != [] {
      var n := |desired| - 1;
      SetAllMembers(s, desired[..n], x);
      SetAllMeaning(s, desired[..n]);
      SetConditionMeaning(SetAll(s, desired[..n]), desired[n]);
      assert forall d :: d in desired <==> d in desired[..n] || d == desired[n];
      assert forall d :: d in desired[..n] ==> d.kind != desired[n].kind;
    }
  }

  /** Merging puts in what is asked for and keeps every condition of another kind. */
  lemma MergeMembers(s: seq<Condition>, desired: seq<Condition>, x: Condition)
    requires DistinctKinds(s) && DistinctKinds(desired)
    ensures x in MergeConditions(s, desired) <==> x in desired || (x in s && forall d :: d in desired ==> d.kind != x.kind)
  {
    SetAllMembers(s, desired, x);
    SortIsSorted(KIND_KEY, SetAll(s, desired));
    MultisetMembers(SetAll(s, desired), MergeConditions(s, desired));
  }

  /** The published status: Accepted as evaluated, never Programmed, conditions of other controllers kept. */
  lemma StatusReports(gateway: Gateway, e: Evaluation, x: Condition)
    requires DistinctKinds(gateway.status.conditions)
    ensures x in StatusFor(gateway, e).conditions <==>
            || x == Condition(ACCEPTED, e.accepted, e.acceptedReason, e.acceptedMessage, gateway.generation)
            || x == Condition(PROGRAMMED, "False", e.programmedReason, e.programmedMessage, gateway.generation)
            || (x in gateway.status.conditions && x.kind != ACCEPTED && x.kind != PROGRAMMED)
  {
    var desired := GatewayConditions(e, gateway.generation);
    assert ACCEPTED[0] != PROGRAMMED[0];
    MergeMembers(gateway.status.conditions, desired, x);
    assert desired[0] in desired && desired[1] in desired;
  }

  /** A Gateway is reported as accepted exactly when it is valid, and without a VIP until one is assigned. */
  lemma AcceptedMeansValid(env: Environment, gateway: Gateway)
    ensures Evaluate(env, gateway).accepted == if Evaluate(env, gateway).valid then "True" else "False"
    ensures Evaluate(env, gateway).selectedVIP == ""
  {
  }

  /** A listener is reported as accepted exactly when it is usable, with the number of routes attached to it. */
  lemma ListenersReport(env: Environment, gateway: Gateway, i: nat)
    requires Eligible(env, gateway) && i < |gateway.spec.listeners|
    ensures var l, statuses := gateway.spec.listeners[i], Evaluate(env, gateway).listeners;
            && |statuses| == |gateway.spec.listeners| && statuses[i].name == l.name
            && statuses[i].attachedRoutes == |AttachedRoutes(gateway, l, env.routes)|
            && (IsAccepted(statuses[i].conditions) <==> Usable(env, gateway, l))
  {
    ValidationMeaning(gateway.spec.listeners, gateway.generation);
    var listeners := gateway.spec.listeners;
    assert Evaluate(env, gateway).listeners == Map(StatusIn(env, gateway), listeners);
    MapAt(StatusIn(env, gateway), listeners);
    var s := StatusIn(env, gateway)(listeners[i]);
    assert s.conditions[0].kind == ACCEPTED;
    assert IsAccepted(s.conditions) <==> s.conditions[0].status == "True";
  }

  /** Assigning a VIP changes only the Programmed condition, and only of accepted listeners. */
  lemma ProgrammedMeaning(statuses: seq<ListenerStatus>, reason: string, message: string, generation: int, i: nat, x: Condition)
    requires i < |statuses| && DistinctKinds(statuses[i].conditions)
    ensures var out := SetListenerProgrammed(statuses, reason, message, generation);
            && |out| == |statuses| && out[i].(conditions := statuses[i].conditions) == statuses[i]
            && (!IsAccepted(statuses[i].conditions) ==> out[i] == statuses[i])
            && (IsAccepted(statuses[i].conditions) ==>
                  (x in out[i].conditions <==>
                     || x == Condition(PROGRAMMED, "False", reason, message, generation)
                     || (x in statuses[i].conditions && x.kind != PROGRAMMED)))
  {
    MapAt(Programmed(reason, message, generation), statuses);
    var desired := [Condition(PROGRAMMED, "False", reason, message, generation)];
    MergeMembers(statuses[i].conditions, desired, x);
  }

  // ---- The listener statuses, in terms of the API fields --------------------------------

  lemma EligibleMeaning(env: Environment, gateway: Gateway)
    ensures Eligible(env, gateway) <==> GatewayFits(env.gatewayClass, gateway)
    ensures ListenersOk(gateway.spec.listeners) <==> ListenersFit(gateway.spec.listeners)
  {
    ValidationMeaning(gateway.spec.listeners, gateway.generation);
  }

  /** Some route is good for the listener. */
  ghost predicate HasGoodRoute(env: Environment, gateway: Gateway, listener: Listener) {
    exists r :: GoodFor(env, gateway, listener, r)
  }

  /**
   What the status of listener `i` says of a Gateway whose class is ours; `programmed` is why an accepted
   listener of a Gateway that fits is not programmed.
   */
  ghost predicate ListenerVerdict(env: Environment, g: Gateway, i: nat, s: ListenerStatus, programmed: string)
    requires i < |g.spec.listeners|
  {
    var ls := g.spec.listeners;
    if GatewayFits(env.gatewayClass, g) then
      var good := HasGoodRoute(env, g, ls[i]);
      Reports(s, ls[i], |AttachedSet(env.routes, g.Id(), ls[i])|, good,
        if good then "Accepted" else "UnsupportedValue", if good then programmed else "Invalid", g.generation)
    else if ListenersFit(ls) || !ListenerFits(ls, i) then
      Reports(s, ls[i], 0, false,
        if WrongProtocol(ls, i) then "UnsupportedProtocol" else "UnsupportedValue", "Invalid", g.generation)
    else Reports(s, ls[i], 0, true, "Accepted", "Pending", g.generation)
  }

  lemma PendingReports(l: Listener, attached: int, generation: int)
    ensures Reports(PendingStatus(l, attached, generation), l, attached, true, "Accepted", "Pending", generation)
  {
  }

  lemma RejectedReports(l: Listener, attached: int, message: string, generation: int)
    ensures Reports(RejectedStatus(l, attached, "UnsupportedValue", message, generation),
              l, attached, false, "UnsupportedValue", "Invalid", generation)
  {
  }

  /** The judgement of one listener of a Gateway that fits. */
  lemma StatusReportsRoutes(env: Environment, g: Gateway, l: Listener)
    requires Indexed(env, g) && l in g.spec.listeners
    ensures var good := HasGoodRoute(env, g, l);
            Reports(StatusIn(env, g)(l), l, |AttachedSet(env.routes, g.Id(), l)|, good,
              if good then "Accepted" else "UnsupportedValue", if good then "Pending" else "Invalid", g.generation)
  {
    UsableMeaning(env, g, l);
    AttachedNumber(g, l, env.routes);
    var n := |AttachedRoutes(g, l, env.routes)|;
    if Usable(env, g, l) {
      PendingReports(l, 1, g.generation);
    } else {
      RejectedReports(l, n, ErrorOf(env, g, l), g.generation);
    }
  }

  lemma {:induction false} MessageStatusesAt(listeners: seq<Listener>, message: string, generation: int, i: nat)
    requires i < |listeners|
    ensures |MessageStatuses(listeners, message, generation)| == |listeners|
    ensures MessageStatuses(listeners, message, generation)[i] == RejectedStatus(listeners[i], 0, "UnsupportedValue", message, generation)
  {
    var n := |listeners| - 1;
    if n > 0 {
      MessageStatusesAt(listeners[..n], message, generation, if i < n then i else 0);
    }
  }

  lemma FittingReports(env: Environment, g: Gateway, i: nat)
    requires Indexed(env, g) && GatewayFits(env.gatewayClass, g) && i < |g.spec.listeners|
    ensures |Evaluate(env, g).listeners| == |g.spec.listeners|
    ensures ListenerVerdict(env, g, i, Evaluate(env, g).listeners[i], "Pending")
  {
    var ls := g.spec.listeners;
    EligibleMeaning(env, g);
    ValidationMeaning(ls, g.generation);
    assert Evaluate(env, g).listeners == Map(StatusIn(env, g), ls);
    MapAt(StatusIn(env, g), ls);
    StatusReportsRoutes(env, g, ls[i]);
  }

  lemma UnfitReports(env: Environment, g: Gateway, i: nat)
    requires ClassIsOurs(env.gatewayClass) && !ListenersFit(g.spec.listeners) && i < |g.spec.listeners|
    ensures |Evaluate(env, g).listeners| == |g.spec.listeners|
    ensures ListenerVerdict(env, g, i, Evaluate(env, g).listeners[i], "Pending")
  {
    var v := ValidateListeners(g.spec.listeners, g.generation);
    ValidationMeaning(g.spec.listeners, g.generation);
    assert Evaluate(env, g).listeners == v.statuses;
    ValidationReports(g.spec.listeners, g.generation, i);
  }

  lemma AddressedReports(env: Environment, g: Gateway, i: nat)
    requires ClassIsOurs(env.gatewayClass) && ListenersFit(g.spec.listeners) && g.spec.addresses != []
    requires i < |g.spec.listeners|
    ensures |Evaluate(env, g).listeners| == |g.spec.listeners|
    ensures ListenerVerdict(env, g, i, Evaluate(env, g).listeners[i], "Pending")
  {
    var ls := g.spec.listeners;
    ValidationMeaning(ls, g.generation);
    assert ValidateListeners(ls, g.generation).valid;
    assert Evaluate(env, g).listeners == MessageStatuses(ls, ADDRESSES_UNSUPPORTED, g.generation);
    MessageStatusesAt(ls, ADDRESSES_UNSUPPORTED, g.generation, i);
    RejectedReports(ls[i], 0, ADDRESSES_UNSUPPORTED, g.generation);
    assert ListenerFits(ls, i);
  }

  /** What an evaluation says of each listener. */
  lemma EvaluationReports(env: Environment, g: Gateway, i: nat)
    requires Indexed(env, g) && ClassIsOurs(env.gatewayClass) && i < |g.spec.listeners|
    ensures |Evaluate(env, g).listeners| == |g.spec.listeners|
    ensures ListenerVerdict(env, g, i, Evaluate(env, g).listeners[i], "Pending")
  {
    if !ListenersFit(g.spec.listeners) {
      UnfitReports(env, g, i);
    } else if g.spec.addresses != [] {
      AddressedReports(env, g, i);
    } else {
      FittingReports(env, g, i);
    }
  }

  lemma NothingReported(env: Environment, g: Gateway)
    requires !ClassIsOurs(env.gatewayClass) || g.spec.listeners == []
    ensures Evaluate(env, g).listeners == []
  {
    ValidationMeaning(g.spec.listeners, g.generation);
  }

  ghost predicate SomeGoodRoute(env: Environment, g: Gateway) {
    exists l :: HasGoodRoute(env, g, l)
  }

  /** Why a Gateway is accepted or not. */
  ghost function GatewayReason(env: Environment, g: Gateway): string {
    if !ClassIsOurs(env.gatewayClass) then "InvalidParameters"
    else if !ListenersFit(g.spec.listeners) then "ListenersNotValid"
    else if g.spec.addresses != [] then "UnsupportedAddress"
    else if SomeGoodRoute(env, g) then "Accepted" else "Invalid"
  }

  lemma ValidMeaning(env: Environment, g: Gateway)
    requires Indexed(env, g)
    ensures Evaluate(env, g).valid <==> GatewayFits(env.gatewayClass, g) && SomeGoodRoute(env, g)
  {
    EvaluationMeaning(env, g);
    EligibleMeaning(env, g);
    if r :| r in GoodRoutes(env, g) {
      GoodMeaning(env, g, r);
      var l :| GoodFor(env, g, l, r);
      assert HasGoodRoute(env, g, l);
    }
    if l, r :| HasGoodRoute(env, g, l) && GoodFor(env, g, l, r) {
      GoodMeaning(env, g, r);
      assert r in GoodRoutes(env, g);
    }
  }

  /** The verdict of an evaluation. */
  predicate Verdict(e: Evaluation, valid: bool, reason: string) {
    && e.valid == valid && e.accepted == (if valid then "True" else "False")
    && e.acceptedReason == reason && e.programmedReason == if valid then "Pending" else "Invalid"
  }

  lemma VerdictOfUnfit(env: Environment, g: Gateway)
    requires !ClassAccepted(env.gatewayClass) || !ListenersOk(g.spec.listeners)
    ensures Verdict(Evaluate(env, g), false, if ClassAccepted(env.gatewayClass) then "ListenersNotValid" else "InvalidParameters")
  {
    ValidationMeaning(g.spec.listeners, g.generation);
  }

  lemma VerdictOfFit(env: Environment, g: Gateway)
    requires ClassAccepted(env.gatewayClass) && ListenersOk(g.spec.listeners)
    ensures var e := Evaluate(env, g);
            Verdict(e, e.valid, if g.spec.addresses != [] then "UnsupportedAddress" else if e.valid then "Accepted" else "Invalid")
  {
    ValidationMeaning(g.spec.listeners, g.generation);
  }

  /** What an evaluation says of the Gateway. */
  lemma EvaluationSays(env: Environment, g: Gateway)
    requires Indexed(env, g)
    ensures Verdict(Evaluate(env, g), GatewayFits(env.gatewayClass, g) && SomeGoodRoute(env, g), GatewayReason(env, g))
  {
    ValidMeaning(env, g);
    EligibleMeaning(env, g);
    if !ClassAccepted(env.gatewayClass) || !ListenersOk(g.spec.listeners) {
      VerdictOfUnfit(env, g);
    } else {
      VerdictOfFit(env, g);
    }
  }

  // ---- Publishing them ------------------------------------------------------------------

  /** Replacing the Programmed condition among the three of a listener. */
  lemma ReplaceProgrammed(a: Condition, p: Condition, r: Condition, c: Condition)
    requires a.kind == "Accepted" && p.kind == "Programmed" && r.kind == "ResolvedRefs" && c.kind == "Programmed"
    ensures MergeConditions([a, p, r], [c]) == [a, c, r]
  {
    assert a.kind[0] == 'A' && c.kind[0] == 'P' && r.kind[0] == 'R';
    SetMiddle(a, p, r, c);
    SortOrdered(a, c, r);
  }

  lemma ProgrammedReports(
    s: ListenerStatus, l: Listener, attached: int, accepted: bool, why: string, before: string, reason: string, message: string,
    generation: int)
    requires Reports(s, l, attached, accepted, why, before, generation)
    ensures Reports(Programmed(reason, message, generation)(s), l, attached, accepted, why, if accepted then reason else before, generation)
  {
    assert IsAccepted(s.conditions) <==> accepted by {
      assert s.conditions[0].kind == ACCEPTED && s.conditions[1].kind != ACCEPTED && s.conditions[2].kind != ACCEPTED;
    }
    if accepted {
      assert s.conditions == [s.conditions[0], s.conditions[1], s.conditions[2]];
      ReplaceProgrammed(s.conditions[0], s.conditions[1], s.conditions[2],
        Condition(PROGRAMMED, "False", reason, message, generation));
    }
  }

  /** Once a VIP is assigned or refused, accepted listeners say so and the others stay as they were. */
  lemma ProgrammedVerdict(env: Environment, g: Gateway, statuses: seq<ListenerStatus>, reason: string, message: string, i: nat)
    requires GatewayFits(env.gatewayClass, g) && |statuses| == |g.spec.listeners|
    requires i < |statuses| && ListenerVerdict(env, g, i, statuses[i], "Pending")
    ensures var out := SetListenerProgrammed(statuses, reason, message, g.generation);
            |out| == |statuses| && ListenerVerdict(env, g, i, out[i], reason)
  {
    var good, l := HasGoodRoute(env, g, g.spec.listeners[i]), g.spec.listeners[i];
    MapAt(Programmed(reason, message, g.generation), statuses);
    ProgrammedReports(statuses[i], l, |AttachedSet(env.routes, g.Id(), l)|, good,
      if good then "Accepted" else "UnsupportedValue", if good then "Pending" else "Invalid", reason, message, g.generation);
  }

  lemma EqualReports(
    a: ListenerStatus, b: ListenerStatus, l: Listener, attached: int, accepted: bool, why: string, programmed: string, generation: int)
    requires ListenerEqual(a, b) && Reports(b, l, attached, accepted, why, programmed, generation)
    ensures Reports(a, l, attached, accepted, why, programmed, generation)
  {
  }

  lemma EqualVerdict(env: Environment, g: Gateway, i: nat, a: ListenerStatus, b: ListenerStatus, programmed: string)
    requires i < |g.spec.listeners| && ListenerEqual(a, b) && ListenerVerdict(env, g, i, b, programmed)
    ensures ListenerVerdict(env, g, i, a, programmed)
  {
  }
}
