/** The two listener validators: the controller's count-based one and the agent's seen-set one. */
module Listeners {
  import opened Wrappers
  import opened Objects
  import opened ApiMeaning
  import opened Conditions
  import opened Sorting
  import opened Folds

  // ---- Reference definition -------------------------------------------------

  predicate Distinct<T(==)>(s: seq<T>) {
    forall i, j :: 0 <= i < j < |s| ==> s[i] != s[j]
  }

  function Names(listeners: seq<Listener>): (s: seq<Segment>)
    ensures |s| == |listeners| && forall i :: 0 <= i < |s| ==> s[i] == listeners[i].name
  {
    seq(|listeners|, i requires 0 <= i < |listeners| => listeners[i].name)
  }

  function Ports(listeners: seq<Listener>): (s: seq<int>)
    ensures |s| == |listeners| && forall i :: 0 <= i < |s| ==> s[i] == listeners[i].port
  {
    seq(|listeners|, i requires 0 <= i < |listeners| => listeners[i].port)
  }

  predicate PlainListener(listener: Listener) {
    listener.name != "" && listener.port != 0 && listener.protocol == "TCP"
  }

  /** A listener list that can be served: one to ten TCP listeners with distinct names and ports. */
  predicate Servable(listeners: seq<Listener>) {
    && 1 <= |listeners| <= MAX_SUPPORTED_LISTENERS
    && (forall l :: l in listeners ==> PlainListener(l))
    && Distinct(Names(listeners))
    && Distinct(Ports(listeners))
  }

  // ---- The controller: validateGatewayListeners ------------------------------

  predicate AllowedRoutesSupported(allowed: Option<AllowedRoutes>) {
    if allowed.None? then true
    else if allowed.value.kinds != 0 then false
    else if allowed.value.namespaces.None? then true
    else if allowed.value.namespaces.value.hasSelector then false
    else if allowed.value.namespaces.value.from.None? then true
    else allowed.value.namespaces.value.from.value == "Same"
  }

  datatype Defect =
    TooManyListeners | EmptyName | ZeroPort | NotTCP | AllowedRoutesUnsupported | DuplicateName | DuplicatePort
  {
    function Message(): (m: string)
      ensures m != ""
    {
      match this
      case TooManyListeners => "too many listeners"
      case EmptyName => "listener name is empty"
      case ZeroPort => "listener port is zero"
      case NotTCP => "listener protocol is not TCP"
      case AllowedRoutesUnsupported => "listener allowedRoutes is unsupported"
      case DuplicateName => "listener name is not unique"
      case DuplicatePort => "listener port is not unique"
    }

    function AcceptedReason(): string {
      if NotTCP? then "UnsupportedProtocol" else "UnsupportedValue"
    }
  }

  /** The first case of the switch that applies, given how often the name and port occur. */
  function DefectOf(total: nat, listener: Listener, nameCount: nat, portCount: nat): Option<Defect> {
    if total > MAX_SUPPORTED_LISTENERS then Some(TooManyListeners)
    else if listener.name == "" then Some(EmptyName)
    else if listener.port == 0 then Some(ZeroPort)
    else if listener.protocol != "TCP" then Some(NotTCP)
    else if !AllowedRoutesSupported(listener.allowedRoutes) then Some(AllowedRoutesUnsupported)
    else if nameCount > 1 then Some(DuplicateName)
    else if portCount > 1 then Some(DuplicatePort)
    else None
  }

  function DefectAt(listeners: seq<Listener>, i: nat): Option<Defect>
    requires i < |listeners|
  {
    DefectOf(|listeners|, listeners[i],
      multiset(Names(listeners))[listeners[i].name], multiset(Ports(listeners))[listeners[i].port])
  }

  datatype Validation = Validation(
    valid: bool, message: string, listeners: seq<Listener>, statuses: seq<ListenerStatus>)

  /** Merging the three listener conditions into an empty list sorts them by kind. */
  lemma ThreeConditionsMerged(a: Condition, r: Condition, p: Condition)
    requires a.kind == "Accepted" && r.kind == "ResolvedRefs" && p.kind == "Programmed"
    ensures MergeConditions([], [a, r, p]) == [a, p, r]
  {
    MergeThree(a, r, p);
  }

  /** `listenerStatusForOutcome`; the conditions are merged, hence sorted by kind. */
  function ListenerStatusForOutcome(
    listener: Listener, attachedRoutes: int,
    accepted: string, acceptedReason: string, acceptedMessage: string,
    resolved: string, resolvedReason: string, resolvedMessage: string,
    programmed: string, programmedReason: string, programmedMessage: string,
    generation: int): ListenerStatus
  {
    ListenerStatus(listener.name, [RouteGroupKind(Some(GATEWAY_API_GROUP), "TCPRoute")], attachedRoutes, [
      Condition("Accepted", accepted, acceptedReason, acceptedMessage, generation),
      Condition("Programmed", programmed, programmedReason, programmedMessage, generation),
      Condition("ResolvedRefs", resolved, resolvedReason, resolvedMessage, generation)])
  }

  function PendingStatus(listener: Listener, attachedRoutes: int, generation: int): ListenerStatus {
    ListenerStatusForOutcome(listener, attachedRoutes,
      "True", "Accepted", "accepted", "True", "ResolvedRefs", "resolved",
      "False", "Pending", "waiting for VIP", generation)
  }

  function RejectedStatus(listener: Listener, attachedRoutes: int, reason: string, message: string, generation: int)
    : ListenerStatus
  {
    ListenerStatusForOutcome(listener, attachedRoutes,
      "False", reason, message, "False", "UnsupportedValue", message, "False", "Invalid", message, generation)
  }

  function StatusOfListener(listener: Listener, defect: Option<Defect>, generation: int): ListenerStatus {
    match defect
    case None => PendingStatus(listener, 0, generation)
    case Some(d) => RejectedStatus(listener, 0, d.AcceptedReason(), d.Message(), generation)
  }

  function StatusAt(listeners: seq<Listener>, i: nat, generation: int): ListenerStatus
    requires i < |listeners|
  {
    StatusOfListener(listeners[i], DefectAt(listeners, i), generation)
  }

  function GoodUpTo(listeners: seq<Listener>, n: nat): seq<Listener>
    requires n <= |listeners|
  {
    if n == 0 then []
    else GoodUpTo(listeners, n - 1) + if DefectAt(listeners, n - 1).None? then [listeners[n - 1]] else []
  }

  function StatusIndex(listeners: seq<Listener>, generation: int): nat -> ListenerStatus {
    (i: nat) => if i < |listeners| then StatusAt(listeners, i, generation) else ListenerStatus("", [], 0, [])
  }

  function StatusesUpTo(listeners: seq<Listener>, n: nat, generation: int): seq<ListenerStatus>
    requires n <= |listeners|
  {
    Tabulate(StatusIndex(listeners, generation), n)
  }

  function FirstDefectUpTo(listeners: seq<Listener>, n: nat): Option<Defect>
    requires n <= |listeners|
  {
    if n == 0 then None
    else
      var before := FirstDefectUpTo(listeners, n - 1);
      if before.Some? then before else DefectAt(listeners, n - 1)
  }

  /** The listeners are servable and none restricts its routes in an unsupported way. */
  predicate ListenersOk(listeners: seq<Listener>) {
    Servable(listeners) && forall l :: l in listeners ==> AllowedRoutesSupported(l.allowedRoutes)
  }

  const LISTENERS_ACCEPTED := "Listeners accepted."

  function ValidateListeners(listeners: seq<Listener>, generation: int): Validation {
    if listeners == [] then Validation(false, "no listeners", [], [])
    else
      var defect := FirstDefectUpTo(listeners, |listeners|);
      Validation(defect.None?, if defect.Some? then defect.value.Message() else LISTENERS_ACCEPTED,
        GoodUpTo(listeners, |listeners|), StatusesUpTo(listeners, |listeners|, generation))
  }

  function Count<T>(counts: map<T, nat>, x: T): nat {
    if x in counts then counts[x] else 0
  }

  /** The counting loop, once for names and once for ports. */
  method CountOccurrences<T(==)>(s: seq<T>) returns (counts: map<T, nat>)
    ensures forall x :: Count(counts, x) == multiset(s)[x]
  {
    counts := map[];
    for i := 0 to |s|
      invariant forall x :: Count(counts, x) == multiset(s[..i])[x]
    {
      assert s[..i + 1] == s[..i] + [s[i]];
      counts := counts[s[i] := Count(counts, s[i]) + 1];
    }
    assert s[..|s|] == s;
  }

  /** Validity and message while the loop runs: too many listeners are a defect of the whole list. */
  function VerdictUpTo(listeners: seq<Listener>, n: nat): (bool, string)
    requires n <= |listeners|
  {
    if |listeners| > MAX_SUPPORTED_LISTENERS then (false, TooManyListeners.Message())
    else match FirstDefectUpTo(listeners, n)
      case None => (true, LISTENERS_ACCEPTED)
      case Some(d) => (false, d.Message())
  }

  lemma {:induction false} TooManyIsFirst(listeners: seq<Listener>, n: nat)
    requires 0 < n <= |listeners| && |listeners| > MAX_SUPPORTED_LISTENERS
    ensures FirstDefectUpTo(listeners, n) == Some(TooManyListeners)
  {
    if n > 1 {
      TooManyIsFirst(listeners, n - 1);
    }
  }

  lemma VerdictIsFinal(listeners: seq<Listener>)
    requires listeners != []
    ensures var defect := FirstDefectUpTo(listeners, |listeners|);
            VerdictUpTo(listeners, |listeners|)
            == (defect.None?, if defect.Some? then defect.value.Message() else LISTENERS_ACCEPTED)
  {
    if |listeners| > MAX_SUPPORTED_LISTENERS {
      TooManyIsFirst(listeners, |listeners|);
    }
  }

  lemma CountsGiveDefect(listeners: seq<Listener>, i: nat, nameCounts: map<Segment, nat>, portCounts: map<int, nat>)
    requires i < |listeners|
    requires forall x :: Count(nameCounts, x) == multiset(Names(listeners))[x]
    requires forall x :: Count(portCounts, x) == multiset(Ports(listeners))[x]
    ensures var l := listeners[i];
            DefectOf(|listeners|, l, Count(nameCounts, l.name), Count(portCounts, l.port)) == DefectAt(listeners, i)
  {
  }

  /** The result after the first `n` listeners. */
  function ValidationUpTo(listeners: seq<Listener>, n: nat, generation: int): Validation
    requires n <= |listeners|
  {
    var verdict := VerdictUpTo(listeners, n);
    Validation(verdict.0, verdict.1, GoodUpTo(listeners, n), StatusesUpTo(listeners, n, generation))
  }

  lemma NothingValidated(listeners: seq<Listener>, generation: int)
    ensures ValidationUpTo(listeners, 0, generation) ==
            if |listeners| > MAX_SUPPORTED_LISTENERS then Validation(false, TooManyListeners.Message(), [], [])
            else Validation(true, LISTENERS_ACCEPTED, [], [])
  {
  }

  /** One turn: a defect gives a rejected status, and the first one the message; otherwise the listener is good. */
  method ValidateOne(
    listeners: seq<Listener>, i: nat, nameCounts: map<Segment, nat>, portCounts: map<int, nat>, generation: int,
    result: Validation)
    returns (result': Validation)
    requires i < |listeners| && result == ValidationUpTo(listeners, i, generation)
    requires forall x :: Count(nameCounts, x) == multiset(Names(listeners))[x]
    requires forall x :: Count(portCounts, x) == multiset(Ports(listeners))[x]
    ensures result' == ValidationUpTo(listeners, i + 1, generation)
  {
    var l := listeners[i];
    var defect := DefectOf(|listeners|, l, Count(nameCounts, l.name), Count(portCounts, l.port));
    CountsGiveDefect(listeners, i, nameCounts, portCounts);
    result' := result.(statuses := result.statuses + [StatusOfListener(l, defect, generation)]);
    if defect.None? {
      result' := result'.(listeners := result.listeners + [l]);
    } else if result.valid {
      result' := result'.(valid := false, message := defect.value.Message());
    }
  }

  /** `validateGatewayListeners`: count names and ports, then judge each listener. */
  method ValidateGatewayListeners(listeners: seq<Listener>, generation: int) returns (result: Validation)
    ensures result == ValidateListeners(listeners, generation)
  {
    if |listeners| == 0 {
      return Validation(false, "no listeners", [], []);
    }
    var nameCounts := CountOccurrences(Names(listeners));
    var portCounts := CountOccurrences(Ports(listeners));

    result := Validation(true, LISTENERS_ACCEPTED, [], []);
    if |listeners| > MAX_SUPPORTED_LISTENERS {
      result := Validation(false, TooManyListeners.Message(), [], []);
    }
    NothingValidated(listeners, generation);
    for i := 0 to |listeners|
      invariant result == ValidationUpTo(listeners, i, generation)
    {
      result := ValidateOne(listeners, i, nameCounts, portCounts, generation, result);
    }
    VerdictIsFinal(listeners);
  }

  // ---- What the controller's validation means --------------------------------

  lemma CountOne<T>(s: seq<T>, i: nat)
    requires i < |s| && Distinct(s)
    ensures multiset(s)[s[i]] == 1
  {
    assert s == s[..i] + [s[i]] + s[i + 1..];
    assert s[i] !in s[..i] && s[i] !in s[i + 1..];
  }

  lemma {:induction false} NoDefectUpTo(listeners: seq<Listener>, n: nat)
    requires n <= |listeners|
    ensures FirstDefectUpTo(listeners, n).None? <==> forall i :: 0 <= i < n ==> DefectAt(listeners, i).None?
  {
    if n > 0 {
      NoDefectUpTo(listeners, n - 1);
    }
  }

  lemma {:induction false} AllGoodUpTo(listeners: seq<Listener>, n: nat)
    requires n <= |listeners| && FirstDefectUpTo(listeners, n).None?
    ensures GoodUpTo(listeners, n) == listeners[..n]
  {
    if n > 0 {
      AllGoodUpTo(listeners, n - 1);
      assert listeners[..n] == listeners[..n - 1] + [listeners[n - 1]];
    }
  }

  lemma ServableHasNoDefect(listeners: seq<Listener>, i: nat)
    requires Servable(listeners) && i < |listeners|
    requires AllowedRoutesSupported(listeners[i].allowedRoutes)
    ensures DefectAt(listeners, i).None?
  {
    CountOne(Names(listeners), i);
    CountOne(Ports(listeners), i);
    assert listeners[i] in listeners;
  }

  lemma NoDefectMakesServable(listeners: seq<Listener>)
    requires listeners != []
    requires forall i :: 0 <= i < |listeners| ==> DefectAt(listeners, i).None?
    ensures ListenersOk(listeners)
  {
    assert DefectAt(listeners, 0).None?;
    forall l | l in listeners
      ensures PlainListener(l) && AllowedRoutesSupported(l.allowedRoutes)
    {
      var i :| 0 <= i < |listeners| && listeners[i] == l;
      assert DefectAt(listeners, i).None?;
    }
    var names, ports := Names(listeners), Ports(listeners);
    forall i, j | 0 <= i < j < |listeners|
      ensures names[i] != names[j] && ports[i] != ports[j]
    {
      assert DefectAt(listeners, i).None?;
      if names[i] == names[j] { CountAtLeastTwo(names, i, j); }
      if ports[i] == ports[j] { CountAtLeastTwo(ports, i, j); }
    }
  }

  lemma CountMeaning<T>(s: seq<T>, i: nat)
    requires i < |s|
    ensures multiset(s)[s[i]] > 1 <==> exists j :: 0 <= j < |s| && j != i && s[j] == s[i]
  {
    var rest := s[..i] + s[i + 1..];
    assert s == s[..i] + [s[i]] + s[i + 1..];
    assert multiset(s) == multiset(rest) + multiset{s[i]};
    if j :| 0 <= j < |s| && j != i && s[j] == s[i] {
      if j < i {
        CountAtLeastTwo(s, j, i);
      } else {
        CountAtLeastTwo(s, i, j);
      }
    }
    if multiset(s)[s[i]] > 1 {
      assert s[i] in rest;
      var k :| 0 <= k < |rest| && rest[k] == s[i];
      assert k < i ==> s[k] == s[i];
      assert k >= i ==> s[k + 1] == s[i];
    }
  }

  /** A listener has no defect exactly if it fits among the others. */
  lemma NoDefectFits(listeners: seq<Listener>, i: nat)
    requires i < |listeners|
    ensures DefectAt(listeners, i).None? <==> ListenerFits(listeners, i)
  {
    CountMeaning(Names(listeners), i);
    CountMeaning(Ports(listeners), i);
    if j :| 0 <= j < |listeners| && j != i && listeners[j].name == listeners[i].name {
      assert Names(listeners)[j] == Names(listeners)[i];
    }
    if j :| 0 <= j < |listeners| && j != i && listeners[j].port == listeners[i].port {
      assert Ports(listeners)[j] == Ports(listeners)[i];
    }
  }

  /** The first thing that is wrong with listener `i` is its protocol. */
  predicate WrongProtocol(listeners: seq<Listener>, i: nat)
    requires i < |listeners|
  {
    |listeners| <= 10 && listeners[i].name != "" && listeners[i].port != 0 && listeners[i].protocol != "TCP"
  }

  lemma NotTCPIsWrongProtocol(listeners: seq<Listener>, i: nat)
    requires i < |listeners|
    ensures DefectAt(listeners, i) == Some(NotTCP) <==> WrongProtocol(listeners, i)
  {
  }

  lemma StatusesAt(listeners: seq<Listener>, generation: int, i: nat)
    requires i < |listeners|
    ensures var statuses := ValidateListeners(listeners, generation).statuses;
            |statuses| == |listeners| && statuses[i] == StatusOfListener(listeners[i], DefectAt(listeners, i), generation)
  {
    TabulateAt(StatusIndex(listeners, generation), |listeners|);
  }

  lemma StatusOfListenerReports(l: Listener, defect: Option<Defect>, generation: int, reason: string, programmed: string)
    requires reason ==
             if defect.None? then "Accepted" else if defect == Some(NotTCP) then "UnsupportedProtocol" else "UnsupportedValue"
    requires programmed == if defect.None? then "Pending" else "Invalid"
    ensures Reports(StatusOfListener(l, defect, generation), l, 0, defect.None?, reason, programmed, generation)
  {
  }

  /** Each listener is reported as accepted exactly if it fits, with no route attached yet. */
  lemma ValidationReports(listeners: seq<Listener>, generation: int, i: nat)
    requires i < |listeners|
    ensures var statuses := ValidateListeners(listeners, generation).statuses;
            && |statuses| == |listeners|
            && Reports(statuses[i], listeners[i], 0, ListenerFits(listeners, i),
                 if ListenerFits(listeners, i) then "Accepted"
                 else if WrongProtocol(listeners, i) then "UnsupportedProtocol" else "UnsupportedValue",
                 if ListenerFits(listeners, i) then "Pending" else "Invalid", generation)
  {
    var defect := DefectAt(listeners, i);
    StatusesAt(listeners, generation, i);
    NoDefectFits(listeners, i);
    NotTCPIsWrongProtocol(listeners, i);
    var reason :=
      if defect.None? then "Accepted" else if defect == Some(NotTCP) then "UnsupportedProtocol" else "UnsupportedValue";
    var programmed := if defect.None? then "Pending" else "Invalid";
    StatusOfListenerReports(listeners[i], defect, generation, reason, programmed);
  }

  /** The count-based validation succeeds exactly on servable lists whose allowedRoutes are all supported. */
  lemma ValidationMeaning(listeners: seq<Listener>, generation: int)
    ensures var v := ValidateListeners(listeners, generation);
            && (v.valid <==> ListenersOk(listeners))
            && (v.valid ==> v.listeners == listeners)
    ensures ListenersOk(listeners) <==> ListenersFit(listeners)
  {
    forall i | 0 <= i < |listeners|
      ensures DefectAt(listeners, i).None? <==> ListenerFits(listeners, i)
    {
      NoDefectFits(listeners, i);
    }
    NoDefectUpTo(listeners, |listeners|);
    assert listeners[..|listeners|] == listeners;
    if ValidateListeners(listeners, generation).valid {
      AllGoodUpTo(listeners, |listeners|);
      NoDefectMakesServable(listeners);
    } else if ListenersOk(listeners) {
      forall i | 0 <= i < |listeners|
        ensures DefectAt(listeners, i).None?
      {
        assert listeners[i] in listeners;
        ServableHasNoDefect(listeners, i);
      }
    }
  }

  // ---- The agent: gatewaySupported -------------------------------------------

  lemma RepeatIsNotDistinct<T>(s: seq<T>, i: nat)
    requires i < |s| && s[i] in s[..i]
    ensures !Distinct(s)
  {
  }

  /** The listener part of `gatewaySupported`: reject on the first bad or repeated listener. */
  method ListenersSupported(listeners: seq<Listener>) returns (ok: bool)
    ensures ok <==> Servable(listeners)
  {
    if |listeners| == 0 || |listeners| > MAX_SUPPORTED_LISTENERS {
      return false;
    }
    var names: set<Segment>, ports: set<int> := {}, {};
    ghost var allNames, allPorts := Names(listeners), Ports(listeners);
    for i := 0 to |listeners|
      invariant forall k :: 0 <= k < i ==> PlainListener(listeners[k])
      invariant names == (set x | x in allNames[..i]) && Distinct(allNames[..i])
      invariant ports == (set x | x in allPorts[..i]) && Distinct(allPorts[..i])
    {
      var l := listeners[i];
      if l.protocol != "TCP" || l.name == "" || l.port == 0 {
        assert l in listeners;
        return false;
      }
      assert allNames[..i + 1] == allNames[..i] + [l.name];
      if l.name in names {
        RepeatIsNotDistinct(allNames, i);
        return false;
      }
      names := names + {l.name};
      assert allPorts[..i + 1] == allPorts[..i] + [l.port];
      if l.port in ports {
        RepeatIsNotDistinct(allPorts, i);
        return false;
      }
      ports := ports + {l.port};
    }
    assert allNames[..|listeners|] == allNames && allPorts[..|listeners|] == allPorts;
    return true;
  }

  /** Listeners with distinct names are distinct, and told apart by their names. */
  lemma NamesTellApart(listeners: seq<Listener>)
    requires Distinct(Names(listeners))
    ensures Distinct(listeners)
  {
    forall i, j | 0 <= i < j < |listeners|
      ensures listeners[i] != listeners[j]
    {
      assert Names(listeners)[i] != Names(listeners)[j];
    }
  }

  lemma SameNameListener(listeners: seq<Listener>, l: Listener, l': Listener)
    requires Distinct(Names(listeners)) && l in listeners && l' in listeners && l.name == l'.name
    ensures l == l'
  {
    var i :| 0 <= i < |listeners| && listeners[i] == l;
    var j :| 0 <= j < |listeners| && listeners[j] == l';
    assert Names(listeners)[i] == Names(listeners)[j];
  }

  /** `gatewaySupported`. */
  predicate Supported(gateway: Gateway) {
    && gateway.namespace != "" && gateway.name != ""
    && !gateway.deleting
    && gateway.spec.className == GATEWAY_CLASS_NAME
    && Servable(gateway.spec.listeners)
    && |gateway.status.addresses| == 1
    && gateway.status.addresses[0].kind == Some("IPAddress")
    && gateway.status.addresses[0].value != ""
  }

  method GatewaySupported(gateway: Gateway) returns (ok: bool)
    ensures ok <==> Supported(gateway)
  {
    if gateway.namespace == "" || gateway.name == "" || gateway.deleting {
      return false;
    }
    if gateway.spec.className != GATEWAY_CLASS_NAME {
      return false;
    }
    var listenersOk := ListenersSupported(gateway.spec.listeners);
    if !listenersOk || |gateway.status.addresses| != 1 {
      return false;
    }
    var address := gateway.status.addresses[0];
    return address.kind == Some("IPAddress") && address.value != "";
  }

  // ---- Agreement --------------------------------------------------------------

  /** Both validators, run on any listener list, agree up to allowedRoutes. */
  method ValidatorsAgree(listeners: seq<Listener>, generation: int) returns (controller: Validation, agent: bool)
    ensures controller == ValidateListeners(listeners, generation)
    ensures agent <==> Servable(listeners)
    ensures controller.valid <==> agent && forall l :: l in listeners ==> AllowedRoutesSupported(l.allowedRoutes)
  {
    controller := ValidateGatewayListeners(listeners, generation);
    agent := ListenersSupported(listeners);
    ValidationMeaning(listeners, generation);
  }
}
