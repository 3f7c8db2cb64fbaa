/** The compiled ruleset does to every packet what the frontend and endpoint maps say. */
module CompilerCorrectness {
  import opened Wrappers
  import opened Folds
  import opened Text
  import opened Sorting
  import opened Addresses
  import opened Objects
  import opened AgentState
  import opened Nftables
  import opened Ruleset
  import opened Netlink

  // ---- Reference semantics, on the maps -----------------------------------------

  /** The packet is TCP to this address and port. */
  predicate TCPTo(packet: Packet, address: Addr, port: nat) {
    && |packet.network| >= 20 && packet.network[16..20] == address
    && packet.l4proto == Some(IPPROTO_TCP)
    && |packet.transport| >= 4 && packet.transport[2..4] == BigEndianUint16(port)
  }

  /** A random source stays below its modulus. */
  ghost predicate FairDraw(draw: nat -> nat) {
    forall m :: m > 0 ==> draw(m) < m
  }

  /** The frontend `key` takes the packet: right destination, a usable port and a usable backend. */
  predicate Takes(lib: Library, frontend: Frontend, endpoints: seq<Endpoint>, packet: Packet) {
    && ToUint16Port(frontend.port).Some?
    && UsableBackends(lib, endpoints) != []
    && TCPTo(packet, frontend.address, frontend.port)
  }

  function Pick(backends: seq<(Addr, nat)>, draw: nat -> nat): Verdict
    requires draw(|backends|) < |backends|
  {
    var b := backends[draw(|backends|)];
    Redirect(b.0, BigEndianUint16(b.1))
  }

  /** The meaning of the maps: the first frontend in key order that takes the packet redirects it. */
  function Direct(
    lib: Library, frontends: FrontendMap, endpoints: EndpointsMap, keys: seq<FrontendKey>, packet: Packet, draw: nat -> nat)
    : Verdict
    requires forall key :: key in keys ==> key in frontends
    requires FairDraw(draw)
  {
    if keys == [] then Unchanged
    else
      var n := |keys| - 1;
      var earlier := Direct(lib, frontends, endpoints, keys[..n], packet, draw);
      if earlier.Redirect? then earlier
      else if Takes(lib, frontends[keys[n]], Lookup(endpoints, keys[n]), packet)
      then Pick(UsableBackends(lib, Lookup(endpoints, keys[n])), draw)
      else Unchanged
  }

  /** `Direct` in words: the first taker decides, and without one nothing changes. */
  lemma {:induction false} DirectMeaning(
    lib: Library, frontends: FrontendMap, endpoints: EndpointsMap, keys: seq<FrontendKey>, packet: Packet, draw: nat -> nat)
    requires forall key :: key in keys ==> key in frontends
    requires FairDraw(draw)
    ensures var v := Direct(lib, frontends, endpoints, keys, packet, draw);
            && (v.Unchanged? <==>
                  forall key :: key in keys ==> !Takes(lib, frontends[key], Lookup(endpoints, key), packet))
            && (forall i :: 0 <= i < |keys|
                  && Takes(lib, frontends[keys[i]], Lookup(endpoints, keys[i]), packet)
                  && (forall j :: 0 <= j < i ==> !Takes(lib, frontends[keys[j]], Lookup(endpoints, keys[j]), packet))
                  ==> v == Pick(UsableBackends(lib, Lookup(endpoints, keys[i])), draw))
  {
    if keys != [] {
      var n := |keys| - 1;
      DirectMeaning(lib, frontends, endpoints, keys[..n], packet, draw);
      assert forall key :: key in keys <==> key in keys[..n] || key == keys[n];
      forall i | 0 <= i < n
        ensures keys[..n][i] == keys[i] && keys[i] in keys[..n]
      {
      }
    }
  }

  // ---- What the batch builds ------------------------------------------------------

  lemma {:induction false} ExecAppend(table: Table, a: seq<Op>, b: seq<Op>)
    ensures ExecOps(table, a + b) ==
            match ExecOps(table, a) case Ok(t) => ExecOps(t, b) case Err(e) => Err(e)
    decreases a
  {
    if a == [] {
      assert a + b == b;
    } else {
      assert (a + b)[1..] == a[1..] + b;
      match ExecOp(table, a[0]) {
        case Ok(t) => ExecAppend(t, a[1..], b);
        case Err(_) =>
      }
    }
  }

  ghost predicate DeclaredService(table: Table, service: ServiceChain) {
    && service.chainName in table.chains
    && (forall b :: b in service.backends ==> b.chainName in table.chains)
    && service.dispatchMapName in table.maps
    && table.maps[service.dispatchMapName] == ElementMap(DispatchElements(service.backends))
  }

  /** Chains and maps of `services` exist, no chain has a rule yet, and only the two base chains are hooked. */
  ghost predicate Declared(table: Table, services: seq<ServiceChain>) {
    && PREROUTING_CHAIN in table.chains && table.chains[PREROUTING_CHAIN] == Chain(Some(Prerouting), [])
    && OUTPUT_CHAIN in table.chains && table.chains[OUTPUT_CHAIN] == Chain(Some(Output), [])
    && (forall c :: c in table.chains && c != PREROUTING_CHAIN && c != OUTPUT_CHAIN ==> table.chains[c] == Chain(None, []))
    && (forall s :: s in services ==> DeclaredService(table, s))
    && (forall m :: m in table.maps ==> exists s :: s in services && s.dispatchMapName == m)
  }

  lemma {:induction false} AddBackends(table: Table, backends: seq<BackendChain>)
    requires forall b :: b in backends ==> b.chainName in table.chains ==> table.chains[b.chainName].hook == None
    ensures var r := ExecOps(table, BackendAdds(backends));
            && r.Ok? && r.value.maps == table.maps
            && (forall c :: c in table.chains ==> c in r.value.chains && r.value.chains[c] == table.chains[c])
            && (forall b :: b in backends ==> b.chainName in r.value.chains)
            && (forall c :: c in r.value.chains && c !in table.chains ==> r.value.chains[c] == Chain(None, []))
  {
    if backends != [] {
      var n := |backends| - 1;
      AddBackends(table, backends[..n]);
      var t := ExecOps(table, BackendAdds(backends[..n])).value;
      var op := AddChain(backends[n].chainName, None);
      ExecAppend(table, BackendAdds(backends[..n]), [op]);
      assert ExecOps(t, [op]) == ExecOp(t, op) by {
        if ExecOp(t, op).Ok? {
          assert [op][1..] == [];
        }
      }
      assert backends[n] in backends;
      assert forall b :: b in backends <==> b in backends[..n] || b == backends[n];
    }
  }

  lemma DigitsOf(i: nat)
    requires i < UINT32_RANGE
    ensures i == i % 256 + 256 * (i / 256 % 256) + 0x1_0000 * (i / 0x1_0000 % 256) + 0x100_0000 * (i / 0x100_0000 % 256)
  {
    var q, r := i / 256, i / 0x1_0000;
    assert r == q / 256 && i / 0x100_0000 == r / 256;
    assert i == 256 * q + i % 256 && q == 256 * r + q % 256 && r == 256 * (r / 256) + r % 256;
    assert r / 256 < 256;
  }

  lemma NativeUint32Injective(i: nat, j: nat)
    requires i < UINT32_RANGE && j < UINT32_RANGE
    requires NativeUint32(i) == NativeUint32(j)
    ensures i == j
  {
    var a, b := NativeUint32(i), NativeUint32(j);
    assert a[0] == b[0] && a[1] == b[1] && a[2] == b[2] && a[3] == b[3];
    assert i == i % 256 + 256 * (i / 256 % 256) + 0x1_0000 * (i / 0x1_0000 % 256) + 0x100_0000 * (i / 0x100_0000 % 256) by {
      DigitsOf(i);
    }
    assert j == j % 256 + 256 * (j / 256 % 256) + 0x1_0000 * (j / 0x1_0000 % 256) + 0x100_0000 * (j / 0x100_0000 % 256) by {
      DigitsOf(j);
    }
  }

  lemma SmallModulo(i: nat)
    requires i < UINT32_RANGE
    ensures i % UINT32_RANGE == i
  {
  }

  lemma ElementsDistinct(backends: seq<BackendChain>)
    requires |backends| < UINT32_RANGE
    ensures ElementsFresh(DispatchElements(backends))
  {
    var e := DispatchElements(backends);
    forall i, j | 0 <= i < j < |e|
      ensures e[i].0 != e[j].0
    {
      SmallModulo(i);
      SmallModulo(j);
      if NativeUint32(i) == NativeUint32(j) {
        NativeUint32Injective(i, j);
      }
    }
  }

  lemma {:induction false} ElementLookup(elements: seq<(Bytes, string)>, i: nat)
    requires ElementsFresh(elements) && i < |elements|
    ensures elements[i].0 in ElementMap(elements) && ElementMap(elements)[elements[i].0] == elements[i].1
  {
    var n := |elements| - 1;
    if i < n {
      ElementLookup(elements[..n], i);
    }
  }

  /** No name of a service clashes with a base chain. */
  lemma ServiceNamesAreNotBase(service: ServiceChain)
    requires WellNamedService(service)
    ensures service.chainName != PREROUTING_CHAIN && service.chainName != OUTPUT_CHAIN
    ensures forall b :: b in service.backends ==>
              |b.chainName| > 20 && b.chainName != PREROUTING_CHAIN && b.chainName != OUTPUT_CHAIN
  {
    assert |PREROUTING_CHAIN| == 10 && |OUTPUT_CHAIN| == 6;
  }

  lemma DispatchMapNameInjective(s: ServiceChain, s': ServiceChain)
    requires WellNamedService(s) && WellNamedService(s') && s.dispatchMapName == s'.dispatchMapName
    ensures s.chainName == s'.chainName
  {
    assert s.dispatchMapName[4..] == s.chainName[4..] && s'.dispatchMapName[4..] == s'.chainName[4..];
    assert s.chainName == s.chainName[..4] + s.chainName[4..] && s'.chainName == s'.chainName[..4] + s'.chainName[4..];
  }

  lemma DeclareChains(table: Table, services: seq<ServiceChain>, s: ServiceChain)
    requires Declared(table, services) && WellNamedService(s)
    ensures var r := ExecOps(table, [AddChain(s.chainName, None)] + BackendAdds(s.backends));
            && r.Ok? && Declared(r.value, services) && r.value.maps == table.maps
            && s.chainName in r.value.chains && forall b :: b in s.backends ==> b.chainName in r.value.chains
  {
    ServiceNamesAreNotBase(s);
    var op := AddChain(s.chainName, None);
    var t := ExecOp(table, op).value;
    var ops := [op] + BackendAdds(s.backends);
    assert ops[1..] == BackendAdds(s.backends);
    AddBackends(t, s.backends);
  }

  lemma MapNameIsFresh(table: Table, services: seq<ServiceChain>, s: ServiceChain)
    requires Declared(table, services) && WellNamedService(s)
    requires forall s' :: s' in services ==> WellNamedService(s') && s'.chainName != s.chainName
    ensures s.dispatchMapName !in table.maps
  {
    if s.dispatchMapName in table.maps {
      var s' :| s' in services && s'.dispatchMapName == s.dispatchMapName;
      DispatchMapNameInjective(s, s');
    }
  }

  lemma DeclareMap(table: Table, services: seq<ServiceChain>, s: ServiceChain)
    requires Declared(table, services) && s.dispatchMapName !in table.maps
    requires s.chainName in table.chains && forall b :: b in s.backends ==> b.chainName in table.chains
    requires |s.backends| < UINT32_RANGE
    ensures var r := ExecOp(table, AddMap(s.dispatchMapName, DispatchElements(s.backends)));
            r.Ok? && Declared(r.value, services + [s])
  {
    ElementsDistinct(s.backends);
    var e := DispatchElements(s.backends);
    assert forall i :: 0 <= i < |e| ==> e[i].1 in table.chains by {
      forall i | 0 <= i < |e|
        ensures e[i].1 in table.chains
      {
        assert s.backends[i] in s.backends;
      }
    }
    var r := ExecOp(table, AddMap(s.dispatchMapName, e)).value;
    assert r.chains == table.chains && r.maps == table.maps[s.dispatchMapName := ElementMap(e)];
    assert forall s' :: s' in services + [s] <==> s' in services || s' == s;
    forall s' | s' in services
      ensures DeclaredService(r, s')
    {
      assert DeclaredService(table, s');
    }
    assert DeclaredService(r, s);
    forall m | m in r.maps
      ensures exists s' :: s' in services + [s] && s'.dispatchMapName == m
    {
      if m in table.maps {
        var s' :| s' in services && s'.dispatchMapName == m;
        assert s' in services + [s];
      } else {
        assert s in services + [s];
      }
    }
  }

  lemma ExecLast(table: Table, ops: seq<Op>, op: Op)
    requires ExecOps(table, ops).Ok?
    ensures ExecOps(table, ops + [op]) == ExecOp(ExecOps(table, ops).value, op)
  {
    ExecAppend(table, ops, [op]);
    assert [op][1..] == [];
  }

  lemma DeclareOne(table: Table, services: seq<ServiceChain>, s: ServiceChain)
    requires Declared(table, services) && WellNamedService(s) && |s.backends| < UINT32_RANGE
    requires forall s' :: s' in services ==> WellNamedService(s') && s'.chainName != s.chainName
    ensures var r := ExecOps(table, DeclareService(s)); r.Ok? && Declared(r.value, services + [s])
  {
    DeclareChains(table, services, s);
    var chains := [AddChain(s.chainName, None)] + BackendAdds(s.backends);
    MapNameIsFresh(table, services, s);
    DeclareMap(ExecOps(table, chains).value, services, s);
    ExecLast(table, chains, AddMap(s.dispatchMapName, DispatchElements(s.backends)));
  }

  lemma BaseChainsDeclared()
    ensures var r := ExecOps(EMPTY_TABLE, BaseOps(DEFAULT_BASE_CHAINS)); r.Ok? && Declared(r.value, [])
  {
    var pre, out := AddChain(PREROUTING_CHAIN, Some(Prerouting)), AddChain(OUTPUT_CHAIN, Some(Output));
    var first := DEFAULT_BASE_CHAINS[..1];
    assert first[..0] == [] && BaseOps(first) == BaseOps([]) + [pre] == [] + [pre];
    assert BaseOps(DEFAULT_BASE_CHAINS) == BaseOps(first) + [out];
    ExecLast(EMPTY_TABLE, [], pre);
    ExecLast(EMPTY_TABLE, [] + [pre], out);
    assert |PREROUTING_CHAIN| != |OUTPUT_CHAIN|;
  }

  ghost predicate Bounded(services: seq<ServiceChain>) {
    forall s :: s in services ==> |s.backends| < UINT32_RANGE
  }

  lemma WellNamedPrefix(services: seq<ServiceChain>, n: nat)
    requires n <= |services| && WellNamed(services) && Bounded(services)
    ensures WellNamed(services[..n]) && Bounded(services[..n])
    ensures n < |services| ==> forall s :: s in services[..n] ==> WellNamedService(s) && s.chainName != services[n].chainName
    ensures n < |services| ==> WellNamedService(services[n]) && |services[n].backends| < UINT32_RANGE
  {
    assert forall s :: s in services[..n] ==> s in services;
    assert n < |services| ==> services[n] in services;
  }

  lemma DeclareNext(table: Table, before: seq<ServiceChain>, s: ServiceChain)
    requires ExecOps(table, Declarations(before)).Ok? && Declared(ExecOps(table, Declarations(before)).value, before)
    requires WellNamedService(s) && |s.backends| < UINT32_RANGE
    requires forall s' :: s' in before ==> WellNamedService(s') && s'.chainName != s.chainName
    ensures var r := ExecOps(table, Declarations(before) + DeclareService(s)); r.Ok? && Declared(r.value, before + [s])
  {
    ExecAppend(table, Declarations(before), DeclareService(s));
    DeclareOne(ExecOps(table, Declarations(before)).value, before, s);
  }

  lemma DeclarationsLast(services: seq<ServiceChain>, n: nat)
    requires n < |services|
    ensures Declarations(services[..n + 1]) == Declarations(services[..n]) + DeclareService(services[n])
    ensures services[..n] + [services[n]] == services[..n + 1]
  {
    assert services[..n + 1][..n] == services[..n];
  }

  lemma {:induction false} DeclareUpTo(table: Table, services: seq<ServiceChain>, n: nat)
    requires n <= |services| && Declared(table, []) && WellNamed(services) && Bounded(services)
    ensures var r := ExecOps(table, Declarations(services[..n])); r.Ok? && Declared(r.value, services[..n])
  {
    if n > 0 {
      DeclareUpTo(table, services, n - 1);
      WellNamedPrefix(services, n - 1);
      DeclareNext(table, services[..n - 1], services[n - 1]);
      DeclarationsLast(services, n - 1);
    }
  }

  lemma DeclareAll(table: Table, services: seq<ServiceChain>)
    requires Declared(table, []) && WellNamed(services) && Bounded(services)
    ensures var r := ExecOps(table, Declarations(services)); r.Ok? && Declared(r.value, services)
  {
    DeclareUpTo(table, services, |services|);
    assert services[..|services|] == services;
  }

  // ---- The rules phase -----------------------------------------------------------

  /** The rules a batch appends to one chain. */
  function RulesFor(ops: seq<Op>, chain: string): seq<Rule> {
    if ops == [] then []
    else (if ops[0].AddRule? && ops[0].chain == chain then [ops[0].rule] else []) + RulesFor(ops[1..], chain)
  }

  lemma {:induction false} RulesForAppend(a: seq<Op>, b: seq<Op>, chain: string)
    ensures RulesFor(a + b, chain) == RulesFor(a, chain) + RulesFor(b, chain)
  {
    if a == [] {
      assert a + b == b;
    } else {
      assert (a + b)[1..] == a[1..] + b;
      RulesForAppend(a[1..], b, chain);
    }
  }

  lemma RulesForOne(chain: string, rule: Rule, c: string)
    ensures RulesFor([AddRule(chain, rule)], c) == if c == chain then [rule] else []
  {
    assert [AddRule(chain, rule)][1..] == [];
  }

  ghost predicate RuleOpsOnly(table: Table, ops: seq<Op>) {
    forall op :: op in ops ==> op.AddRule? && op.chain in table.chains && References(table, op.rule)
  }

  lemma RuleStep(table: Table, ops: seq<Op>)
    requires ops != [] && RuleOpsOnly(table, ops)
    ensures var r := ExecOp(table, ops[0]);
            && r.Ok? && r.value.maps == table.maps && r.value.chains.Keys == table.chains.Keys
            && RuleOpsOnly(r.value, ops[1..])
            && forall c :: c in table.chains ==>
                 r.value.chains[c] == Chain(table.chains[c].hook,
                   table.chains[c].rules + (if c == ops[0].chain then [ops[0].rule] else []))
  {
    assert ops[0] in ops;
    var t := ExecOp(table, ops[0]).value;
    assert t.chains.Keys == table.chains.Keys;
    forall op | op in ops[1..]
      ensures op.AddRule? && op.chain in t.chains && References(t, op.rule)
    {
      assert op in ops;
    }
  }

  lemma {:induction false} ExecRules(table: Table, ops: seq<Op>)
    requires RuleOpsOnly(table, ops)
    ensures var r := ExecOps(table, ops);
            && r.Ok? && r.value.maps == table.maps && r.value.chains.Keys == table.chains.Keys
            && forall c :: c in table.chains ==>
                 r.value.chains[c] == Chain(table.chains[c].hook, table.chains[c].rules + RulesFor(ops, c))
    decreases ops
  {
    if ops != [] {
      RuleStep(table, ops);
      var t := ExecOp(table, ops[0]).value;
      ExecRules(t, ops[1..]);
      assert ops[0] in ops;
      forall c | c in table.chains
        ensures t.chains[c].rules + RulesFor(ops[1..], c) == table.chains[c].rules + RulesFor(ops, c)
      {
        var head := if c == ops[0].chain then [ops[0].rule] else [];
        assert RulesFor(ops, c) == head + RulesFor(ops[1..], c);
        Associative(table.chains[c].rules, head, RulesFor(ops[1..], c));
      }
    }
  }

  function JumpRules(services: seq<ServiceChain>): seq<Rule> {
    if services == [] then []
    else var n := |services| - 1; JumpRules(services[..n]) + [ServiceJumpExprs(services[n])]
  }

  lemma {:induction false} JumpSegment(chain: string, services: seq<ServiceChain>, c: string)
    ensures RulesFor(JumpOps(chain, services), c) == if c == chain then JumpRules(services) else []
  {
    if services != [] {
      var n := |services| - 1;
      JumpSegment(chain, services[..n], c);
      RulesForAppend(JumpOps(chain, services[..n]), [AddRule(chain, ServiceJumpExprs(services[n]))], c);
      RulesForOne(chain, ServiceJumpExprs(services[n]), c);
    }
  }

  ghost predicate DistinctChains(services: seq<ServiceChain>) {
    forall i, j :: 0 <= i < j < |services| ==> services[i].chainName != services[j].chainName
  }

  lemma {:induction false} DispatchNone(services: seq<ServiceChain>, c: string)
    requires forall s :: s in services ==> s.chainName != c
    ensures RulesFor(DispatchOps(services), c) == []
  {
    if services != [] {
      var n := |services| - 1;
      var last := services[n];
      assert last in services;
      DispatchNone(services[..n], c);
      RulesForAppend(DispatchOps(services[..n]), [AddRule(last.chainName, ServiceDispatchExprs(last))], c);
      RulesForOne(last.chainName, ServiceDispatchExprs(last), c);
    }
  }

  lemma {:induction false} DispatchOnce(services: seq<ServiceChain>, s: ServiceChain)
    requires DistinctChains(services) && s in services
    ensures RulesFor(DispatchOps(services), s.chainName) == [ServiceDispatchExprs(s)]
  {
    var n := |services| - 1;
    var last := services[n];
    RulesForAppend(DispatchOps(services[..n]), [AddRule(last.chainName, ServiceDispatchExprs(last))], s.chainName);
    RulesForOne(last.chainName, ServiceDispatchExprs(last), s.chainName);
    if s == last {
      DispatchNone(services[..n], s.chainName);
    } else {
      assert s in services[..n];
      DispatchOnce(services[..n], s);
    }
  }

  predicate DistinctBackends(backends: seq<BackendChain>) {
    forall i, j :: 0 <= i < j < |backends| ==> backends[i].chainName != backends[j].chainName
  }

  lemma {:induction false} BackendNone(backends: seq<BackendChain>, c: string)
    requires forall b :: b in backends ==> b.chainName != c
    ensures RulesFor(BackendRules(backends), c) == []
  {
    if backends != [] {
      var n := |backends| - 1;
      var last := backends[n];
      assert last in backends;
      BackendNone(backends[..n], c);
      RulesForAppend(BackendRules(backends[..n]), [AddRule(last.chainName, BackendDNATExprs(last))], c);
      RulesForOne(last.chainName, BackendDNATExprs(last), c);
    }
  }

  lemma {:induction false} BackendOnce(backends: seq<BackendChain>, b: BackendChain)
    requires DistinctBackends(backends) && b in backends
    ensures RulesFor(BackendRules(backends), b.chainName) == [BackendDNATExprs(b)]
  {
    var n := |backends| - 1;
    var last := backends[n];
    RulesForAppend(BackendRules(backends[..n]), [AddRule(last.chainName, BackendDNATExprs(last))], b.chainName);
    RulesForOne(last.chainName, BackendDNATExprs(last), b.chainName);
    if b == last {
      BackendNone(backends[..n], b.chainName);
    } else {
      assert b in backends[..n];
      BackendOnce(backends[..n], b);
    }
  }

  lemma BackendNameParts(s: ServiceChain, i: nat, s': ServiceChain, j: nat)
    requires |s.chainName| == |s'.chainName|
    requires BackendChainNameFor(s.chainName, i) == BackendChainNameFor(s'.chainName, j)
    ensures s.chainName == s'.chainName && i == j
  {
    var a, b := BackendChainNameFor(s.chainName, i), BackendChainNameFor(s'.chainName, j);
    assert a[..|s.chainName|] == s.chainName && b[..|s.chainName|] == s'.chainName;
    assert a[|s.chainName| + 3..] == Itoa(i) && b[|s.chainName| + 3..] == Itoa(j);
    ItoaInjective(i, j);
  }

  lemma BackendsAreDistinct(s: ServiceChain)
    requires WellNamedService(s)
    ensures DistinctBackends(s.backends)
  {
    forall i, j | 0 <= i < j < |s.backends|
      ensures s.backends[i].chainName != s.backends[j].chainName
    {
      if s.backends[i].chainName == s.backends[j].chainName {
        BackendNameParts(s, i, s, j);
      }
    }
  }

  lemma BackendsOfOthersDiffer(s: ServiceChain, s': ServiceChain, b: BackendChain, b': BackendChain)
    requires WellNamedService(s) && WellNamedService(s') && s.chainName != s'.chainName
    requires b in s.backends && b' in s'.backends
    ensures b.chainName != b'.chainName
  {
    var i :| 0 <= i < |s.backends| && s.backends[i] == b;
    var j :| 0 <= j < |s'.backends| && s'.backends[j] == b';
    if b.chainName == b'.chainName {
      BackendNameParts(s, i, s', j);
    }
  }

  lemma {:induction false} DNATNone(services: seq<ServiceChain>, c: string)
    requires forall s, b :: s in services && b in s.backends ==> b.chainName != c
    ensures RulesFor(DNATOps(services), c) == []
  {
    if services != [] {
      var n := |services| - 1;
      DNATNone(services[..n], c);
      RulesForAppend(DNATOps(services[..n]), BackendRules(services[n].backends), c);
      assert services[n] in services;
      BackendNone(services[n].backends, c);
    }
  }

  /** Only backends of `s` bear this name. */
  ghost predicate NameOfOnly(services: seq<ServiceChain>, s: ServiceChain, c: string) {
    forall s', b' :: s' in services && b' in s'.backends && b'.chainName == c ==> s' == s
  }

  lemma {:induction false} DNATOnce(services: seq<ServiceChain>, s: ServiceChain, b: BackendChain)
    requires DistinctChains(services) && s in services && b in s.backends && DistinctBackends(s.backends)
    requires NameOfOnly(services, s, b.chainName)
    ensures RulesFor(DNATOps(services), b.chainName) == [BackendDNATExprs(b)]
  {
    var n := |services| - 1;
    var last := services[n];
    RulesForAppend(DNATOps(services[..n]), BackendRules(last.backends), b.chainName);
    assert last in services;
    if s == last {
      BackendOnce(last.backends, b);
      assert s !in services[..n];
      DNATNone(services[..n], b.chainName);
    } else {
      assert s in services[..n];
      DNATOnce(services[..n], s, b);
      BackendNone(last.backends, b.chainName);
    }
  }

  lemma BackendNamesApart(services: seq<ServiceChain>, s: ServiceChain, b: BackendChain)
    requires WellNamed(services) && s in services && b in s.backends
    ensures NameOfOnly(services, s, b.chainName)
  {
    forall s', b' | s' in services && b' in s'.backends && s' != s
      ensures b'.chainName != b.chainName
    {
      BackendsOfOthersDiffer(s', s, b', b);
    }
  }

  lemma SegmentsOf(services: seq<ServiceChain>, c: string)
    ensures RulesFor(RuleOps(services), c) ==
            RulesFor(JumpOps(PREROUTING_CHAIN, services), c) + RulesFor(JumpOps(OUTPUT_CHAIN, services), c)
            + RulesFor(DispatchOps(services), c) + RulesFor(DNATOps(services), c)
  {
    var p, o := JumpOps(PREROUTING_CHAIN, services), JumpOps(OUTPUT_CHAIN, services);
    var d := DispatchOps(services);
    RulesForAppend(p + o + d, DNATOps(services), c);
    RulesForAppend(p + o, d, c);
    RulesForAppend(p, o, c);
  }

  ghost predicate ProgrammedService(table: Table, s: ServiceChain) {
    && s.chainName in table.chains && table.chains[s.chainName].rules == [ServiceDispatchExprs(s)]
    && (forall b :: b in s.backends ==> b.chainName in table.chains && table.chains[b.chainName].rules == [BackendDNATExprs(b)])
    && s.dispatchMapName in table.maps
    && table.maps[s.dispatchMapName] == ElementMap(DispatchElements(s.backends))
  }

  /** The finished table: jumps in both base chains, one dispatch rule per service, one DNAT rule per backend. */
  ghost predicate Programmed(table: Table, services: seq<ServiceChain>) {
    && PREROUTING_CHAIN in table.chains && table.chains[PREROUTING_CHAIN] == Chain(Some(Prerouting), JumpRules(services))
    && OUTPUT_CHAIN in table.chains && table.chains[OUTPUT_CHAIN] == Chain(Some(Output), JumpRules(services))
    && (forall c :: c in table.chains && c != PREROUTING_CHAIN && c != OUTPUT_CHAIN ==> table.chains[c].hook == None)
    && (forall s :: s in services ==> ProgrammedService(table, s))
  }

  /** The table has these two base chains and no other. */
  lemma BaseChainsNamed(table: Table, services: seq<ServiceChain>, name: string, hook: Hook)
    requires Programmed(table, services)
    ensures IsBaseChain(table, name, hook) <==> if hook.Prerouting? then name == "prerouting" else name == "output"
  {
    assert |PREROUTING_CHAIN| != |OUTPUT_CHAIN|;
  }

  lemma NothingNamedBase(services: seq<ServiceChain>, c: string)
    requires WellNamed(services) && (c == PREROUTING_CHAIN || c == OUTPUT_CHAIN)
    ensures forall s :: s in services ==> s.chainName != c
    ensures forall s, b :: s in services && b in s.backends ==> b.chainName != c
  {
    forall s | s in services
      ensures s.chainName != c && forall b :: b in s.backends ==> b.chainName != c
    {
      ServiceNamesAreNotBase(s);
    }
  }

  lemma BaseChainJumps(services: seq<ServiceChain>, c: string)
    requires c == PREROUTING_CHAIN || c == OUTPUT_CHAIN
    ensures RulesFor(JumpOps(PREROUTING_CHAIN, services), c) + RulesFor(JumpOps(OUTPUT_CHAIN, services), c) == JumpRules(services)
  {
    assert |PREROUTING_CHAIN| != |OUTPUT_CHAIN|;
    JumpSegment(PREROUTING_CHAIN, services, c);
    JumpSegment(OUTPUT_CHAIN, services, c);
  }

  lemma BaseChainRules(services: seq<ServiceChain>, c: string)
    requires WellNamed(services) && (c == PREROUTING_CHAIN || c == OUTPUT_CHAIN)
    ensures RulesFor(RuleOps(services), c) == JumpRules(services)
  {
    SegmentsOf(services, c);
    BaseChainJumps(services, c);
    NothingNamedBase(services, c);
    DispatchNone(services, c);
    DNATNone(services, c);
  }

  lemma ServiceRules(services: seq<ServiceChain>, s: ServiceChain)
    requires WellNamed(services) && s in services
    ensures RulesFor(RuleOps(services), s.chainName) == [ServiceDispatchExprs(s)]
  {
    var c := s.chainName;
    SegmentsOf(services, c);
    ServiceNamesAreNotBase(s);
    JumpSegment(PREROUTING_CHAIN, services, c);
    JumpSegment(OUTPUT_CHAIN, services, c);
    DispatchOnce(services, s);
    forall s', b | s' in services && b in s'.backends
      ensures b.chainName != c
    {
      ServiceNamesAreNotBase(s');
    }
    DNATNone(services, c);
  }

  lemma BackendChainRules(services: seq<ServiceChain>, s: ServiceChain, b: BackendChain)
    requires WellNamed(services) && s in services && b in s.backends
    ensures RulesFor(RuleOps(services), b.chainName) == [BackendDNATExprs(b)]
  {
    var c := b.chainName;
    SegmentsOf(services, c);
    ServiceNamesAreNotBase(s);
    JumpSegment(PREROUTING_CHAIN, services, c);
    JumpSegment(OUTPUT_CHAIN, services, c);
    assert forall s' :: s' in services ==> |s'.chainName| == 20;
    DispatchNone(services, c);
    BackendsAreDistinct(s);
    BackendNamesApart(services, s, b);
    DNATOnce(services, s, b);
  }

  lemma {:induction false} JumpOpsAllowed(table: Table, chain: string, services: seq<ServiceChain>)
    requires chain in table.chains && forall s :: s in services ==> DeclaredService(table, s)
    ensures RuleOpsOnly(table, JumpOps(chain, services))
  {
    if services != [] {
      JumpOpsAllowed(table, chain, services[..|services| - 1]);
      assert services[|services| - 1] in services;
    }
  }

  lemma {:induction false} DispatchOpsAllowed(table: Table, services: seq<ServiceChain>)
    requires forall s :: s in services ==> DeclaredService(table, s)
    ensures RuleOpsOnly(table, DispatchOps(services))
  {
    if services != [] {
      DispatchOpsAllowed(table, services[..|services| - 1]);
      assert services[|services| - 1] in services;
    }
  }

  lemma {:induction false} BackendRulesAllowed(table: Table, backends: seq<BackendChain>)
    requires forall b :: b in backends ==> b.chainName in table.chains
    ensures RuleOpsOnly(table, BackendRules(backends))
  {
    if backends != [] {
      BackendRulesAllowed(table, backends[..|backends| - 1]);
      assert backends[|backends| - 1] in backends;
    }
  }

  lemma {:induction false} DNATOpsAllowed(table: Table, services: seq<ServiceChain>)
    requires forall s :: s in services ==> DeclaredService(table, s)
    ensures RuleOpsOnly(table, DNATOps(services))
  {
    if services != [] {
      var last := services[|services| - 1];
      DNATOpsAllowed(table, services[..|services| - 1]);
      assert last in services;
      BackendRulesAllowed(table, last.backends);
    }
  }

  lemma RuleOpsAllowed(table: Table, services: seq<ServiceChain>)
    requires Declared(table, services)
    ensures RuleOpsOnly(table, RuleOps(services))
  {
    JumpOpsAllowed(table, PREROUTING_CHAIN, services);
    JumpOpsAllowed(table, OUTPUT_CHAIN, services);
    DispatchOpsAllowed(table, services);
    DNATOpsAllowed(table, services);
  }

  lemma RulesPhase(table: Table, services: seq<ServiceChain>)
    requires Declared(table, services) && WellNamed(services)
    ensures var r := ExecOps(table, RuleOps(services)); r.Ok? && Programmed(r.value, services)
  {
    RuleOpsAllowed(table, services);
    ExecRules(table, RuleOps(services));
    var r := ExecOps(table, RuleOps(services)).value;
    BaseChainRules(services, PREROUTING_CHAIN);
    BaseChainRules(services, OUTPUT_CHAIN);
    forall s | s in services
      ensures ProgrammedService(r, s)
    {
      assert DeclaredService(table, s);
      ServiceNamesAreNotBase(s);
      ServiceRules(services, s);
      forall b | b in s.backends
        ensures b.chainName in r.chains && r.chains[b.chainName].rules == [BackendDNATExprs(b)]
      {
        BackendChainRules(services, s, b);
      }
    }
  }

  /** The queued batch succeeds on a fresh table and leaves it programmed. */
  lemma BuildPrograms(spec: RulesetSpec)
    requires spec.baseChains == DEFAULT_BASE_CHAINS && WellNamed(spec.services) && Bounded(spec.services)
    ensures Build(spec).Ok? && Programmed(Build(spec).value, spec.services)
  {
    var base, declared := BaseOps(spec.baseChains), Declarations(spec.services);
    BaseChainsDeclared();
    DeclareAll(ExecOps(EMPTY_TABLE, base).value, spec.services);
    ExecAppend(EMPTY_TABLE, base, declared);
    RulesPhase(ExecOps(EMPTY_TABLE, base + declared).value, spec.services);
    ExecAppend(EMPTY_TABLE, base + declared, RuleOps(spec.services));
  }

  // ---- Running the table on a packet ------------------------------------------------

  lemma JumpRuleTail(table: Table, s: ServiceChain, packet: Packet, draw: nat -> nat, regs: Registers)
    ensures RunRule(table, ServiceJumpExprs(s)[2..], regs, packet, draw) ==
            if packet.l4proto == Some(IPPROTO_TCP) && |packet.transport| >= 4
               && packet.transport[2..4] == BigEndianUint16(s.servicePort)
            then Call(s.chainName) else NoVerdict
  {
    var r0 := ServiceJumpExprs(s);
    var r2, r3, r4 := r0[2..], r0[3..], r0[4..];
    var r5, r6 := r0[5..], r0[6..];
    assert r2[1..] == r3 && r3[1..] == r4 && r4[1..] == r5 && r5[1..] == r6;
    assert r2[0] == MetaL4Proto(1) && r3[0] == Cmp(1, [IPPROTO_TCP]) && r4[0] == Payload(1, TransportHeader, 2, 2);
    assert r5[0] == Cmp(1, BigEndianUint16(s.servicePort)) && r6[0] == Jump(s.chainName);
    if packet.l4proto.Some? {
      var regs3 := regs[1 := [packet.l4proto.value]];
      assert RunRule(table, r2, regs, packet, draw) == RunRule(table, r3, regs3, packet, draw);
      if packet.l4proto.value == IPPROTO_TCP {
        assert RunRule(table, r3, regs3, packet, draw) == RunRule(table, r4, regs3, packet, draw);
        if |packet.transport| >= 4 {
          var regs5 := regs3[1 := packet.transport[2..4]];
          assert RunRule(table, r4, regs3, packet, draw) == RunRule(table, r5, regs5, packet, draw);
          if packet.transport[2..4] == BigEndianUint16(s.servicePort) {
            assert RunRule(table, r5, regs5, packet, draw) == RunRule(table, r6, regs5, packet, draw);
          }
        }
      }
    }
  }

  lemma JumpRule(table: Table, s: ServiceChain, packet: Packet, draw: nat -> nat)
    ensures RunRule(table, ServiceJumpExprs(s), map[], packet, draw) ==
            if TCPTo(packet, s.clusterIP, s.servicePort) then Call(s.chainName) else NoVerdict
  {
    var r0 := ServiceJumpExprs(s);
    var r1, r2, r3 := r0[1..], r0[2..], r0[3..];
    var r4, r5, r6 := r0[4..], r0[5..], r0[6..];
    assert r0[1..] == r1 && r1[1..] == r2 && r2[1..] == r3 && r3[1..] == r4 && r4[1..] == r5 && r5[1..] == r6;
    assert r1[0] == Cmp(1, s.clusterIP) && r2[0] == MetaL4Proto(1) && r3[0] == Cmp(1, [IPPROTO_TCP]);
    assert r4[0] == Payload(1, TransportHeader, 2, 2) && r5[0] == Cmp(1, BigEndianUint16(s.servicePort));
    assert r6[0] == Jump(s.chainName);
    if |packet.network| >= 20 {
      var regs1: Registers := map[][1 := packet.network[16..20]];
      assert RunRule(table, r0, map[], packet, draw) == RunRule(table, r1, regs1, packet, draw);
      if packet.network[16..20] == s.clusterIP {
        assert RunRule(table, r1, regs1, packet, draw) == RunRule(table, r2, regs1, packet, draw);
        JumpRuleTail(table, s, packet, draw, regs1);
      }
    }
  }

  lemma DNATRule(table: Table, b: BackendChain, packet: Packet, draw: nat -> nat)
    ensures RunRule(table, BackendDNATExprs(b), map[], packet, draw) == Rewrite(b.ip, BigEndianUint16(b.port))
  {
    var r0 := BackendDNATExprs(b);
    var r1, r2 := r0[1..], r0[2..];
    assert r1[1..] == r2 && r1[0] == Immediate(2, BigEndianUint16(b.port)) && r2[0] == DestNAT(1, 2);
    var regs1: Registers := map[][1 := b.ip];
    var regs2 := regs1[2 := BigEndianUint16(b.port)];
    assert RunRule(table, r0, map[], packet, draw) == RunRule(table, r1, regs1, packet, draw);
    assert RunRule(table, r1, regs1, packet, draw) == RunRule(table, r2, regs2, packet, draw);
  }

  /** The verdict map is total on the draws, so a draw always selects the backend with that number. */
  lemma DispatchRule(table: Table, s: ServiceChain, packet: Packet, draw: nat -> nat)
    requires ProgrammedService(table, s) && 0 < |s.backends| < UINT32_RANGE && FairDraw(draw)
    ensures RunRule(table, ServiceDispatchExprs(s), map[], packet, draw) == Call(s.backends[draw(|s.backends|)].chainName)
  {
    var r0 := ServiceDispatchExprs(s);
    SmallModulo(|s.backends|);
    var k := draw(|s.backends|);
    SmallModulo(k);
    assert r0[1..] == [LookupVerdict(1, s.dispatchMapName)];
    var regs: Registers := map[][1 := NativeUint32(k)];
    assert RunRule(table, r0, map[], packet, draw) == RunRule(table, r0[1..], regs, packet, draw);
    ElementsDistinct(s.backends);
    ElementLookup(DispatchElements(s.backends), k);
  }

  function ServiceVerdict(s: ServiceChain, packet: Packet, draw: nat -> nat): Verdict
    requires draw(|s.backends|) < |s.backends|
  {
    var b := s.backends[draw(|s.backends|)];
    if TCPTo(packet, s.clusterIP, s.servicePort) then Redirect(b.ip, BigEndianUint16(b.port)) else Unchanged
  }

  lemma RunSingle(table: Table, rule: Rule, packet: Packet, draw: nat -> nat, depth: nat)
    ensures RunRules(table, [rule], packet, draw, depth) ==
            match RunRule(table, rule, map[], packet, draw)
            case NoVerdict => Unchanged
            case Rewrite(addr, port) => Redirect(addr, port)
            case Call(chain) => if depth == 0 || chain !in table.chains then Unchanged
                                else RunRules(table, table.chains[chain].rules, packet, draw, depth - 1)
  {
    assert [rule][1..] == [];
  }

  lemma RunService(table: Table, s: ServiceChain, packet: Packet, draw: nat -> nat)
    requires ProgrammedService(table, s) && 0 < |s.backends| < UINT32_RANGE && FairDraw(draw)
    ensures RunRules(table, [ServiceJumpExprs(s)], packet, draw, JUMP_STACK_SIZE) == ServiceVerdict(s, packet, draw)
  {
    JumpRule(table, s, packet, draw);
    RunSingle(table, ServiceJumpExprs(s), packet, draw, JUMP_STACK_SIZE);
    if TCPTo(packet, s.clusterIP, s.servicePort) {
      DispatchRule(table, s, packet, draw);
      RunSingle(table, ServiceDispatchExprs(s), packet, draw, JUMP_STACK_SIZE - 1);
      var b := s.backends[draw(|s.backends|)];
      assert b in s.backends;
      DNATRule(table, b, packet, draw);
      RunSingle(table, BackendDNATExprs(b), packet, draw, JUMP_STACK_SIZE - 2);
    }
  }

  lemma {:induction false} RunAppend(table: Table, a: seq<Rule>, b: seq<Rule>, packet: Packet, draw: nat -> nat, depth: nat)
    ensures RunRules(table, a + b, packet, draw, depth) ==
            var first := RunRules(table, a, packet, draw, depth);
            if first.Redirect? then first else RunRules(table, b, packet, draw, depth)
    decreases a
  {
    if a == [] {
      assert a + b == b;
    } else {
      assert (a + b)[0] == a[0] && (a + b)[1..] == a[1..] + b;
      RunAppend(table, a[1..], b, packet, draw, depth);
    }
  }

  function FirstService(services: seq<ServiceChain>, packet: Packet, draw: nat -> nat): Verdict
    requires forall s :: s in services ==> draw(|s.backends|) < |s.backends|
  {
    if services == [] then Unchanged
    else
      var n := |services| - 1;
      var earlier := FirstService(services[..n], packet, draw);
      if earlier.Redirect? then earlier else ServiceVerdict(services[n], packet, draw)
  }

  lemma {:induction false} RunJumps(table: Table, services: seq<ServiceChain>, packet: Packet, draw: nat -> nat)
    requires FairDraw(draw)
    requires forall s :: s in services ==> ProgrammedService(table, s) && 0 < |s.backends| < UINT32_RANGE
    ensures RunRules(table, JumpRules(services), packet, draw, JUMP_STACK_SIZE) == FirstService(services, packet, draw)
  {
    if services != [] {
      var n := |services| - 1;
      RunJumps(table, services[..n], packet, draw);
      RunAppend(table, JumpRules(services[..n]), [ServiceJumpExprs(services[n])], packet, draw, JUMP_STACK_SIZE);
      assert services[n] in services;
      RunService(table, services[n], packet, draw);
    }
  }

  // ---- The theorem ------------------------------------------------------------------

  lemma {:induction false} UsableAtMost(lib: Library, endpoints: seq<Endpoint>)
    ensures |UsableBackends(lib, endpoints)| <= |endpoints|
  {
    if endpoints != [] {
      UsableAtMost(lib, endpoints[..|endpoints| - 1]);
    }
  }

  lemma ServiceDirect(lib: Library, key: FrontendKey, frontend: Frontend, endpoints: seq<Endpoint>, packet: Packet, draw: nat -> nat)
    requires FairDraw(draw)
    ensures var s := ServiceFor(lib, key, frontend, endpoints);
            && (s.Some? ==> |s.value.backends| > 0 && draw(|s.value.backends|) < |s.value.backends|)
            && (s.Some? && Takes(lib, frontend, endpoints, packet)
                ==> ServiceVerdict(s.value, packet, draw) == Pick(UsableBackends(lib, endpoints), draw))
            && (s.Some? && !Takes(lib, frontend, endpoints, packet) ==> ServiceVerdict(s.value, packet, draw) == Unchanged)
            && (s.None? ==> !Takes(lib, frontend, endpoints, packet))
  {
  }

  lemma {:induction false} ServicesDrawable(
    lib: Library, frontends: FrontendMap, endpoints: EndpointsMap, keys: seq<FrontendKey>, draw: nat -> nat)
    requires forall key :: key in keys ==> key in frontends
    requires FairDraw(draw)
    ensures forall s :: s in ServicesFor(lib, frontends, endpoints, keys) ==> draw(|s.backends|) < |s.backends|
  {
    forall s | s in ServicesFor(lib, frontends, endpoints, keys)
      ensures draw(|s.backends|) < |s.backends|
    {
      ServicesCome(lib, frontends, endpoints, keys, s);
      assert |s.backends| > 0;
    }
  }

  lemma FirstServiceLast(before: seq<ServiceChain>, s: ServiceChain, packet: Packet, draw: nat -> nat)
    requires forall x :: x in before ==> draw(|x.backends|) < |x.backends|
    requires draw(|s.backends|) < |s.backends|
    ensures (forall x :: x in before + [s] ==> draw(|x.backends|) < |x.backends|)
    ensures FirstService(before + [s], packet, draw) ==
            if FirstService(before, packet, draw).Redirect? then FirstService(before, packet, draw) else ServiceVerdict(s, packet, draw)
  {
    assert (before + [s])[..|before|] == before;
  }

  lemma {:induction false} ServicesDirect(
    lib: Library, frontends: FrontendMap, endpoints: EndpointsMap, keys: seq<FrontendKey>, packet: Packet, draw: nat -> nat)
    requires forall key :: key in keys ==> key in frontends
    requires FairDraw(draw)
    ensures forall s :: s in ServicesFor(lib, frontends, endpoints, keys) ==> draw(|s.backends|) < |s.backends|
    ensures FirstService(ServicesFor(lib, frontends, endpoints, keys), packet, draw)
            == Direct(lib, frontends, endpoints, keys, packet, draw)
  {
    ServicesDrawable(lib, frontends, endpoints, keys, draw);
    if keys != [] {
      var n := |keys| - 1;
      ServicesDirect(lib, frontends, endpoints, keys[..n], packet, draw);
      ServiceDirect(lib, keys[n], frontends[keys[n]], Lookup(endpoints, keys[n]), packet, draw);
      assert keys[..n + 1] == keys;
      ServicesForGrows(lib, frontends, endpoints, keys, n);
      var before := ServicesFor(lib, frontends, endpoints, keys[..n]);
      var s := ServiceFor(lib, keys[n], frontends[keys[n]], Lookup(endpoints, keys[n]));
      if s.Some? {
        FirstServiceLast(before, s.value, packet, draw);
      } else {
        assert before + [] == before;
      }
    }
  }

  ghost predicate BoundedEndpoints(endpoints: EndpointsMap) {
    forall key :: key in endpoints ==> |endpoints[key]| < UINT32_RANGE
  }

  ghost function ServiceKeys(frontends: FrontendMap): set<string> {
    set key | key in frontends :: key.String()
  }

  lemma CompiledIsBounded(
    lib: Library, frontends: FrontendMap, endpoints: EndpointsMap, keys: seq<FrontendKey>, s: ServiceChain)
    requires forall key :: key in keys ==> key in frontends
    requires BoundedEndpoints(endpoints) && s in ServicesFor(lib, frontends, endpoints, keys)
    ensures |s.backends| < UINT32_RANGE
  {
    ServicesCome(lib, frontends, endpoints, keys, s);
    var key :| key in keys && ServiceFor(lib, key, frontends[key], Lookup(endpoints, key)) == Some(s);
    UsableAtMost(lib, Lookup(endpoints, key));
  }

  lemma KeyOrderIsDistinct(frontends: FrontendMap)
    ensures forall i, j :: 0 <= i < j < |KeyOrder(frontends)| ==> KeyOrder(frontends)[i] != KeyOrder(frontends)[j]
  {
    SortedKeysEnumerates(FRONTEND_KEY_STRING, frontends.Keys);
    DistinctFromBag(KeyOrder(frontends), frontends.Keys);
  }

  lemma CompiledIsWellNamed(lib: Library, frontends: FrontendMap, endpoints: EndpointsMap)
    requires HashSeparates(lib, ServiceKeys(frontends)) && BoundedEndpoints(endpoints)
    ensures var services := ServicesFor(lib, frontends, endpoints, KeyOrder(frontends));
            WellNamed(services) && Bounded(services)
  {
    var keys := KeyOrder(frontends);
    KeyOrderIsDistinct(frontends);
    CompiledNames(lib, frontends, endpoints, keys, ServiceKeys(frontends));
    forall s | s in ServicesFor(lib, frontends, endpoints, keys)
      ensures |s.backends| < UINT32_RANGE
    {
      CompiledIsBounded(lib, frontends, endpoints, keys, s);
    }
  }

  lemma HookRuns(table: Table, services: seq<ServiceChain>, hook: Hook, packet: Packet, draw: nat -> nat)
    requires Programmed(table, services)
    ensures RunHook(table, hook, packet, draw) == RunRules(table, JumpRules(services), packet, draw, JUMP_STACK_SIZE)
  {
    var name := if hook.Prerouting? then PREROUTING_CHAIN else OUTPUT_CHAIN;
    assert IsBaseChain(table, name, hook);
    assert forall c :: IsBaseChain(table, c, hook) ==> c == name;
  }

  /** For all maps, packets, hooks and draws, the compiled table does exactly what the maps mean. */
  lemma CompilerCorrect(
    lib: Library, tableName: string, frontends: FrontendMap, endpoints: EndpointsMap,
    hook: Hook, packet: Packet, draw: nat -> nat)
    requires HashSeparates(lib, ServiceKeys(frontends)) && BoundedEndpoints(endpoints) && FairDraw(draw)
    ensures var spec := Compile(lib, tableName, frontends, endpoints);
            && Build(spec).Ok?
            && RunHook(Build(spec).value, hook, packet, draw)
               == Direct(lib, frontends, endpoints, KeyOrder(frontends), packet, draw)
  {
    var spec := Compile(lib, tableName, frontends, endpoints);
    CompiledIsWellNamed(lib, frontends, endpoints);
    BuildPrograms(spec);
    var table := Build(spec).value;
    HookRuns(table, spec.services, hook, packet, draw);
    RunJumps(table, spec.services, packet, draw);
    ServicesDirect(lib, frontends, endpoints, KeyOrder(frontends), packet, draw);
  }

  // ---- Draws --------------------------------------------------------------------------

  lemma SamePort(p: nat, q: nat)
    requires p <= 65535 && q <= 65535 && BigEndianUint16(p) == BigEndianUint16(q)
    ensures p == q
  {
    assert BigEndianUint16(p)[0] == BigEndianUint16(q)[0] && BigEndianUint16(p)[1] == BigEndianUint16(q)[1];
  }

  /** A random source that yields `r` wherever it can. */
  function DrawOf(r: nat): nat -> nat {
    (m: nat) => if r < m then r else 0
  }

  lemma DrawOfIsFair(r: nat)
    ensures FairDraw(DrawOf(r))
  {
  }

  /** The draws for which running the table sends the packet to this address and port. */
  ghost function DrawsTo(table: Table, hook: Hook, packet: Packet, modulus: nat, ip: Addr, port: nat): set<nat> {
    set r: nat | r < modulus && RunHook(table, hook, packet, DrawOf(r)) == Redirect(ip, BigEndianUint16(port))
  }

  function IndicesOf(backends: seq<(Addr, nat)>, b: (Addr, nat)): set<nat> {
    set r: nat | r < |backends| && backends[r] == b
  }

  lemma {:induction false} IndicesCount(backends: seq<(Addr, nat)>, b: (Addr, nat))
    ensures |IndicesOf(backends, b)| == multiset(backends)[b]
  {
    if backends == [] {
      assert IndicesOf(backends, b) == {};
    } else {
      var n := |backends| - 1;
      IndicesCount(backends[..n], b);
      assert backends == backends[..n] + [backends[n]];
      if backends[n] == b {
        assert IndicesOf(backends, b) == IndicesOf(backends[..n], b) + {n};
      } else {
        assert IndicesOf(backends, b) == IndicesOf(backends[..n], b);
      }
    }
  }

  /** The endpoint is programmed as this address and port. */
  predicate ProgrammedAs(lib: Library, e: Endpoint, ip: Addr, port: nat) {
    lib.parseIPv4(e.ip) == Some(ip) && ToUint16Port(e.port) == Some(port)
  }

  function IsProgrammedAs(lib: Library, ip: Addr, port: nat): Endpoint -> bool {
    e => ProgrammedAs(lib, e, ip, port)
  }

  lemma {:induction false} BackendsCount(lib: Library, endpoints: seq<Endpoint>, ip: Addr, port: nat)
    ensures multiset(UsableBackends(lib, endpoints))[(ip, port)] == CountIf(IsProgrammedAs(lib, ip, port), endpoints)
    ensures forall b :: b in UsableBackends(lib, endpoints) ==> 0 < b.1 <= 65535
  {
    if endpoints != [] {
      BackendsCount(lib, endpoints[..|endpoints| - 1], ip, port);
    }
  }

  /** Frontend `i` in key order is the first that takes the packet. */
  ghost predicate FirstTaker(lib: Library, frontends: FrontendMap, endpoints: EndpointsMap, packet: Packet, i: nat)
    requires i < |KeyOrder(frontends)|
  {
    var keys := KeyOrder(frontends);
    && Takes(lib, frontends[keys[i]], Lookup(endpoints, keys[i]), packet)
    && forall j :: 0 <= j < i ==> !Takes(lib, frontends[keys[j]], Lookup(endpoints, keys[j]), packet)
  }

  /** With draw `r`, the first taker sends the packet to its backend number `r`. */
  lemma DrawSelects(
    lib: Library, tableName: string, frontends: FrontendMap, endpoints: EndpointsMap, hook: Hook, packet: Packet, i: nat, r: nat)
    requires HashSeparates(lib, ServiceKeys(frontends)) && BoundedEndpoints(endpoints)
    requires i < |KeyOrder(frontends)| && FirstTaker(lib, frontends, endpoints, packet, i)
    requires r < |UsableBackends(lib, Lookup(endpoints, KeyOrder(frontends)[i]))|
    ensures var b := UsableBackends(lib, Lookup(endpoints, KeyOrder(frontends)[i]))[r];
            var built := Build(Compile(lib, tableName, frontends, endpoints));
            built.Ok? && RunHook(built.value, hook, packet, DrawOf(r)) == Redirect(b.0, BigEndianUint16(b.1))
  {
    DrawOfIsFair(r);
    CompilerCorrect(lib, tableName, frontends, endpoints, hook, packet, DrawOf(r));
    DirectMeaning(lib, frontends, endpoints, KeyOrder(frontends), packet, DrawOf(r));
  }

  lemma SameRedirect(b: (Addr, nat), ip: Addr, port: nat)
    requires b.1 <= 65535 && port <= 65535
    ensures Redirect(b.0, BigEndianUint16(b.1)) == Redirect(ip, BigEndianUint16(port)) <==> b == (ip, port)
  {
    if BigEndianUint16(b.1) == BigEndianUint16(port) {
      SamePort(b.1, port);
    }
  }

  /** If draw `r` sends the packet to backend number `r`, the draws for a backend are its indices. */
  lemma DrawsAreIndices(table: Table, hook: Hook, packet: Packet, backends: seq<(Addr, nat)>, ip: Addr, port: nat)
    requires port <= 65535 && forall b :: b in backends ==> b.1 <= 65535
    requires forall r: nat :: r < |backends| ==>
               RunHook(table, hook, packet, DrawOf(r)) == Redirect(backends[r].0, BigEndianUint16(backends[r].1))
    ensures DrawsTo(table, hook, packet, |backends|, ip, port) == IndicesOf(backends, (ip, port))
  {
    forall r: nat | r < |backends|
      ensures r in DrawsTo(table, hook, packet, |backends|, ip, port) <==> r in IndicesOf(backends, (ip, port))
    {
      assert backends[r] in backends;
      SameRedirect(backends[r], ip, port);
    }
  }

  /**
   Of the draws below the modulus, exactly as many send the packet to an address and port as the frontend that
   takes it has endpoints programmed so.
   */
  lemma DrawsMatchMultiplicity(
    lib: Library, tableName: string, frontends: FrontendMap, endpoints: EndpointsMap, hook: Hook, packet: Packet, i: nat,
    ip: Addr, port: nat)
    requires HashSeparates(lib, ServiceKeys(frontends)) && BoundedEndpoints(endpoints)
    requires i < |KeyOrder(frontends)| && FirstTaker(lib, frontends, endpoints, packet, i) && port <= 65535
    ensures var taken := Lookup(endpoints, KeyOrder(frontends)[i]);
            var built := Build(Compile(lib, tableName, frontends, endpoints));
            && built.Ok?
            && |DrawsTo(built.value, hook, packet, |UsableBackends(lib, taken)|, ip, port)|
               == multiset(UsableBackends(lib, taken))[(ip, port)] == CountIf(IsProgrammedAs(lib, ip, port), taken)
  {
    var taken := Lookup(endpoints, KeyOrder(frontends)[i]);
    var backends := UsableBackends(lib, taken);
    DrawSelects(lib, tableName, frontends, endpoints, hook, packet, i, 0);
    var table := Build(Compile(lib, tableName, frontends, endpoints)).value;
    BackendsCount(lib, taken, ip, port);
    IndicesCount(backends, (ip, port));
    forall r: nat | r < |backends|
      ensures RunHook(table, hook, packet, DrawOf(r)) == Redirect(backends[r].0, BigEndianUint16(backends[r].1))
    {
      DrawSelects(lib, tableName, frontends, endpoints, hook, packet, i, r);
    }
    DrawsAreIndices(table, hook, packet, backends, ip, port);
  }
}
