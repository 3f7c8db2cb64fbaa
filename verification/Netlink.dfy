/** Queueing and applying a ruleset as one netlink batch (internal/agent/nftables/netlink.go). */
module Netlink {
  import opened Wrappers
  import opened Addresses
  import opened Nftables
  import opened Ruleset

  const IPPROTO_TCP: Byte := 6
  const UINT32_RANGE := 0x1_0000_0000

  function ServiceJumpExprs(service: ServiceChain): Rule {
    [ Payload(1, NetworkHeader, 16, 4),
      Cmp(1, service.clusterIP),
      MetaL4Proto(1),
      Cmp(1, [IPPROTO_TCP]),
      Payload(1, TransportHeader, 2, 2),
      Cmp(1, BigEndianUint16(service.servicePort)),
      Jump(service.chainName) ]
  }

  function ServiceDispatchExprs(service: ServiceChain): Rule {
    [Numgen(1, |service.backends| % UINT32_RANGE), LookupVerdict(1, service.dispatchMapName)]
  }

  function BackendDNATExprs(backend: BackendChain): Rule {
    [Immediate(1, backend.ip), Immediate(2, BigEndianUint16(backend.port)), DestNAT(1, 2)]
  }

  function DispatchElements(backends: seq<BackendChain>): (r: seq<(Bytes, string)>)
    ensures |r| == |backends|
    ensures forall i :: 0 <= i < |r| ==> r[i] == (NativeUint32(i % UINT32_RANGE), backends[i].chainName)
  {
    seq(|backends|, i requires 0 <= i < |backends| => (NativeUint32(i % UINT32_RANGE), backends[i].chainName))
  }

  // ---- The queued operations, phase by phase -----------------------------------

  function BaseOps(baseChains: seq<BaseChain>): seq<Op> {
    if baseChains == [] then []
    else
      var n := |baseChains| - 1;
      BaseOps(baseChains[..n]) + [AddChain(baseChains[n].name, Some(baseChains[n].hook))]
  }

  function BackendAdds(backends: seq<BackendChain>): seq<Op> {
    if backends == [] then []
    else var n := |backends| - 1; BackendAdds(backends[..n]) + [AddChain(backends[n].chainName, None)]
  }

  function DeclareService(service: ServiceChain): seq<Op> {
    [AddChain(service.chainName, None)] + BackendAdds(service.backends)
      + [AddMap(service.dispatchMapName, DispatchElements(service.backends))]
  }

  function Declarations(services: seq<ServiceChain>): seq<Op> {
    if services == [] then []
    else var n := |services| - 1; Declarations(services[..n]) + DeclareService(services[n])
  }

  function JumpOps(chain: string, services: seq<ServiceChain>): seq<Op> {
    if services == [] then []
    else var n := |services| - 1; JumpOps(chain, services[..n]) + [AddRule(chain, ServiceJumpExprs(services[n]))]
  }

  function DispatchOps(services: seq<ServiceChain>): seq<Op> {
    if services == [] then []
    else
      var n := |services| - 1;
      DispatchOps(services[..n]) + [AddRule(services[n].chainName, ServiceDispatchExprs(services[n]))]
  }

  function BackendRules(backends: seq<BackendChain>): seq<Op> {
    if backends == [] then []
    else
      var n := |backends| - 1;
      BackendRules(backends[..n]) + [AddRule(backends[n].chainName, BackendDNATExprs(backends[n]))]
  }

  function DNATOps(services: seq<ServiceChain>): seq<Op> {
    if services == [] then []
    else var n := |services| - 1; DNATOps(services[..n]) + BackendRules(services[n].backends)
  }

  function RuleOps(services: seq<ServiceChain>): seq<Op> {
    JumpOps(PREROUTING_CHAIN, services) + JumpOps(OUTPUT_CHAIN, services) + DispatchOps(services) + DNATOps(services)
  }

  function Ops(spec: RulesetSpec): seq<Op> {
    BaseOps(spec.baseChains) + Declarations(spec.services) + RuleOps(spec.services)
  }

  function OnEach(table: string, ops: seq<Op>): (r: seq<Command>)
    ensures |r| == |ops| && forall i :: 0 <= i < |r| ==> r[i] == OnTable(table, ops[i])
  {
    seq(|ops|, i requires 0 <= i < |ops| => OnTable(table, ops[i]))
  }

  function Batch(spec: RulesetSpec, deleteTable: bool): seq<Command> {
    (if deleteTable then [DelTable(spec.tableName)] else [])
      + [AddTable(spec.tableName)] + OnEach(spec.tableName, Ops(spec))
  }

  /** The table a ruleset builds from nothing. */
  function Build(spec: RulesetSpec): Result<Table> {
    ExecOps(EMPTY_TABLE, Ops(spec))
  }

  class Conn {
    var batch: seq<Command>

    constructor ()
      ensures batch == []
    {
      batch := [];
    }

    method Queue(command: Command)
      modifies this
      ensures batch == old(batch) + [command]
    {
      batch := batch + [command];
    }

    method QueueOp(table: string, op: Op)
      modifies this
      ensures batch == old(batch) + [OnTable(table, op)]
    {
      batch := batch + [OnTable(table, op)];
    }
  }

  lemma OnEachAppend(table: string, a: seq<Op>, b: seq<Op>)
    ensures OnEach(table, a + b) == OnEach(table, a) + OnEach(table, b)
  {
  }

  lemma Associative<T>(a: seq<T>, b: seq<T>, c: seq<T>)
    ensures a + (b + c) == a + b + c
  {
  }

  method QueueBaseChains(conn: Conn, t: string, baseChains: seq<BaseChain>)
    modifies conn
    ensures conn.batch == old(conn.batch) + OnEach(t, BaseOps(baseChains))
  {
    ghost var start := conn.batch;
    for i := 0 to |baseChains|
      invariant conn.batch == start + OnEach(t, BaseOps(baseChains[..i]))
    {
      assert baseChains[..i + 1][..i] == baseChains[..i];
      conn.QueueOp(t, AddChain(baseChains[i].name, Some(baseChains[i].hook)));
    }
    assert baseChains[..|baseChains|] == baseChains;
  }

  /** `serviceDispatchMapElements`. */
  method ServiceDispatchMapElements(backends: seq<BackendChain>) returns (elements: seq<(Bytes, string)>)
    ensures elements == DispatchElements(backends)
  {
    elements := [];
    for i := 0 to |backends|
      invariant elements == DispatchElements(backends[..i])
    {
      elements := elements + [(NativeUint32(i % UINT32_RANGE), backends[i].chainName)];
    }
    assert backends[..|backends|] == backends;
  }

  method QueueService(conn: Conn, t: string, service: ServiceChain)
    modifies conn
    ensures conn.batch == old(conn.batch) + OnEach(t, DeclareService(service))
  {
    ghost var start := conn.batch;
    conn.QueueOp(t, AddChain(service.chainName, None));
    for i := 0 to |service.backends|
      invariant conn.batch == start + OnEach(t, [AddChain(service.chainName, None)] + BackendAdds(service.backends[..i]))
    {
      assert service.backends[..i + 1][..i] == service.backends[..i];
      conn.QueueOp(t, AddChain(service.backends[i].chainName, None));
    }
    assert service.backends[..|service.backends|] == service.backends;
    var elements := ServiceDispatchMapElements(service.backends);
    conn.QueueOp(t, AddMap(service.dispatchMapName, elements));
  }

  method QueueServices(conn: Conn, t: string, services: seq<ServiceChain>)
    modifies conn
    ensures conn.batch == old(conn.batch) + OnEach(t, Declarations(services))
  {
    ghost var start := conn.batch;
    for i := 0 to |services|
      invariant conn.batch == start + OnEach(t, Declarations(services[..i]))
    {
      assert services[..i + 1][..i] == services[..i];
      QueueService(conn, t, services[i]);
      OnEachAppend(t, Declarations(services[..i]), DeclareService(services[i]));
      Associative(start, OnEach(t, Declarations(services[..i])), OnEach(t, DeclareService(services[i])));
    }
    assert services[..|services|] == services;
  }

  method QueueDispatch(conn: Conn, t: string, services: seq<ServiceChain>)
    modifies conn
    ensures conn.batch == old(conn.batch) + OnEach(t, DispatchOps(services))
  {
    ghost var start := conn.batch;
    for i := 0 to |services|
      invariant conn.batch == start + OnEach(t, DispatchOps(services[..i]))
    {
      assert services[..i + 1][..i] == services[..i];
      conn.QueueOp(t, AddRule(services[i].chainName, ServiceDispatchExprs(services[i])));
    }
    assert services[..|services|] == services;
  }

  method QueueBackendRules(conn: Conn, t: string, backends: seq<BackendChain>)
    modifies conn
    ensures conn.batch == old(conn.batch) + OnEach(t, BackendRules(backends))
  {
    ghost var start := conn.batch;
    for i := 0 to |backends|
      invariant conn.batch == start + OnEach(t, BackendRules(backends[..i]))
    {
      assert backends[..i + 1][..i] == backends[..i];
      conn.QueueOp(t, AddRule(backends[i].chainName, BackendDNATExprs(backends[i])));
    }
    assert backends[..|backends|] == backends;
  }

  method QueueDNAT(conn: Conn, t: string, services: seq<ServiceChain>)
    modifies conn
    ensures conn.batch == old(conn.batch) + OnEach(t, DNATOps(services))
  {
    ghost var start := conn.batch;
    for i := 0 to |services|
      invariant conn.batch == start + OnEach(t, DNATOps(services[..i]))
    {
      assert services[..i + 1][..i] == services[..i];
      QueueBackendRules(conn, t, services[i].backends);
      OnEachAppend(t, DNATOps(services[..i]), BackendRules(services[i].backends));
      Associative(start, OnEach(t, DNATOps(services[..i])), OnEach(t, BackendRules(services[i].backends)));
    }
    assert services[..|services|] == services;
  }

  method QueueJumps(conn: Conn, t: string, chain: string, services: seq<ServiceChain>)
    modifies conn
    ensures conn.batch == old(conn.batch) + OnEach(t, JumpOps(chain, services))
  {
    ghost var start := conn.batch;
    for i := 0 to |services|
      invariant conn.batch == start + OnEach(t, JumpOps(chain, services[..i]))
    {
      assert services[..i + 1][..i] == services[..i];
      conn.QueueOp(t, AddRule(chain, ServiceJumpExprs(services[i])));
    }
    assert services[..|services|] == services;
  }

  method QueueRules(conn: Conn, t: string, services: seq<ServiceChain>)
    modifies conn
    ensures conn.batch == old(conn.batch) + OnEach(t, RuleOps(services))
  {
    ghost var start := conn.batch;
    ghost var a, b := JumpOps(PREROUTING_CHAIN, services), JumpOps(OUTPUT_CHAIN, services);
    ghost var c, d := DispatchOps(services), DNATOps(services);
    QueueJumps(conn, t, PREROUTING_CHAIN, services);
    QueueJumps(conn, t, OUTPUT_CHAIN, services);
    QueueDispatch(conn, t, services);
    QueueDNAT(conn, t, services);
    Associative(start, OnEach(t, a), OnEach(t, b));
    OnEachAppend(t, a, b);
    Associative(start, OnEach(t, a + b), OnEach(t, c));
    OnEachAppend(t, a + b, c);
    Associative(start, OnEach(t, a + b + c), OnEach(t, d));
    OnEachAppend(t, a + b + c, d);
  }

  method QueueOps(conn: Conn, spec: RulesetSpec)
    modifies conn
    ensures conn.batch == old(conn.batch) + OnEach(spec.tableName, Ops(spec))
  {
    var t, services := spec.tableName, spec.services;
    ghost var start := conn.batch;
    ghost var base, declared, rules := BaseOps(spec.baseChains), Declarations(services), RuleOps(services);
    QueueBaseChains(conn, t, spec.baseChains);
    QueueServices(conn, t, services);
    QueueRules(conn, t, services);
    Associative(start, OnEach(t, base), OnEach(t, declared));
    OnEachAppend(t, base, declared);
    Associative(start, OnEach(t, base + declared), OnEach(t, rules));
    OnEachAppend(t, base + declared, rules);
  }

  /** `queueRuleset`: chains and maps first, then the rules that name them. */
  method QueueRuleset(conn: Conn, spec: RulesetSpec, deleteTable: bool)
    modifies conn
    ensures conn.batch == old(conn.batch) + Batch(spec, deleteTable)
  {
    ghost var start := conn.batch;
    if deleteTable {
      conn.Queue(DelTable(spec.tableName));
    }
    conn.Queue(AddTable(spec.tableName));
    ghost var header := (if deleteTable then [DelTable(spec.tableName)] else []) + [AddTable(spec.tableName)];
    assert conn.batch == start + header;
    QueueOps(conn, spec);
    Associative(start, header, OnEach(spec.tableName, Ops(spec)));
  }

  // ---- Applying ---------------------------------------------------------------

  lemma {:induction false} ExecOnEach(kernel: Kernel, t: string, ops: seq<Op>)
    requires t in kernel
    ensures ExecAll(kernel, OnEach(t, ops)) ==
            match ExecOps(kernel[t], ops) case Ok(table) => Ok(kernel[t := table]) case Err(e) => Err(e)
  {
    if ops == [] {
      assert kernel[t := kernel[t]] == kernel;
    } else {
      assert OnEach(t, ops)[1..] == OnEach(t, ops[1..]);
      match ExecOp(kernel[t], ops[0]) {
        case Ok(table) =>
          ExecOnEach(kernel[t := table], t, ops[1..]);
          if ExecOps(table, ops[1..]).Ok? {
            var final := ExecOps(table, ops[1..]).value;
            assert kernel[t := table][t := final] == kernel[t := final];
          }
        case Err(e) =>
      }
    }
  }

  /** A batch that deletes the table fails with ENOENT exactly when the table is absent; otherwise it replaces it. */
  lemma BatchReplaces(kernel: Kernel, spec: RulesetSpec, deleteTable: bool)
    requires deleteTable || spec.tableName !in kernel
    ensures ExecAll(kernel, Batch(spec, deleteTable)) ==
            if deleteTable && spec.tableName !in kernel then Err(ENOENT)
            else match Build(spec) case Ok(table) => Ok(kernel[spec.tableName := table]) case Err(e) => Err(e)
  {
    var t := spec.tableName;
    var body := [AddTable(t)] + OnEach(t, Ops(spec));
    assert body[1..] == OnEach(t, Ops(spec));
    if deleteTable {
      assert Batch(spec, true) == [DelTable(t)] + body;
      assert Batch(spec, true)[1..] == body;
    } else {
      assert Batch(spec, false) == body;
    }
    if deleteTable && t !in kernel {
    } else {
      var base := if deleteTable then kernel - {t} else kernel;
      ExecOnEach(base[t := EMPTY_TABLE], t, Ops(spec));
      if Build(spec).Ok? {
        assert base[t := EMPTY_TABLE][t := Build(spec).value] == kernel[t := Build(spec).value];
      }
    }
  }

  datatype ApplyError = Cancelled | ConnFailed | FlushFailed(errno: Errno)

  /** The applier and the kernel it writes to. `cancelled(i)` and `connFails(i)` say what the i-th check or dial sees. */
  class NetlinkApplier {
    var kernel: Kernel

    constructor (kernel: Kernel)
      ensures this.kernel == kernel
    {
      this.kernel := kernel;
    }

    /** One attempt: queue everything, flush once; an error leaves the kernel as it was. */
    method ApplyOnce(spec: RulesetSpec, deleteTable: bool, cancelled: nat -> bool, connFails: bool, check: nat)
      returns (err: Option<ApplyError>)
      modifies this
      ensures err.Some? ==> kernel == old(kernel)
      ensures deleteTable || spec.tableName !in old(kernel) ==>
                if cancelled(check) || cancelled(check + 1) || connFails then err.Some? && !err.value.FlushFailed?
                else if deleteTable && spec.tableName !in old(kernel) then err == Some(FlushFailed(ENOENT))
                else match Build(spec)
                  case Ok(table) => err.None? && kernel == old(kernel)[spec.tableName := table]
                  case Err(e) => err == Some(FlushFailed(e))
    {
      if cancelled(check) {
        return Some(Cancelled);
      }
      if connFails {
        return Some(ConnFailed);
      }
      var conn := new Conn();
      QueueRuleset(conn, spec, deleteTable);
      assert conn.batch == Batch(spec, deleteTable);
      if cancelled(check + 1) {
        return Some(Cancelled);
      }
      if deleteTable || spec.tableName !in kernel {
        BatchReplaces(kernel, spec, deleteTable);
      }
      match ExecAll(kernel, conn.batch) {
        case Ok(k) =>
          kernel := k;
          return None;
        case Err(e) =>
          return Some(FlushFailed(e));
      }
    }

    /** `Apply`: whatever the table held before, success leaves exactly the built table, and no other table changes. */
    method Apply(spec: RulesetSpec, cancelled: nat -> bool, connFails: nat -> bool) returns (err: Option<ApplyError>)
      modifies this
      ensures err.Some? ==> kernel == old(kernel)
      ensures Build(spec).Ok? && err.None? ==> kernel == old(kernel)[spec.tableName := Build(spec).value]
      ensures Build(spec).Ok? && (forall i :: !cancelled(i) && !connFails(i)) ==> err.None?
    {
      if cancelled(0) {
        return Some(Cancelled);
      }
      err := ApplyOnce(spec, true, cancelled, connFails(0), 1);
      if err.None? || err.value != FlushFailed(ENOENT) {
        return err;
      }
      err := ApplyOnce(spec, false, cancelled, connFails(1), 3);
    }
  }
}
