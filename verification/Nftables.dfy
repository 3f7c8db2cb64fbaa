/** A small model of nftables: tables changed by atomic netlink batches, and rules run on packets. */
module Nftables {
  import opened Wrappers
  import opened Addresses

  type Bytes = seq<Byte>

  // ---- Tables -----------------------------------------------------------------

  datatype Hook = Prerouting | Output
  datatype HeaderBase = NetworkHeader | TransportHeader

  datatype Expr =
    | Payload(dest: nat, base: HeaderBase, offset: nat, len: nat)
    | Cmp(source: nat, data: Bytes)
    | MetaL4Proto(dest: nat)
    | Jump(chain: string)
    | Numgen(dest: nat, modulus: nat)
    | LookupVerdict(source: nat, mapName: string)
    | Immediate(dest: nat, data: Bytes)
    | DestNAT(addrReg: nat, portReg: nat)

  type Rule = seq<Expr>

  /** A chain; a base chain has a hook. */
  datatype Chain = Chain(hook: Option<Hook>, rules: seq<Rule>)

  /** `maps` holds verdict maps; every verdict here is a jump to the named chain. */
  datatype Table = Table(chains: map<string, Chain>, maps: map<string, map<Bytes, string>>)

  type Kernel = map<string, Table>

  // ---- Batches ----------------------------------------------------------------

  datatype Op =
    | AddChain(name: string, hook: Option<Hook>)
    | AddMap(name: string, elements: seq<(Bytes, string)>)
    | AddRule(chain: string, rule: Rule)

  datatype Command = DelTable(table: string) | AddTable(table: string) | OnTable(table: string, op: Op)

  datatype Errno = ENOENT | EEXIST
  datatype Result<T> = Ok(value: T) | Err(errno: Errno)

  predicate ElementsFresh(elements: seq<(Bytes, string)>) {
    forall i, j :: 0 <= i < j < |elements| ==> elements[i].0 != elements[j].0
  }

  function ElementMap(elements: seq<(Bytes, string)>): map<Bytes, string> {
    if elements == [] then map[]
    else
      var n := |elements| - 1;
      ElementMap(elements[..n])[elements[n].0 := elements[n].1]
  }

  /** A rule may only name chains and maps that exist. */
  predicate References(table: Table, rule: Rule) {
    forall e :: e in rule ==>
      && (e.Jump? ==> e.chain in table.chains)
      && (e.LookupVerdict? ==> e.mapName in table.maps)
  }

  function ExecOp(table: Table, op: Op): Result<Table> {
    match op
    case AddChain(name, hook) =>
      if name !in table.chains then Ok(table.(chains := table.chains[name := Chain(hook, [])]))
      else if table.chains[name].hook == hook then Ok(table)
      else Err(EEXIST)
    case AddMap(name, elements) =>
      if name in table.maps || !ElementsFresh(elements) then Err(EEXIST)
      else if exists i :: 0 <= i < |elements| && elements[i].1 !in table.chains then Err(ENOENT)
      else Ok(table.(maps := table.maps[name := ElementMap(elements)]))
    case AddRule(chain, rule) =>
      if chain !in table.chains || !References(table, rule) then Err(ENOENT)
      else
        var c := table.chains[chain];
        Ok(table.(chains := table.chains[chain := c.(rules := c.rules + [rule])]))
  }

  const EMPTY_TABLE := Table(map[], map[])

  function Exec(kernel: Kernel, command: Command): Result<Kernel> {
    match command
    case DelTable(t) => if t in kernel then Ok(kernel - {t}) else Err(ENOENT)
    case AddTable(t) => Ok(if t in kernel then kernel else kernel[t := EMPTY_TABLE])
    case OnTable(t, op) =>
      if t !in kernel then Err(ENOENT)
      else match ExecOp(kernel[t], op)
        case Ok(table) => Ok(kernel[t := table])
        case Err(e) => Err(e)
  }

  /** A batch runs in order and stops at the first error; the caller then keeps the old kernel state. */
  function ExecAll(kernel: Kernel, batch: seq<Command>): Result<Kernel>
    decreases batch
  {
    if batch == [] then Ok(kernel)
    else match Exec(kernel, batch[0])
      case Ok(k) => ExecAll(k, batch[1..])
      case Err(e) => Err(e)
  }

  function ExecOps(table: Table, ops: seq<Op>): Result<Table>
    decreases ops
  {
    if ops == [] then Ok(table)
    else match ExecOp(table, ops[0])
      case Ok(t) => ExecOps(t, ops[1..])
      case Err(e) => Err(e)
  }

  // ---- Packets ----------------------------------------------------------------

  /** Headers as seen at the hook; `l4proto` is absent and `transport` empty where the kernel cannot tell. */
  datatype Packet = Packet(network: Bytes, l4proto: Option<Byte>, transport: Bytes)

  type Registers = map<nat, Bytes>

  datatype RuleResult = NoVerdict | Call(chain: string) | Rewrite(addr: Bytes, port: Bytes)

  function Header(packet: Packet, base: HeaderBase): Bytes {
    if base.NetworkHeader? then packet.network else packet.transport
  }

  /** A 32-bit number in the byte order of the host, here least significant byte first. */
  function NativeUint32(n: nat): Bytes {
    [(n % 256) as Byte, (n / 256 % 256) as Byte, (n / 0x1_0000 % 256) as Byte, (n / 0x100_0000 % 256) as Byte]
  }

  /** A 16-bit number in network byte order. */
  function BigEndianUint16(n: nat): Bytes {
    [(n / 256 % 256) as Byte, (n % 256) as Byte]
  }

  /** Run one rule's expressions; a failing match ends the rule. `draw` is the random source. */
  function RunRule(table: Table, rule: Rule, regs: Registers, packet: Packet, draw: nat -> nat): RuleResult
    decreases rule
  {
    if rule == [] then NoVerdict
    else match rule[0]
      case Payload(dest, base, offset, len) =>
        var h := Header(packet, base);
        if offset + len > |h| then NoVerdict
        else RunRule(table, rule[1..], regs[dest := h[offset..offset + len]], packet, draw)
      case Cmp(source, data) =>
        if source in regs && regs[source] == data then RunRule(table, rule[1..], regs, packet, draw) else NoVerdict
      case MetaL4Proto(dest) =>
        if packet.l4proto.None? then NoVerdict
        else RunRule(table, rule[1..], regs[dest := [packet.l4proto.value]], packet, draw)
      case Jump(chain) => Call(chain)
      case Numgen(dest, modulus) => RunRule(table, rule[1..], regs[dest := NativeUint32(draw(modulus))], packet, draw)
      case LookupVerdict(source, name) =>
        if source in regs && name in table.maps && regs[source] in table.maps[name]
        then Call(table.maps[name][regs[source]]) else NoVerdict
      case Immediate(dest, data) => RunRule(table, rule[1..], regs[dest := data], packet, draw)
      case DestNAT(addrReg, portReg) =>
        if addrReg in regs && portReg in regs then Rewrite(regs[addrReg], regs[portReg]) else NoVerdict
  }

  datatype Verdict = Unchanged | Redirect(addr: Bytes, port: Bytes)

  /** The kernel's limit on nested jumps. */
  const JUMP_STACK_SIZE: nat := 16

  /** Run a chain's rules; a called chain that gives no verdict returns to the caller. */
  function RunRules(table: Table, rules: seq<Rule>, packet: Packet, draw: nat -> nat, depth: nat): Verdict
    decreases depth, |rules|
  {
    if rules == [] then Unchanged
    else match RunRule(table, rules[0], map[], packet, draw)
      case NoVerdict => RunRules(table, rules[1..], packet, draw, depth)
      case Rewrite(addr, port) => Redirect(addr, port)
      case Call(chain) =>
        var inner := if depth == 0 || chain !in table.chains then Unchanged
                     else RunRules(table, table.chains[chain].rules, packet, draw, depth - 1);
        if inner.Redirect? then inner else RunRules(table, rules[1..], packet, draw, depth)
  }

  predicate IsBaseChain(table: Table, name: string, hook: Hook) {
    name in table.chains && table.chains[name].hook == Some(hook)
  }

  /** What the table does to a packet at a hook; the policy of every base chain is accept. */
  ghost function RunHook(table: Table, hook: Hook, packet: Packet, draw: nat -> nat): Verdict {
    if name :| IsBaseChain(table, name, hook)
    then RunRules(table, table.chains[name].rules, packet, draw, JUMP_STACK_SIZE)
    else Unchanged
  }
}
