/** The serialized prototype format: what a byte string denotes under a step order and a tag map. */
module MoonSecFormat {

  import opened Bytes

  const MAX_PAYLOAD_BYTES := 64 * 1024 * 1024
  const MAX_PROTOTYPE_DEPTH := 128
  const MAX_FUNCTIONS := 100000
  const MAX_INSTRUCTIONS := 4000000
  const MAX_CONSTANTS := 4000000

  datatype Step = Constants | Instructions | Functions | Parameters
  datatype Kind = Unknown | Boolean | Number | String

  datatype Constant = Constant(kind: Kind, boolean: bool, bytes: seq<Byte>)
  datatype Instruction =
    | Discarded(pc: nat, descriptor: Byte)
    | Live(pc: nat, descriptor: Byte, opNum: int, a: int, b: int, c: int, isKA: bool, isKB: bool, isKC: bool)

  datatype Tree = Node(parameters: nat, constants: seq<Constant>, instructions: seq<Instruction>, children: seq<Tree>)

  datatype Metrics = Metrics(functions: nat, instructions: nat, constants: nat, strings: nat, nonNilConstants: nat)

  const ZERO := Metrics(0, 0, 0, 0, 0)

  datatype Parsed<T> = None | Some(value: T, position: nat, metrics: Metrics)

  /** A read position inside the data and totals within the global caps. */
  predicate Within(data: seq<Byte>, position: nat, m: Metrics) {
    && position <= |data| && m.functions <= MAX_FUNCTIONS && m.instructions <= MAX_INSTRUCTIONS && m.constants <= MAX_CONSTANTS
  }

  // ---------- little-endian numbers ----------

  function U16(data: seq<Byte>, p: nat): (r: nat)
    requires p + 2 <= |data|
    ensures r < 0x1_0000
  {
    var low: int, high: int := data[p], data[p + 1];
    low + 0x100 * high
  }

  function U32(data: seq<Byte>, p: nat): (r: nat)
    requires p + 4 <= |data|
    ensures r < 0x1_0000_0000
  {
    U16(data, p) + 0x1_0000 * U16(data, p + 2)
  }

  function Signed16(u: nat): int {
    if u < 0x8000 then u else u - 0x1_0000
  }

  function Signed32(u: nat): int {
    if u < 0x8000_0000 then u else u - 0x1_0000_0000
  }

  // ---------- constants ----------

  function KindOf(tags: seq<Kind>, tag: Byte): Kind {
    if tag < |tags| then tags[tag] else Unknown
  }

  function ParseConstant(data: seq<Byte>, tags: seq<Kind>, p: nat, m: Metrics): (r: Parsed<Constant>)
    requires Within(data, p, m)
    ensures r.Some? ==> Within(data, r.position, r.metrics)
  {
    if p + 1 > |data| then None
    else
      var seen := m.(nonNilConstants := m.nonNilConstants + 1);
      match KindOf(tags, data[p]) {
        case Unknown => Some(Constant(Unknown, false, []), p + 1, m)
        case Boolean => if p + 2 > |data| then None else Some(Constant(Boolean, data[p + 1] != 0, []), p + 2, seen)
        case Number => if p + 9 > |data| then None else Some(Constant(Number, false, data[p + 1..p + 9]), p + 9, seen)
        case String =>
          if p + 5 > |data| then None
          else
            var length := U32(data, p + 1);
            if length > |data| - (p + 5) || length > MAX_PAYLOAD_BYTES then None
            else Some(Constant(String, false, data[p + 5..p + 5 + length]), p + 5 + length, seen.(strings := m.strings + 1))
      }
  }

  /** `n` more constants behind those in `before`. */
  function ParseConstantList(data: seq<Byte>, tags: seq<Kind>, p: nat, m: Metrics, n: nat, before: seq<Constant>): (r: Parsed<seq<Constant>>)
    requires Within(data, p, m)
    ensures r.Some? ==> Within(data, r.position, r.metrics)
    decreases n
  {
    if n == 0 then Some(before, p, m)
    else
      match ParseConstant(data, tags, p, m) {
        case None => None
        case Some(c, p', m') => ParseConstantList(data, tags, p', m', n - 1, before + [c])
      }
  }

  function ParseConstants(data: seq<Byte>, tags: seq<Kind>, p: nat, m: Metrics): (r: Parsed<seq<Constant>>)
    requires Within(data, p, m)
    ensures r.Some? ==> Within(data, r.position, r.metrics)
  {
    if p + 4 > |data| then None
    else
      var count := U32(data, p);
      if count > MAX_CONSTANTS - m.constants || count > |data| - (p + 4) then None
      else ParseConstantList(data, tags, p + 4, m.(constants := m.constants + count), count, [])
  }

  // ---------- instructions ----------

  /** Bytes behind opcode and A, by instruction type. */
  function OperandBytes(descriptor: Byte): nat {
    if descriptor / 2 % 4 == 3 then 6 else 4
  }

  function OperandB(data: seq<Byte>, descriptor: Byte, p: nat): int
    requires p + OperandBytes(descriptor) <= |data|
  {
    match descriptor / 2 % 4 {
      case 0 => Signed16(U16(data, p))
      case 1 => Signed32(U32(data, p))
      case _ => Signed32(U32(data, p)) - 0x1_0000
    }
  }

  function OperandC(data: seq<Byte>, descriptor: Byte, p: nat): int
    requires p + OperandBytes(descriptor) <= |data|
  {
    match descriptor / 2 % 4 {
      case 0 => Signed16(U16(data, p + 2))
      case 3 => Signed16(U16(data, p + 4))
      case _ => 0
    }
  }

  function ParseInstruction(data: seq<Byte>, p: nat, m: Metrics, pc: nat): (r: Parsed<Instruction>)
    requires Within(data, p, m) && m.instructions < MAX_INSTRUCTIONS
    ensures r.Some? ==> Within(data, r.position, r.metrics) && r.metrics.instructions <= m.instructions + 1
  {
    if p + 1 > |data| then None
    else
      var d := data[p];
      if d % 2 != 0 then Some(Discarded(pc, d), p + 1, m)
      else if p + 5 + OperandBytes(d) > |data| then None
      else
        Some(Live(pc, d, Signed16(U16(data, p + 1)), Signed16(U16(data, p + 3)), OperandB(data, d, p + 5), OperandC(data, d, p + 5),
                  d / 8 % 2 != 0, d / 16 % 2 != 0, d / 32 % 2 != 0),
             p + 5 + OperandBytes(d), m.(instructions := m.instructions + 1))
  }

  function ParseInstructionList(data: seq<Byte>, p: nat, m: Metrics, n: nat, before: seq<Instruction>): (r: Parsed<seq<Instruction>>)
    requires Within(data, p, m) && m.instructions + n <= MAX_INSTRUCTIONS
    ensures r.Some? ==> Within(data, r.position, r.metrics)
    decreases n
  {
    if n == 0 then Some(before, p, m)
    else
      match ParseInstruction(data, p, m, |before|) {
        case None => None
        case Some(i, p', m') => ParseInstructionList(data, p', m', n - 1, before + [i])
      }
  }

  function ParseInstructions(data: seq<Byte>, p: nat, m: Metrics): (r: Parsed<seq<Instruction>>)
    requires Within(data, p, m)
    ensures r.Some? ==> Within(data, r.position, r.metrics)
  {
    if p + 4 > |data| then None
    else
      var count := U32(data, p);
      if count > MAX_INSTRUCTIONS - m.instructions || count > |data| - (p + 4) then None
      else ParseInstructionList(data, p + 4, m, count, [])
  }

  // ---------- functions ----------

  function ParseChildren(data: seq<Byte>, order: seq<Step>, tags: seq<Kind>, p: nat, m: Metrics, depth: nat, n: nat, before: seq<Tree>)
    : (r: Parsed<seq<Tree>>)
    requires Within(data, p, m) && depth <= MAX_PROTOTYPE_DEPTH
    ensures r.Some? ==> Within(data, r.position, r.metrics)
    decreases MAX_PROTOTYPE_DEPTH + 1 - depth, 0, n
  {
    if n == 0 then Some(before, p, m)
    else
      match ParseFunction(data, order, tags, p, m, depth + 1) {
        case None => None
        case Some(child, p', m') => ParseChildren(data, order, tags, p', m', depth, n - 1, before + [child])
      }
  }

  function ParseFunctions(data: seq<Byte>, order: seq<Step>, tags: seq<Kind>, p: nat, m: Metrics, depth: nat): (r: Parsed<seq<Tree>>)
    requires Within(data, p, m) && depth <= MAX_PROTOTYPE_DEPTH
    ensures r.Some? ==> Within(data, r.position, r.metrics)
    decreases MAX_PROTOTYPE_DEPTH + 1 - depth, 1
  {
    if p + 4 > |data| then None
    else
      var count := U32(data, p);
      if count > MAX_FUNCTIONS - m.functions || count > |data| / 5 then None
      else ParseChildren(data, order, tags, p + 4, m, depth, count, [])
  }

  /** One step of the order, on top of what the node holds already. */
  function ParseStep(data: seq<Byte>, order: seq<Step>, tags: seq<Kind>, p: nat, m: Metrics, depth: nat, step: Step, node: Tree): (r: Parsed<Tree>)
    requires Within(data, p, m) && depth <= MAX_PROTOTYPE_DEPTH
    ensures r.Some? ==> Within(data, r.position, r.metrics)
    decreases MAX_PROTOTYPE_DEPTH + 1 - depth, 2
  {
    match step {
      case Constants =>
        (match ParseConstants(data, tags, p, m) {
           case None => None
           case Some(constants, p', m') => Some(node.(constants := constants), p', m')
         })
      case Instructions =>
        (match ParseInstructions(data, p, m) {
           case None => None
           case Some(instructions, p', m') => Some(node.(instructions := instructions), p', m')
         })
      case Functions =>
        (match ParseFunctions(data, order, tags, p, m, depth) {
           case None => None
           case Some(children, p', m') => Some(node.(children := children), p', m')
         })
      case Parameters =>
        if p + 1 > |data| then None else Some(node.(parameters := data[p]), p + 1, m)
    }
  }

  function ParseSteps(data: seq<Byte>, order: seq<Step>, tags: seq<Kind>, p: nat, m: Metrics, depth: nat, k: nat, node: Tree): (r: Parsed<Tree>)
    requires Within(data, p, m) && depth <= MAX_PROTOTYPE_DEPTH && k <= |order|
    ensures r.Some? ==> Within(data, r.position, r.metrics)
    decreases MAX_PROTOTYPE_DEPTH + 1 - depth, 3, |order| - k
  {
    if k == |order| then Some(node, p, m)
    else
      match ParseStep(data, order, tags, p, m, depth, order[k], node) {
        case None => None
        case Some(node', p', m') => ParseSteps(data, order, tags, p', m', depth, k + 1, node')
      }
  }

  const EMPTY := Node(0, [], [], [])

  function ParseFunction(data: seq<Byte>, order: seq<Step>, tags: seq<Kind>, p: nat, m: Metrics, depth: nat): (r: Parsed<Tree>)
    requires Within(data, p, m) && depth <= MAX_PROTOTYPE_DEPTH + 1
    ensures r.Some? ==> Within(data, r.position, r.metrics)
    decreases MAX_PROTOTYPE_DEPTH + 1 - depth, 4
  {
    if depth > MAX_PROTOTYPE_DEPTH || m.functions >= MAX_FUNCTIONS then None
    else ParseSteps(data, order, tags, p, m.(functions := m.functions + 1), depth, 0, EMPTY)
  }

  /** The tree the whole of `data` denotes, if any, with its totals. */
  function Denotes(data: seq<Byte>, order: seq<Step>, tags: seq<Kind>): (r: Parsed<Tree>)
    ensures r.Some? ==> Within(data, r.position, r.metrics) && r.position == |data|
  {
    match ParseFunction(data, order, tags, 0, ZERO, 0) {
      case None => None
      case Some(tree, p, m) => if p == |data| then Some(tree, p, m) else None
    }
  }
}
