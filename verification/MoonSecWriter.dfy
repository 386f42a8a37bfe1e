/** A writer for serialized prototypes, byte by byte, and that reading what it writes gives the tree back. */
module MoonSecWriter {
  import opened Bytes
  import opened MoonSecFormat
  import opened MoonSecTotals

  // ---------- the writer ----------

  /** Two's complement: the value that `bits` bits can hold and that differs from `x` by a multiple of their range. */
  function Complement(x: int, range: nat): nat
    requires range > 0
  {
    x % range
  }

  function Int16(x: int): seq<Byte> {
    LittleEndian(Complement(x, 0x1_0000), 2)
  }

  function Int32(x: int): seq<Byte> {
    LittleEndian(Complement(x, 0x1_0000_0000), 4)
  }

  /** A tag byte for each kind; nil may be any tag that stands for nothing else. */
  ghost predicate TagsFit(tags: seq<Kind>, tag: Kind -> Byte) {
    forall kind: Kind {:trigger tag(kind)} :: if tag(kind) < |tags| then tags[tag(kind)] == kind else kind.Unknown?
  }

  function WriteConstant(c: Constant, tag: Kind -> Byte): seq<Byte> {
    [tag(c.kind)] + match c.kind {
      case Unknown => []
      case Boolean => if c.boolean then [1] else [0]
      case Number => c.bytes
      case String => LittleEndian(|c.bytes|, 4) + c.bytes
    }
  }

  function ConstantWriter(tag: Kind -> Byte): Constant -> seq<Byte> {
    c => WriteConstant(c, tag)
  }

  function WriteConstants(cs: seq<Constant>, tag: Kind -> Byte): seq<Byte> {
    Joined(cs, ConstantWriter(tag))
  }

  /** The instruction type of a live word: operands B and C, a wide B, a wide B less 65536, or that and C. */
  function TypeOf(i: Instruction): nat {
    i.descriptor % 8 / 2
  }

  function Flag(set_: bool): nat {
    if set_ then 1 else 0
  }

  function WriteInstruction(i: Instruction): seq<Byte> {
    match i {
      case Discarded(_, descriptor) => [descriptor]
      case Live(_, descriptor, opNum, a, b, c, _, _, _) =>
        [descriptor] + Int16(opNum) + Int16(a) + match TypeOf(i) {
          case 0 => Int16(b) + Int16(c)
          case 1 => Int32(b)
          case 2 => Int32(b + 65536)
          case _ => Int32(b + 65536) + Int16(c)
        }
    }
  }

  function InstructionWriter(): Instruction -> seq<Byte> {
    i => WriteInstruction(i)
  }

  function WriteInstructions(xs: seq<Instruction>): seq<Byte> {
    Joined(xs, InstructionWriter())
  }

  function WriteStep(t: Tree, step: Step, tag: Kind -> Byte, children: seq<Byte>): seq<Byte> {
    match step {
      case Constants => LittleEndian(|t.constants|, 4) + WriteConstants(t.constants, tag)
      case Instructions => LittleEndian(|t.instructions|, 4) + WriteInstructions(t.instructions)
      case Functions => LittleEndian(|t.children|, 4) + children
      case Parameters => [t.parameters % 256]
    }
  }

  function StepWriter(t: Tree, tag: Kind -> Byte, children: seq<Byte>): Step -> seq<Byte> {
    step => WriteStep(t, step, tag, children)
  }

  /** The steps of a node from number `k` on, each as `write` spells it. */
  function WriteSteps(order: seq<Step>, k: nat, write: Step -> seq<Byte>): seq<Byte>
    requires k <= |order|
    decreases |order| - k
  {
    if k == |order| then [] else write(order[k]) + WriteSteps(order, k + 1, write)
  }

  /** A node around the bytes of its children. */
  function WriteNode(t: Tree, order: seq<Step>, tag: Kind -> Byte, children: seq<Byte>): seq<Byte> {
    WriteSteps(order, 0, StepWriter(t, tag, children))
  }

  function NodeWriter(order: seq<Step>, tag: Kind -> Byte): (Tree, seq<Byte>) -> seq<Byte> {
    (t, children) => WriteNode(t, order, tag, children)
  }

  /** Trees one behind the other, each as `write` spells it around its children. */
  function Forest(ts: seq<Tree>, write: (Tree, seq<Byte>) -> seq<Byte>): seq<Byte>
    decreases ts
  {
    if ts == [] then [] else write(ts[0], Forest(ts[0].children, write)) + Forest(ts[1..], write)
  }

  function Serialized(t: Tree, order: seq<Step>, tag: Kind -> Byte): seq<Byte> {
    WriteNode(t, order, tag, Forest(t.children, NodeWriter(order, tag)))
  }

  // ---------- what can be written ----------

  predicate ConstantOk(c: Constant) {
    match c.kind {
      case Unknown => !c.boolean && c.bytes == []
      case Boolean => c.bytes == []
      case Number => !c.boolean && |c.bytes| == 8
      case String => !c.boolean && |c.bytes| <= MAX_PAYLOAD_BYTES
    }
  }

  predicate Fits(x: int, range: nat) {
    -(range / 2) <= x < range / 2
  }

  /** The word at `pc`: odd descriptors are discarded, even ones carry the type, three flags and two spare bits. */
  predicate InstructionOk(i: Instruction, pc: nat) {
    i.pc == pc && match i {
      case Discarded(_, descriptor) => descriptor % 2 == 1
      case Live(_, descriptor, opNum, a, b, c, isKA, isKB, isKC) =>
        && descriptor == 2 * TypeOf(i) + 8 * Flag(isKA) + 16 * Flag(isKB) + 32 * Flag(isKC) + 64 * (descriptor / 64)
        && Fits(opNum, 0x1_0000) && Fits(a, 0x1_0000)
        && match TypeOf(i) {
             case 0 => Fits(b, 0x1_0000) && Fits(c, 0x1_0000)
             case 1 => Fits(b, 0x1_0000_0000) && c == 0
             case 2 => Fits(b + 65536, 0x1_0000_0000) && c == 0
             case _ => Fits(b + 65536, 0x1_0000_0000) && Fits(c, 0x1_0000)
           }
    }
  }

  ghost predicate NodeOk(t: Tree) {
    && t.parameters < 256
    && ConstantsOk(t.constants)
    && InstructionsOk(t.instructions, 0)
  }

  /** Functions, instruction words, discarded ones included, and constants. */
  datatype Cost = Cost(functions: nat, words: nat, constants: nat)

  function Both(x: Cost, y: Cost): Cost {
    Cost(x.functions + y.functions, x.words + y.words, x.constants + y.constants)
  }

  /** Whether trees can be written, how deep they nest, and what they cost. */
  datatype Survey = Survey(ok: bool, levels: nat, cost: Cost)

  ghost function SurveyOf(ts: seq<Tree>): Survey
    decreases ts
  {
    if ts == [] then Survey(true, 0, Cost(0, 0, 0)) else WithFirst(ts[0], SurveyOf(ts[0].children), SurveyOf(ts[1..]))
  }

  /** The survey of a tree with `below` under it and `rest` behind it. */
  ghost function WithFirst(t: Tree, below: Survey, rest: Survey): Survey {
    Survey(NodeOk(t) && below.ok && rest.ok,
           if 1 + below.levels > rest.levels then 1 + below.levels else rest.levels,
           Both(Both(Cost(1, |t.instructions|, |t.constants|), below.cost), rest.cost))
  }

  predicate Room(m: Metrics, cost: Cost) {
    && m.functions + cost.functions <= MAX_FUNCTIONS && m.instructions + cost.words <= MAX_INSTRUCTIONS
    && m.constants + cost.constants <= MAX_CONSTANTS
  }

  /** What one tree costs, with everything below it. */
  ghost function Whole(t: Tree): Cost {
    Both(Cost(1, |t.instructions|, |t.constants|), SurveyOf(t.children).cost)
  }

  /** A tree that can be written, and read within the caps. */
  ghost predicate TreeOk(t: Tree) {
    NodeOk(t) && SurveyOf(t.children).ok && Room(ZERO, Whole(t)) && SurveyOf(t.children).levels <= MAX_PROTOTYPE_DEPTH
  }

  // ---------- numbers read back ----------

  lemma U16Reads(data: seq<Byte>, p: nat, v: nat)
    requires Stands(data, p, LittleEndian(v, 2)) && v < 0x1_0000
    ensures p + 2 <= |data| && U16(data, p) == v
  {
    TwoBytes(v);
    StandsAt(data, p, LittleEndian(v, 2), 0);
    StandsAt(data, p, LittleEndian(v, 2), 1);
  }

  lemma U32Reads(data: seq<Byte>, p: nat, v: nat)
    requires Stands(data, p, LittleEndian(v, 4)) && v < 0x1_0000_0000
    ensures p + 4 <= |data| && U32(data, p) == v
  {
    FourBytes(v);
    StandsAt(data, p, LittleEndian(v, 4), 0);
    StandsAt(data, p, LittleEndian(v, 4), 1);
    StandsAt(data, p, LittleEndian(v, 4), 2);
    StandsAt(data, p, LittleEndian(v, 4), 3);
    FourDigits(v, data[p], data[p + 1], data[p + 2], data[p + 3]);
  }

  lemma FourDigits(v: nat, d0: nat, d1: nat, d2: nat, d3: nat)
    requires v < 0x1_0000_0000
    requires d0 == v % 256 && d1 == v / 256 % 256 && d2 == v / 256 / 256 % 256 && d3 == v / 256 / 256 / 256 % 256
    ensures d0 + 0x100 * d1 + 0x1_0000 * (d2 + 0x100 * d3) == v
  {
    var v1: nat := v / 256;
    var v2: nat := v1 / 256;
    assert v == 256 * v1 + d0 && v1 == 256 * v2 + d1 && v2 == 256 * (v2 / 256) + d2 && v2 / 256 == d3;
  }

  lemma Int16Reads(data: seq<Byte>, p: nat, x: int)
    requires Stands(data, p, Int16(x)) && Fits(x, 0x1_0000)
    ensures p + 2 <= |data| && Signed16(U16(data, p)) == x
  {
    U16Reads(data, p, Complement(x, 0x1_0000));
  }

  lemma Int32Reads(data: seq<Byte>, p: nat, x: int)
    requires Stands(data, p, Int32(x)) && Fits(x, 0x1_0000_0000)
    ensures p + 4 <= |data| && Signed32(U32(data, p)) == x
  {
    U32Reads(data, p, Complement(x, 0x1_0000_0000));
  }

  // ---------- constants read back ----------

  /** The totals other than the string and non-nil ones. */
  predicate SameCaps(m: Metrics, m': Metrics) {
    m'.functions == m.functions && m'.instructions == m.instructions && m'.constants == m.constants
  }

  lemma ConstantReads(data: seq<Byte>, tags: seq<Kind>, tag: Kind -> Byte, p: nat, m: Metrics, c: Constant)
    requires TagsFit(tags, tag) && ConstantOk(c) && Within(data, p, m) && Stands(data, p, WriteConstant(c, tag))
    ensures var r := ParseConstant(data, tags, p, m);
      r.Some? && r.value == c && r.position == p + |WriteConstant(c, tag)| && SameCaps(m, r.metrics)
  {
    var first := [tag(c.kind)];
    var rest := WriteConstant(c, tag)[1..];
    assert WriteConstant(c, tag) == first + rest;
    StandsSplit(data, p, first, rest);
    StandsAt(data, p, first, 0);
    assert KindOf(tags, data[p]) == c.kind;
    match c.kind {
      case Unknown =>
      case Boolean => StandsAt(data, p + 1, rest, 0);
      case Number => StandsIff(data, p + 1, rest);
      case String =>
        StandsSplit(data, p + 1, LittleEndian(|c.bytes|, 4), c.bytes);
        U32Reads(data, p + 1, |c.bytes|);
        StandsIff(data, p + 5, c.bytes);
    }
  }

  ghost predicate ConstantsRead(r: Parsed<seq<Constant>>, m: Metrics, p: nat, cs: seq<Constant>, before: seq<Constant>, bytes: nat) {
    r.Some? && r.value == before + cs && r.position == p + bytes && SameCaps(m, r.metrics)
  }

  lemma ConstantsReadStep(r: Parsed<seq<Constant>>, m: Metrics, m': Metrics, p: nat, c: Constant, cs: seq<Constant>, before: seq<Constant>,
                          n: nat, bytes: nat)
    requires SameCaps(m, m') && ConstantsRead(r, m', p + n, cs, before + [c], bytes)
    ensures ConstantsRead(r, m, p, [c] + cs, before, n + bytes)
  {
    assert before + [c] + cs == before + ([c] + cs);
  }

  ghost predicate ConstantsOk(cs: seq<Constant>) {
    forall k :: 0 <= k < |cs| ==> ConstantOk(cs[k])
  }

  lemma ConstantWritten(c: Constant, tag: Kind -> Byte)
    ensures ConstantWriter(tag)(c) == WriteConstant(c, tag)
  {
  }

  /** One more constant is read, and the rest stands behind it. */
  lemma HeadConstantReads(data: seq<Byte>, tags: seq<Kind>, tag: Kind -> Byte, p: nat, m: Metrics, cs: seq<Constant>, before: seq<Constant>)
    returns (p': nat, m': Metrics)
    requires TagsFit(tags, tag) && cs != [] && ConstantsOk(cs) && Within(data, p, m) && Stands(data, p, WriteConstants(cs, tag))
    ensures p <= p' && Within(data, p', m') && SameCaps(m, m') && ConstantsOk(cs[1..]) && cs == [cs[0]] + cs[1..]
    ensures Stands(data, p', WriteConstants(cs[1..], tag)) && |WriteConstants(cs, tag)| == p' - p + |WriteConstants(cs[1..], tag)|
    ensures ParseConstantList(data, tags, p, m, |cs|, before)
         == ParseConstantList(data, tags, p', m', |cs[1..]|, before + [cs[0]])
  {
    var write := ConstantWriter(tag);
    JoinedHead(data, p, cs, write);
    ConstantWritten(cs[0], tag);
    ConstantReads(data, tags, tag, p, m, cs[0]);
    var next := ParseConstant(data, tags, p, m);
    p', m' := next.position, next.metrics;
  }

  lemma {:induction false} ConstantListReads(data: seq<Byte>, tags: seq<Kind>, tag: Kind -> Byte, p: nat, m: Metrics,
                                             cs: seq<Constant>, before: seq<Constant>)
    requires TagsFit(tags, tag) && ConstantsOk(cs) && Within(data, p, m) && Stands(data, p, WriteConstants(cs, tag))
    ensures ConstantsRead(ParseConstantList(data, tags, p, m, |cs|, before), m, p, cs, before, |WriteConstants(cs, tag)|)
    decreases |cs|
  {
    if cs != [] {
      var p', m' := HeadConstantReads(data, tags, tag, p, m, cs, before);
      ConstantListReads(data, tags, tag, p', m', cs[1..], before + [cs[0]]);
      ConstantsReadStep(ParseConstantList(data, tags, p', m', |cs[1..]|, before + [cs[0]]), m, m', p, cs[0], cs[1..], before,
                        p' - p, |WriteConstants(cs[1..], tag)|);
    }
  }

  // ---------- instructions read back ----------

  lemma Quotients(q: nat, r: nat)
    ensures r < 8 ==> (8 * q + r) / 8 == q
    ensures r < 16 ==> (16 * q + r) / 16 == q
    ensures r < 32 ==> (32 * q + r) / 32 == q
  {
  }

  lemma LowBits(t: nat, q: nat)
    requires t < 4
    ensures (2 * t + 8 * q) % 2 == 0 && (2 * t + 8 * q) / 2 % 4 == t
  {
    assert (2 * t + 8 * q) / 2 == t + 4 * q;
  }

  lemma LowestBit(a: nat, q: nat)
    requires a < 2
    ensures (a + 2 * q) % 2 == a
  {
  }

  lemma Bits(d: nat, t: nat, a: nat, b: nat, c: nat, rest: nat)
    requires t < 4 && a < 2 && b < 2 && c < 2 && d == 2 * t + 8 * a + 16 * b + 32 * c + 64 * rest
    ensures d % 2 == 0 && d / 2 % 4 == t && d / 8 % 2 == a && d / 16 % 2 == b && d / 32 % 2 == c
  {
    var h3 := c + 2 * rest;
    var h2 := b + 2 * h3;
    var h1 := a + 2 * h2;
    LowBits(t, h1);
    Quotients(h1, 2 * t);
    Quotients(h2, 8 * a + 2 * t);
    Quotients(h3, 16 * b + 8 * a + 2 * t);
    LowestBit(a, h2);
    LowestBit(b, h3);
    LowestBit(c, rest);
  }

  lemma DescriptorBits(i: Instruction, pc: nat)
    requires InstructionOk(i, pc) && i.Live?
    ensures i.descriptor % 2 == 0 && i.descriptor / 2 % 4 == TypeOf(i)
    ensures (i.descriptor / 8 % 2 != 0 <==> i.isKA) && (i.descriptor / 16 % 2 != 0 <==> i.isKB) && (i.descriptor / 32 % 2 != 0 <==> i.isKC)
  {
    Bits(i.descriptor, TypeOf(i), Flag(i.isKA), Flag(i.isKB), Flag(i.isKC), i.descriptor / 64);
  }

  lemma OperandsRead(data: seq<Byte>, p: nat, i: Instruction, pc: nat, operands: seq<Byte>)
    requires InstructionOk(i, pc) && i.Live? && i.descriptor / 2 % 4 == TypeOf(i) && Stands(data, p, operands)
    requires operands == match TypeOf(i) {
      case 0 => Int16(i.b) + Int16(i.c)
      case 1 => Int32(i.b)
      case 2 => Int32(i.b + 65536)
      case _ => Int32(i.b + 65536) + Int16(i.c)
    }
    ensures |operands| == OperandBytes(i.descriptor) && p + OperandBytes(i.descriptor) <= |data|
    ensures OperandB(data, i.descriptor, p) == i.b && OperandC(data, i.descriptor, p) == i.c
  {
    match TypeOf(i) {
      case 0 =>
        StandsSplit(data, p, Int16(i.b), Int16(i.c));
        Int16Reads(data, p, i.b);
        Int16Reads(data, p + 2, i.c);
      case 1 => Int32Reads(data, p, i.b);
      case 2 => Int32Reads(data, p, i.b + 65536);
      case _ =>
        StandsSplit(data, p, Int32(i.b + 65536), Int16(i.c));
        Int32Reads(data, p, i.b + 65536);
        Int16Reads(data, p + 4, i.c);
    }
  }

  lemma LiveReads(data: seq<Byte>, p: nat, m: Metrics, pc: nat, i: Instruction)
    requires InstructionOk(i, pc) && i.Live? && Within(data, p, m) && m.instructions < MAX_INSTRUCTIONS && Stands(data, p, WriteInstruction(i))
    ensures ParseInstruction(data, p, m, pc) == Some(i, p + |WriteInstruction(i)|, m.(instructions := m.instructions + 1))
  {
    DescriptorBits(i, pc);
    var d := [i.descriptor];
    var operands := WriteInstruction(i)[5..];
    assert WriteInstruction(i) == d + Int16(i.opNum) + Int16(i.a) + operands;
    StandsSplit(data, p, d + Int16(i.opNum) + Int16(i.a), operands);
    StandsSplit(data, p, d + Int16(i.opNum), Int16(i.a));
    StandsSplit(data, p, d, Int16(i.opNum));
    StandsAt(data, p, d, 0);
    Int16Reads(data, p + 1, i.opNum);
    Int16Reads(data, p + 3, i.a);
    OperandsRead(data, p + 5, i, pc, operands);
  }

  lemma InstructionReads(data: seq<Byte>, p: nat, m: Metrics, pc: nat, i: Instruction)
    requires InstructionOk(i, pc) && Within(data, p, m) && m.instructions < MAX_INSTRUCTIONS && Stands(data, p, WriteInstruction(i))
    ensures ParseInstruction(data, p, m, pc)
         == Some(i, p + |WriteInstruction(i)|, if i.Live? then m.(instructions := m.instructions + 1) else m)
  {
    if i.Live? {
      LiveReads(data, p, m, pc, i);
    } else {
      StandsAt(data, p, WriteInstruction(i), 0);
    }
  }

  lemma InstructionListStep(data: seq<Byte>, p: nat, m: Metrics, n: nat, before: seq<Instruction>, i: Instruction, p': nat, m': Metrics)
    requires Within(data, p, m) && n > 0 && m.instructions + n <= MAX_INSTRUCTIONS
    requires ParseInstruction(data, p, m, |before|) == Some(i, p', m')
    ensures Within(data, p', m') && m'.instructions + n - 1 <= MAX_INSTRUCTIONS
    ensures ParseInstructionList(data, p, m, n, before) == ParseInstructionList(data, p', m', n - 1, before + [i])
  {
  }

  ghost predicate InstructionsOk(xs: seq<Instruction>, from: nat) {
    forall k :: 0 <= k < |xs| ==> InstructionOk(xs[k], from + k)
  }

  lemma InstructionsOkTail(xs: seq<Instruction>, from: nat)
    requires InstructionsOk(xs, from) && xs != []
    ensures InstructionOk(xs[0], from) && InstructionsOk(xs[1..], from + 1)
  {
    forall k | 0 <= k < |xs[1..]| ensures InstructionOk(xs[1..][k], from + 1 + k) {
      assert InstructionOk(xs[k + 1], from + (k + 1));
    }
  }

  /** What reading a list of words leaves: the words, the place behind them, and no more live ones than there are. */
  ghost predicate WordsRead(r: Parsed<seq<Instruction>>, m: Metrics, p: nat, xs: seq<Instruction>, before: seq<Instruction>, bytes: nat) {
    && r.Some? && r.value == before + xs && r.position == p + bytes
    && r.metrics.functions == m.functions && r.metrics.constants == m.constants && r.metrics.instructions <= m.instructions + |xs|
  }

  lemma WordsReadStep(r: Parsed<seq<Instruction>>, m: Metrics, m': Metrics, p: nat, i: Instruction, xs: seq<Instruction>,
                      before: seq<Instruction>, n: nat, bytes: nat)
    requires m' == (if i.Live? then m.(instructions := m.instructions + 1) else m)
    requires WordsRead(r, m', p + n, xs, before + [i], bytes)
    ensures WordsRead(r, m, p, [i] + xs, before, n + bytes)
  {
    assert before + [i] + xs == before + ([i] + xs);
  }

  function AfterWord(m: Metrics, i: Instruction): Metrics {
    if i.Live? then m.(instructions := m.instructions + 1) else m
  }

  lemma HeadWordReads(data: seq<Byte>, p: nat, m: Metrics, i: Instruction, pc: nat, w: seq<Byte>)
    requires InstructionOk(i, pc) && Within(data, p, m) && m.instructions < MAX_INSTRUCTIONS
    requires w == InstructionWriter()(i) && Stands(data, p, w)
    ensures ParseInstruction(data, p, m, pc) == Some(i, p + |w|, AfterWord(m, i))
  {
    assert InstructionWriter()(i) == WriteInstruction(i);
    InstructionReads(data, p, m, pc, i);
  }

  lemma {:induction false} InstructionListReads(data: seq<Byte>, p: nat, m: Metrics, xs: seq<Instruction>, before: seq<Instruction>)
    requires InstructionsOk(xs, |before|) && Within(data, p, m) && m.instructions + |xs| <= MAX_INSTRUCTIONS
    requires Stands(data, p, WriteInstructions(xs))
    ensures WordsRead(ParseInstructionList(data, p, m, |xs|, before), m, p, xs, before, |WriteInstructions(xs)|)
    decreases |xs|
  {
    if xs != [] {
      var write := InstructionWriter();
      JoinedHead(data, p, xs, write);
      InstructionsOkTail(xs, |before|);
      var i, rest, w := xs[0], xs[1..], write(xs[0]);
      HeadWordReads(data, p, m, i, |before|, w);
      InstructionListStep(data, p, m, |xs|, before, i, p + |w|, AfterWord(m, i));
      InstructionListReads(data, p + |w|, AfterWord(m, i), rest, before + [i]);
      WordsReadStep(ParseInstructionList(data, p, m, |xs|, before), m, AfterWord(m, i), p, i, rest, before, |w|, |Joined(rest, write)|);
    }
  }

  // ---------- tables read back ----------

  ghost predicate Spent(m: Metrics, m': Metrics, cost: Cost) {
    && m'.functions <= m.functions + cost.functions && m'.instructions <= m.instructions + cost.words
    && m'.constants <= m.constants + cost.constants
  }

  lemma ConstantsLong(cs: seq<Constant>, tag: Kind -> Byte)
    ensures |WriteConstants(cs, tag)| >= |cs|
  {
    JoinedLong(cs, ConstantWriter(tag), 1);
  }

  lemma CountedConstants(data: seq<Byte>, tags: seq<Kind>, p: nat, m: Metrics, n: nat)
    requires Within(data, p, m) && p + 4 <= |data| && U32(data, p) == n && Room(m, Cost(0, 0, n)) && n <= |data| - (p + 4)
    ensures Within(data, p + 4, m.(constants := m.constants + n))
    ensures ParseConstants(data, tags, p, m) == ParseConstantList(data, tags, p + 4, m.(constants := m.constants + n), n, [])
  {
  }

  /** A table is read: its entries, the place behind it, and no more than it costs. */
  ghost predicate TableRead<T>(r: Parsed<seq<T>>, m: Metrics, p: nat, xs: seq<T>, bytes: nat, cost: Cost) {
    r.Some? && r.value == xs && r.position == p + bytes && Spent(m, r.metrics, cost)
  }

  lemma ListIsTable(r: Parsed<seq<Constant>>, m: Metrics, p: nat, cs: seq<Constant>, bytes: nat)
    requires ConstantsRead(r, m.(constants := m.constants + |cs|), p + 4, cs, [], bytes)
    ensures TableRead(r, m, p, cs, 4 + bytes, Cost(0, 0, |cs|))
  {
    assert [] + cs == cs;
  }

  lemma ConstantsReadBack(data: seq<Byte>, tags: seq<Kind>, tag: Kind -> Byte, p: nat, m: Metrics, cs: seq<Constant>)
    requires TagsFit(tags, tag) && ConstantsOk(cs) && Within(data, p, m) && Room(m, Cost(0, 0, |cs|))
    requires Stands(data, p, LittleEndian(|cs|, 4) + WriteConstants(cs, tag))
    ensures TableRead(ParseConstants(data, tags, p, m), m, p, cs, 4 + |WriteConstants(cs, tag)|, Cost(0, 0, |cs|))
  {
    var n, body := |cs|, WriteConstants(cs, tag);
    StandsSplit(data, p, LittleEndian(n, 4), body);
    U32Reads(data, p, n);
    ConstantsLong(cs, tag);
    CountedConstants(data, tags, p, m, n);
    ConstantListReads(data, tags, tag, p + 4, m.(constants := m.constants + n), cs, []);
    ListIsTable(ParseConstants(data, tags, p, m), m, p, cs, |body|);
  }

  lemma InstructionsReadBack(data: seq<Byte>, p: nat, m: Metrics, xs: seq<Instruction>)
    requires InstructionsOk(xs, 0) && Within(data, p, m) && Room(m, Cost(0, |xs|, 0))
    requires Stands(data, p, LittleEndian(|xs|, 4) + WriteInstructions(xs))
    ensures TableRead(ParseInstructions(data, p, m), m, p, xs, 4 + |WriteInstructions(xs)|, Cost(0, |xs|, 0))
  {
    StandsSplit(data, p, LittleEndian(|xs|, 4), WriteInstructions(xs));
    U32Reads(data, p, |xs|);
    JoinedLong(xs, InstructionWriter(), 1);
    InstructionListReads(data, p + 4, m, xs, []);
    assert [] + xs == xs;
  }

  // ---------- trees read back ----------

  ghost predicate TreesRead(r: Parsed<seq<Tree>>, m: Metrics, p: nat, ts: seq<Tree>, before: seq<Tree>, bytes: nat, cost: Cost) {
    r.Some? && r.value == before + ts && r.position == p + bytes && Spent(m, r.metrics, cost)
  }

  /** The bytes of these trees, wherever they stand and whatever was read before, are read as these trees. */
  ghost predicate ReadsBack(data: seq<Byte>, order: seq<Step>, tags: seq<Kind>, depth: nat, ts: seq<Tree>, bytes: seq<Byte>, cost: Cost) {
    forall p: nat, m: Metrics {:trigger ReadsAt(data, order, tags, depth, ts, bytes, cost, p, m)} ::
      ReadsAt(data, order, tags, depth, ts, bytes, cost, p, m)
  }

  ghost predicate ReadsAt(data: seq<Byte>, order: seq<Step>, tags: seq<Kind>, depth: nat, ts: seq<Tree>, bytes: seq<Byte>, cost: Cost,
                          p: nat, m: Metrics)
  {
    Within(data, p, m) && depth <= MAX_PROTOTYPE_DEPTH && Stands(data, p, bytes) && Room(m, cost) ==>
      TreesRead(ParseChildren(data, order, tags, p, m, depth, |ts|, []), m, p, ts, [], |bytes|, cost)
  }

  lemma FunctionsReadBack(data: seq<Byte>, order: seq<Step>, tags: seq<Kind>, p: nat, m: Metrics, depth: nat, ts: seq<Tree>,
                          bytes: seq<Byte>, cost: Cost)
    requires Within(data, p, m) && depth <= MAX_PROTOTYPE_DEPTH && Room(m, cost) && |ts| <= cost.functions && 5 * |ts| <= |bytes|
    requires Stands(data, p, LittleEndian(|ts|, 4) + bytes) && ReadsBack(data, order, tags, depth, ts, bytes, cost)
    ensures TableRead(ParseFunctions(data, order, tags, p, m, depth), m, p, ts, 4 + |bytes|, cost)
  {
    StandsSplit(data, p, LittleEndian(|ts|, 4), bytes);
    U32Reads(data, p, |ts|);
    assert ReadsAt(data, order, tags, depth, ts, bytes, cost, p + 4, m);
    assert [] + ts == ts;
  }

  function StepCost(t: Tree, step: Step, below: Cost): Cost {
    match step {
      case Constants => Cost(0, 0, |t.constants|)
      case Instructions => Cost(0, |t.instructions|, 0)
      case Functions => below
      case Parameters => Cost(0, 0, 0)
    }
  }

  /** The node with one part taken from `t`. */
  function Filled(node: Tree, t: Tree, step: Step): Tree {
    match step {
      case Constants => node.(constants := t.constants)
      case Instructions => node.(instructions := t.instructions)
      case Functions => node.(children := t.children)
      case Parameters => node.(parameters := t.parameters)
    }
  }

  /** The children of a node as they are written, and that they read back. */
  ghost predicate ChildrenOk(data: seq<Byte>, order: seq<Step>, tags: seq<Kind>, depth: nat, t: Tree, bytes: seq<Byte>, below: Cost) {
    |t.children| <= below.functions && 5 * |t.children| <= |bytes| && ReadsBack(data, order, tags, depth, t.children, bytes, below)
  }

  lemma StepReads(data: seq<Byte>, order: seq<Step>, tags: seq<Kind>, tag: Kind -> Byte, p: nat, m: Metrics, depth: nat, step: Step,
                  node: Tree, t: Tree, bytes: seq<Byte>, below: Cost)
    requires TagsFit(tags, tag) && NodeOk(t) && Within(data, p, m) && depth <= MAX_PROTOTYPE_DEPTH && Room(m, StepCost(t, step, below))
    requires Stands(data, p, WriteStep(t, step, tag, bytes)) && ChildrenOk(data, order, tags, depth, t, bytes, below)
    ensures var r := ParseStep(data, order, tags, p, m, depth, step, node);
      && r.Some? && r.value == Filled(node, t, step) && r.position == p + |WriteStep(t, step, tag, bytes)|
      && Spent(m, r.metrics, StepCost(t, step, below))
  {
    match step {
      case Constants => ConstantsReadBack(data, tags, tag, p, m, t.constants);
      case Instructions => InstructionsReadBack(data, p, m, t.instructions);
      case Functions => FunctionsReadBack(data, order, tags, p, m, depth, t.children, bytes, below);
      case Parameters => StandsAt(data, p, [t.parameters % 256], 0);
    }
  }

  /** What the steps from number `k` on cost, when no step comes twice. */
  function Remaining(t: Tree, order: seq<Step>, k: nat, below: Cost): Cost
    requires k <= |order|
    decreases |order| - k
  {
    if k == |order| then Cost(0, 0, 0) else Both(StepCost(t, order[k], below), Remaining(t, order, k + 1, below))
  }

  function FilledFrom(node: Tree, t: Tree, order: seq<Step>, k: nat): Tree
    requires k <= |order|
    decreases |order| - k
  {
    if k == |order| then node else FilledFrom(Filled(node, t, order[k]), t, order, k + 1)
  }

  ghost predicate NodeRead(r: Parsed<Tree>, m: Metrics, p: nat, t: Tree, bytes: nat, cost: Cost) {
    r.Some? && r.value == t && r.position == p + bytes && Spent(m, r.metrics, cost)
  }

  /** Step `k`, the bytes `w` at `p`, is read, and the others are read from behind it. */
  ghost predicate StepGoesOn(data: seq<Byte>, order: seq<Step>, tags: seq<Kind>, depth: nat, t: Tree, below: Cost, k: nat, node: Tree,
                             p: nat, m: Metrics, w: seq<Byte>, m': Metrics)
  {
    && k < |order| && depth <= MAX_PROTOTYPE_DEPTH && Within(data, p, m) && Within(data, p + |w|, m')
    && Spent(m, m', StepCost(t, order[k], below))
    && ParseSteps(data, order, tags, p, m, depth, k, node)
    == ParseSteps(data, order, tags, p + |w|, m', depth, k + 1, Filled(node, t, order[k]))
  }

  ghost predicate StepTaken(data: seq<Byte>, order: seq<Step>, tags: seq<Kind>, depth: nat, t: Tree, below: Cost, write: Step -> seq<Byte>,
                            k: nat, node: Tree, p: nat, m: Metrics)
  {
    k < |order| && depth <= MAX_PROTOTYPE_DEPTH && Within(data, p, m) && Room(m, StepCost(t, order[k], below))
    && Stands(data, p, write(order[k])) ==>
      exists m' :: StepGoesOn(data, order, tags, depth, t, below, k, node, p, m, write(order[k]), m')
  }

  /** Every step that `write` spells is read wherever it stands. */
  ghost predicate TakesSteps(data: seq<Byte>, order: seq<Step>, tags: seq<Kind>, depth: nat, t: Tree, below: Cost, write: Step -> seq<Byte>) {
    forall k: nat, node: Tree, p: nat, m: Metrics {:trigger StepTaken(data, order, tags, depth, t, below, write, k, node, p, m)} ::
      StepTaken(data, order, tags, depth, t, below, write, k, node, p, m)
  }

  lemma OneStepReads(data: seq<Byte>, order: seq<Step>, tags: seq<Kind>, tag: Kind -> Byte, p: nat, m: Metrics, depth: nat, k: nat,
                     node: Tree, t: Tree, bytes: seq<Byte>, below: Cost) returns (p': nat, m': Metrics)
    requires TagsFit(tags, tag) && NodeOk(t) && Within(data, p, m) && depth <= MAX_PROTOTYPE_DEPTH && k < |order|
    requires Room(m, StepCost(t, order[k], below))
    requires Stands(data, p, WriteStep(t, order[k], tag, bytes)) && ChildrenOk(data, order, tags, depth, t, bytes, below)
    ensures p' == p + |WriteStep(t, order[k], tag, bytes)| && Spent(m, m', StepCost(t, order[k], below)) && Within(data, p', m')
    ensures ParseSteps(data, order, tags, p, m, depth, k, node)
         == ParseSteps(data, order, tags, p', m', depth, k + 1, Filled(node, t, order[k]))
  {
    StepReads(data, order, tags, tag, p, m, depth, order[k], node, t, bytes, below);
    var r := ParseStep(data, order, tags, p, m, depth, order[k], node);
    p', m' := r.position, r.metrics;
  }

  lemma StepWriterTakes(data: seq<Byte>, order: seq<Step>, tags: seq<Kind>, tag: Kind -> Byte, depth: nat, t: Tree, bytes: seq<Byte>, below: Cost)
    requires TagsFit(tags, tag) && NodeOk(t) && ChildrenOk(data, order, tags, depth, t, bytes, below)
    ensures TakesSteps(data, order, tags, depth, t, below, StepWriter(t, tag, bytes))
  {
    var write := StepWriter(t, tag, bytes);
    forall k: nat, node: Tree, p: nat, m: Metrics ensures StepTaken(data, order, tags, depth, t, below, write, k, node, p, m) {
      if k < |order| && depth <= MAX_PROTOTYPE_DEPTH && Within(data, p, m) && Room(m, StepCost(t, order[k], below))
         && Stands(data, p, write(order[k]))
      {
        var p', m' := OneStepReads(data, order, tags, tag, p, m, depth, k, node, t, bytes, below);
        assert StepGoesOn(data, order, tags, depth, t, below, k, node, p, m, write(order[k]), m');
      }
    }
  }

  lemma StepStands(data: seq<Byte>, p: nat, order: seq<Step>, k: nat, write: Step -> seq<Byte>)
    requires k < |order| && Stands(data, p, WriteSteps(order, k, write))
    ensures Stands(data, p, write(order[k])) && Stands(data, p + |write(order[k])|, WriteSteps(order, k + 1, write))
    ensures |WriteSteps(order, k, write)| == |write(order[k])| + |WriteSteps(order, k + 1, write)|
  {
    StandsSplit(data, p, write(order[k]), WriteSteps(order, k + 1, write));
  }

  lemma StepValues(t: Tree, order: seq<Step>, k: nat, below: Cost, node: Tree, m: Metrics) returns (node': Tree, cost: Cost, others: Cost)
    requires k < |order| && Room(m, Remaining(t, order, k, below))
    ensures cost == StepCost(t, order[k], below) && node' == Filled(node, t, order[k]) && Room(m, cost) && Room(m, Both(cost, others))
    ensures others == Remaining(t, order, k + 1, below) && Remaining(t, order, k, below) == Both(cost, others)
    ensures FilledFrom(node, t, order, k) == FilledFrom(node', t, order, k + 1)
  {
    cost, others, node' := StepCost(t, order[k], below), Remaining(t, order, k + 1, below), Filled(node, t, order[k]);
  }

  lemma TakenStepGoesOn(data: seq<Byte>, order: seq<Step>, tags: seq<Kind>, depth: nat, t: Tree, below: Cost, write: Step -> seq<Byte>,
                        k: nat, node: Tree, p: nat, m: Metrics) returns (own: nat, p': nat, m': Metrics, r: Parsed<Tree>)
    requires TakesSteps(data, order, tags, depth, t, below, write) && Within(data, p, m) && depth <= MAX_PROTOTYPE_DEPTH && k < |order|
    requires Room(m, StepCost(t, order[k], below)) && Stands(data, p, write(order[k]))
    ensures own == |write(order[k])| && p' == p + own && Spent(m, m', StepCost(t, order[k], below)) && Within(data, p', m')
    ensures r == ParseSteps(data, order, tags, p, m, depth, k, node)
    ensures r == ParseSteps(data, order, tags, p', m', depth, k + 1, Filled(node, t, order[k]))
  {
    var w := write(order[k]);
    assert StepTaken(data, order, tags, depth, t, below, write, k, node, p, m);
    m' :| StepGoesOn(data, order, tags, depth, t, below, k, node, p, m, w, m');
    own, p' := |w|, p + |w|;
    r := ParseSteps(data, order, tags, p, m, depth, k, node);
  }

  lemma {:induction false} StepsRead(data: seq<Byte>, order: seq<Step>, tags: seq<Kind>, p: nat, m: Metrics, depth: nat, k: nat, node: Tree,
                                     t: Tree, below: Cost, write: Step -> seq<Byte>)
    requires TakesSteps(data, order, tags, depth, t, below, write) && Within(data, p, m) && depth <= MAX_PROTOTYPE_DEPTH && k <= |order|
    requires Room(m, Remaining(t, order, k, below)) && Stands(data, p, WriteSteps(order, k, write))
    ensures NodeRead(ParseSteps(data, order, tags, p, m, depth, k, node), m, p, FilledFrom(node, t, order, k),
                     |WriteSteps(order, k, write)|, Remaining(t, order, k, below))
    decreases |order| - k
  {
    if k < |order| {
      StepStands(data, p, order, k, write);
      var node', cost, others := StepValues(t, order, k, below, node, m);
      var own, p', m', r := TakenStepGoesOn(data, order, tags, depth, t, below, write, k, node, p, m);
      LeavesRoom(m, m', cost, others);
      StepsRead(data, order, tags, p', m', depth, k + 1, node', t, below, write);
      NodeReadStep(r, m, m', p, FilledFrom(node, t, order, k), own, |WriteSteps(order, k + 1, write)|, cost, others);
    }
  }

  lemma NodeReadStep(r: Parsed<Tree>, m: Metrics, m': Metrics, p: nat, t: Tree, n: nat, bytes: nat, own: Cost, rest: Cost)
    requires Spent(m, m', own) && NodeRead(r, m', p + n, t, bytes, rest)
    ensures NodeRead(r, m, p, t, n + bytes, Both(own, rest))
  {
  }

  // ---------- layouts ----------

  /** A layout has every step. */
  lemma LayoutHasAll(order: seq<Step>)
    requires IsLayout(order)
    ensures Constants in order && Instructions in order && Functions in order && Parameters in order
  {
    var a, b, c, d := order[0], order[1], order[2], order[3];
    assert a != b && a != c && a != d && b != c && b != d && c != d;
    assert forall s :: s in {a, b, c, d} ==> s in order;
  }

  lemma LayoutFills(t: Tree, order: seq<Step>, node: Tree)
    requires IsLayout(order)
    ensures FilledFrom(node, t, order, 0) == t
  {
    LayoutHasAll(order);
    var n1 := Filled(node, t, order[0]);
    var n2 := Filled(n1, t, order[1]);
    var n3 := Filled(n2, t, order[2]);
    var n4 := Filled(n3, t, order[3]);
    assert FilledFrom(n3, t, order, 3) == n4;
    assert FilledFrom(n2, t, order, 2) == n4;
    assert FilledFrom(n1, t, order, 1) == n4;
    assert FilledFrom(node, t, order, 0) == n4;
    FilledAll(node, t, order[0], order[1], order[2], order[3]);
  }

  lemma FilledAll(node: Tree, t: Tree, a: Step, b: Step, c: Step, d: Step)
    requires a != b && a != c && a != d && b != c && b != d && c != d
    ensures Filled(Filled(Filled(Filled(node, t, a), t, b), t, c), t, d) == t
  {
  }

  lemma LayoutCosts(t: Tree, order: seq<Step>, below: Cost)
    requires IsLayout(order)
    ensures Remaining(t, order, 0, below) == Both(Cost(0, |t.instructions|, |t.constants|), below)
  {
    assert Remaining(t, order, 4, below) == Cost(0, 0, 0);
    assert Remaining(t, order, 3, below) == Both(StepCost(t, order[3], below), Cost(0, 0, 0));
    assert Remaining(t, order, 2, below) == Both(StepCost(t, order[2], below), Remaining(t, order, 3, below));
    assert Remaining(t, order, 1, below) == Both(StepCost(t, order[1], below), Remaining(t, order, 2, below));
    CostsAll(t, below, order[0], order[1], order[2], order[3]);
  }

  function Sum4(f: Step -> nat, a: Step, b: Step, c: Step, d: Step): nat {
    f(a) + f(b) + f(c) + f(d)
  }

  /** Four different steps are all the steps, in whatever order. */
  lemma SumAll(f: Step -> nat, a: Step, b: Step, c: Step, d: Step)
    requires a != b && a != c && a != d && b != c && b != d && c != d
    ensures Sum4(f, a, b, c, d) == f(Constants) + f(Instructions) + f(Functions) + f(Parameters)
  {
  }

  lemma FunctionCosts(t: Tree, below: Cost, a: Step, b: Step, c: Step, d: Step)
    requires a != b && a != c && a != d && b != c && b != d && c != d
    ensures StepCost(t, a, below).functions + StepCost(t, b, below).functions + StepCost(t, c, below).functions
          + StepCost(t, d, below).functions == below.functions
  {
    SumAll((s: Step) => StepCost(t, s, below).functions, a, b, c, d);
  }

  lemma WordCosts(t: Tree, below: Cost, a: Step, b: Step, c: Step, d: Step)
    requires a != b && a != c && a != d && b != c && b != d && c != d
    ensures StepCost(t, a, below).words + StepCost(t, b, below).words + StepCost(t, c, below).words + StepCost(t, d, below).words
         == |t.instructions| + below.words
  {
    SumAll((s: Step) => StepCost(t, s, below).words, a, b, c, d);
  }

  lemma ConstantCosts(t: Tree, below: Cost, a: Step, b: Step, c: Step, d: Step)
    requires a != b && a != c && a != d && b != c && b != d && c != d
    ensures StepCost(t, a, below).constants + StepCost(t, b, below).constants + StepCost(t, c, below).constants
          + StepCost(t, d, below).constants == |t.constants| + below.constants
  {
    SumAll((s: Step) => StepCost(t, s, below).constants, a, b, c, d);
  }

  lemma CostsAdd(x: Cost, y: Cost, z: Cost, w: Cost, total: Cost)
    requires x.functions + y.functions + z.functions + w.functions == total.functions
    requires x.words + y.words + z.words + w.words == total.words
    requires x.constants + y.constants + z.constants + w.constants == total.constants
    ensures Both(x, Both(y, Both(z, Both(w, Cost(0, 0, 0))))) == total
  {
  }

  lemma CostsAll(t: Tree, below: Cost, a: Step, b: Step, c: Step, d: Step)
    requires a != b && a != c && a != d && b != c && b != d && c != d
    ensures Both(StepCost(t, a, below), Both(StepCost(t, b, below), Both(StepCost(t, c, below), Both(StepCost(t, d, below), Cost(0, 0, 0)))))
         == Both(Cost(0, |t.instructions|, |t.constants|), below)
  {
    FunctionCosts(t, below, a, b, c, d);
    WordCosts(t, below, a, b, c, d);
    ConstantCosts(t, below, a, b, c, d);
    CostsAdd(StepCost(t, a, below), StepCost(t, b, below), StepCost(t, c, below), StepCost(t, d, below),
             Both(Cost(0, |t.instructions|, |t.constants|), below));
  }

  lemma {:induction false} StepsLong(t: Tree, order: seq<Step>, k: nat, tag: Kind -> Byte, bytes: seq<Byte>)
    requires k <= |order|
    ensures |WriteSteps(order, k, StepWriter(t, tag, bytes))| >= (if Functions in order[k..] then 4 else 0) + (if Parameters in order[k..] then 1 else 0)
    decreases |order| - k
  {
    if k < |order| {
      StepsLong(t, order, k + 1, tag, bytes);
      assert order[k..] == [order[k]] + order[k + 1..];
    }
  }

  lemma NodeLong(t: Tree, order: seq<Step>, tag: Kind -> Byte, bytes: seq<Byte>)
    requires IsLayout(order)
    ensures |WriteNode(t, order, tag, bytes)| >= 5
  {
    LayoutHasAll(order);
    StepsLong(t, order, 0, tag, bytes);
    assert order[0..] == order;
  }

  ghost predicate NodesLong(write: (Tree, seq<Byte>) -> seq<Byte>) {
    forall t, bytes {:trigger write(t, bytes)} :: |write(t, bytes)| >= 5
  }

  lemma {:induction false} TreesLong(ts: seq<Tree>, write: (Tree, seq<Byte>) -> seq<Byte>)
    requires NodesLong(write)
    ensures |Forest(ts, write)| >= 5 * |ts| && SurveyOf(ts).cost.functions >= |ts|
    decreases |ts|
  {
    if ts != [] {
      TreesLong(ts[1..], write);
    }
  }

  lemma NodeWriterLong(order: seq<Step>, tag: Kind -> Byte)
    requires IsLayout(order)
    ensures NodesLong(NodeWriter(order, tag))
  {
    var write := NodeWriter(order, tag);
    forall t, bytes ensures |write(t, bytes)| >= 5 {
      NodeLong(t, order, tag, bytes);
    }
  }

  // ---------- the round trip ----------

  lemma FunctionReads(data: seq<Byte>, order: seq<Step>, tags: seq<Kind>, tag: Kind -> Byte, p: nat, m: Metrics, depth: nat, t: Tree,
                      bytes: seq<Byte>, below: Cost) returns (m': Metrics)
    requires TagsFit(tags, tag) && IsLayout(order) && NodeOk(t) && Within(data, p, m) && depth <= MAX_PROTOTYPE_DEPTH
    requires Room(m, Both(Cost(1, |t.instructions|, |t.constants|), below))
    requires Stands(data, p, WriteNode(t, order, tag, bytes)) && ChildrenOk(data, order, tags, depth, t, bytes, below)
    ensures ParseFunction(data, order, tags, p, m, depth) == Some(t, p + |WriteNode(t, order, tag, bytes)|, m')
    ensures Spent(m, m', Both(Cost(1, |t.instructions|, |t.constants|), below))
  {
    var node := FunctionIsSteps(data, order, tags, p, m, depth);
    var m1 := m.(functions := m.functions + 1);
    LayoutCosts(t, order, below);
    StepWriterTakes(data, order, tags, tag, depth, t, bytes, below);
    StepsRead(data, order, tags, p, m1, depth, 0, node, t, below, StepWriter(t, tag, bytes));
    LayoutFills(t, order, node);
    m' := ParseSteps(data, order, tags, p, m1, depth, 0, node).metrics;
  }

  lemma TreesReadStep(r: Parsed<seq<Tree>>, m: Metrics, m': Metrics, p: nat, t: Tree, ts: seq<Tree>, before: seq<Tree>, n: nat, bytes: nat,
                      own: Cost, rest: Cost)
    requires Spent(m, m', own) && TreesRead(r, m', p + n, ts, before + [t], bytes, rest)
    ensures TreesRead(r, m, p, [t] + ts, before, n + bytes, Both(own, rest))
  {
    assert before + [t] + ts == before + ([t] + ts);
  }

  lemma LeavesRoom(m: Metrics, m': Metrics, own: Cost, rest: Cost)
    requires Room(m, Both(own, rest)) && Spent(m, m', own)
    ensures Room(m', rest)
  {
  }

  lemma FirstHasRoom(m: Metrics, own: Cost, rest: Cost)
    requires Room(m, Both(own, rest))
    ensures Room(m, own)
  {
  }

  // ----- one tree of several -----

  ghost predicate GoesOnAt(data: seq<Byte>, order: seq<Step>, tags: seq<Kind>, p: nat, m: Metrics, depth: nat, t: Tree, p': nat, m': Metrics,
                           n: nat, before: seq<Tree>)
  {
    Within(data, p, m) && Within(data, p', m') && depth <= MAX_PROTOTYPE_DEPTH && n > 0 ==>
      ParseChildren(data, order, tags, p, m, depth, n, before) == ParseChildren(data, order, tags, p', m', depth, n - 1, before + [t])
  }

  /** However many trees are to be read at `p`, the first is `t`, and the others are read from `p'`. */
  ghost predicate GoesOn(data: seq<Byte>, order: seq<Step>, tags: seq<Kind>, p: nat, m: Metrics, depth: nat, t: Tree, p': nat, m': Metrics) {
    forall n: nat, before: seq<Tree> {:trigger GoesOnAt(data, order, tags, p, m, depth, t, p', m', n, before)} ::
      GoesOnAt(data, order, tags, p, m, depth, t, p', m', n, before)
  }

  lemma ChildrenGoOn(data: seq<Byte>, order: seq<Step>, tags: seq<Kind>, p: nat, m: Metrics, depth: nat, t: Tree, p': nat, m': Metrics)
    requires Within(data, p, m) && depth <= MAX_PROTOTYPE_DEPTH
    requires ParseFunction(data, order, tags, p, m, depth + 1) == Some(t, p', m')
    ensures GoesOn(data, order, tags, p, m, depth, t, p', m')
  {
  }

  /** The tree whose bytes are `w` is read at `p`, below a node at `depth`. */
  ghost predicate TreeTaken(data: seq<Byte>, order: seq<Step>, tags: seq<Kind>, depth: nat, t: Tree, w: seq<Byte>, p: nat, m: Metrics) {
    Within(data, p, m) && Room(m, Whole(t)) && Stands(data, p, w) ==>
      exists m' :: Spent(m, m', Whole(t)) && Within(data, p + |w|, m') && GoesOn(data, order, tags, p, m, depth, t, p + |w|, m')
  }

  ghost predicate TakesTree(data: seq<Byte>, order: seq<Step>, tags: seq<Kind>, depth: nat, t: Tree, w: seq<Byte>) {
    forall p: nat, m: Metrics {:trigger TreeTaken(data, order, tags, depth, t, w, p, m)} :: TreeTaken(data, order, tags, depth, t, w, p, m)
  }

  ghost predicate NodeTaken(data: seq<Byte>, order: seq<Step>, tags: seq<Kind>, write: (Tree, seq<Byte>) -> seq<Byte>, depth: nat, t: Tree,
                            bytes: seq<Byte>)
  {
    NodeOk(t) && depth < MAX_PROTOTYPE_DEPTH && ChildrenOk(data, order, tags, depth + 1, t, bytes, SurveyOf(t.children).cost) ==>
      TakesTree(data, order, tags, depth, t, write(t, bytes))
  }

  /** Whatever tree `write` spells is read, once its children are. */
  ghost predicate TakesNodes(data: seq<Byte>, order: seq<Step>, tags: seq<Kind>, write: (Tree, seq<Byte>) -> seq<Byte>) {
    forall depth: nat, t: Tree, bytes: seq<Byte> {:trigger NodeTaken(data, order, tags, write, depth, t, bytes)} ::
      NodeTaken(data, order, tags, write, depth, t, bytes)
  }

  lemma NodeWriterTakes(data: seq<Byte>, order: seq<Step>, tags: seq<Kind>, tag: Kind -> Byte)
    requires TagsFit(tags, tag) && IsLayout(order)
    ensures TakesNodes(data, order, tags, NodeWriter(order, tag))
  {
    var write := NodeWriter(order, tag);
    forall depth: nat, t: Tree, bytes: seq<Byte> ensures NodeTaken(data, order, tags, write, depth, t, bytes) {
      if NodeOk(t) && depth < MAX_PROTOTYPE_DEPTH && ChildrenOk(data, order, tags, depth + 1, t, bytes, SurveyOf(t.children).cost) {
        NodeTakes(data, order, tags, tag, depth, t, bytes, write(t, bytes));
      }
    }
  }

  lemma NodeTakes(data: seq<Byte>, order: seq<Step>, tags: seq<Kind>, tag: Kind -> Byte, depth: nat, t: Tree, bytes: seq<Byte>, w: seq<Byte>)
    requires TagsFit(tags, tag) && IsLayout(order) && NodeOk(t) && depth < MAX_PROTOTYPE_DEPTH
    requires ChildrenOk(data, order, tags, depth + 1, t, bytes, SurveyOf(t.children).cost) && w == WriteNode(t, order, tag, bytes)
    ensures TakesTree(data, order, tags, depth, t, w)
  {
    forall p: nat, m: Metrics ensures TreeTaken(data, order, tags, depth, t, w, p, m) {
      if Within(data, p, m) && Room(m, Whole(t)) && Stands(data, p, w) {
        var m' := NodeParsed(data, order, tags, tag, depth, t, bytes, w, p, m);
      }
    }
  }

  lemma NodeParsed(data: seq<Byte>, order: seq<Step>, tags: seq<Kind>, tag: Kind -> Byte, depth: nat, t: Tree, bytes: seq<Byte>, w: seq<Byte>,
                   p: nat, m: Metrics) returns (m': Metrics)
    requires TagsFit(tags, tag) && IsLayout(order) && NodeOk(t) && depth < MAX_PROTOTYPE_DEPTH && Within(data, p, m) && Room(m, Whole(t))
    requires ChildrenOk(data, order, tags, depth + 1, t, bytes, SurveyOf(t.children).cost)
    requires w == WriteNode(t, order, tag, bytes) && Stands(data, p, w)
    ensures Spent(m, m', Whole(t)) && Within(data, p + |w|, m') && GoesOn(data, order, tags, p, m, depth, t, p + |w|, m')
  {
    m' := FunctionReads(data, order, tags, tag, p, m, depth + 1, t, bytes, SurveyOf(t.children).cost);
    ChildrenGoOn(data, order, tags, p, m, depth, t, p + |w|, m');
  }

  // ----- all of them -----

  /** Trees that can be written stand at `p`, with room for them. */
  ghost predicate Standing(data: seq<Byte>, write: (Tree, seq<Byte>) -> seq<Byte>, p: nat, m: Metrics, depth: nat, ts: seq<Tree>) {
    && SurveyOf(ts).ok && depth + SurveyOf(ts).levels <= MAX_PROTOTYPE_DEPTH
    && Within(data, p, m) && Room(m, SurveyOf(ts).cost) && Stands(data, p, Forest(ts, write))
  }

  lemma FirstTree(ts: seq<Tree>, depth: nat)
    requires ts != [] && SurveyOf(ts).ok && depth + SurveyOf(ts).levels <= MAX_PROTOTYPE_DEPTH
    ensures NodeOk(ts[0]) && SurveyOf(ts[0].children).ok && depth + 1 + SurveyOf(ts[0].children).levels <= MAX_PROTOTYPE_DEPTH
    ensures SurveyOf(ts[1..]).ok && depth + SurveyOf(ts[1..]).levels <= MAX_PROTOTYPE_DEPTH
    ensures SurveyOf(ts).cost == Both(Whole(ts[0]), SurveyOf(ts[1..]).cost) && ts == [ts[0]] + ts[1..]
  {
  }

  lemma FirstStands(data: seq<Byte>, p: nat, ts: seq<Tree>, write: (Tree, seq<Byte>) -> seq<Byte>) returns (own: seq<Byte>)
    requires ts != [] && Stands(data, p, Forest(ts, write))
    ensures own == write(ts[0], Forest(ts[0].children, write)) && Stands(data, p, own) && Stands(data, p + |own|, Forest(ts[1..], write))
    ensures |Forest(ts, write)| == |own| + |Forest(ts[1..], write)|
  {
    own := write(ts[0], Forest(ts[0].children, write));
    StandsSplit(data, p, own, Forest(ts[1..], write));
  }

  lemma RestStands(data: seq<Byte>, write: (Tree, seq<Byte>) -> seq<Byte>, p: nat, m: Metrics, depth: nat, ts: seq<Tree>, p': nat, m': Metrics)
    requires ts != [] && Standing(data, write, p, m, depth, ts) && Within(data, p', m') && Spent(m, m', Whole(ts[0]))
    requires Stands(data, p', Forest(ts[1..], write))
    ensures Standing(data, write, p', m', depth, ts[1..])
  {
    FirstTree(ts, depth);
    LeavesRoom(m, m', Whole(ts[0]), SurveyOf(ts[1..]).cost);
  }

  /** The first tree is read, and the others stand behind it. */
  lemma FirstTreeReads(data: seq<Byte>, order: seq<Step>, tags: seq<Kind>, write: (Tree, seq<Byte>) -> seq<Byte>, p: nat, m: Metrics, depth: nat,
                       ts: seq<Tree>) returns (w: seq<Byte>, m': Metrics)
    requires TakesNodes(data, order, tags, write) && ts != [] && Standing(data, write, p, m, depth, ts)
    requires ChildrenOk(data, order, tags, depth + 1, ts[0], Forest(ts[0].children, write), SurveyOf(ts[0].children).cost)
    ensures Spent(m, m', Whole(ts[0])) && Within(data, p + |w|, m') && GoesOn(data, order, tags, p, m, depth, ts[0], p + |w|, m')
    ensures Stands(data, p + |w|, Forest(ts[1..], write)) && |Forest(ts, write)| == |w| + |Forest(ts[1..], write)|
  {
    FirstTree(ts, depth);
    w := FirstStands(data, p, ts, write);
    FirstHasRoom(m, Whole(ts[0]), SurveyOf(ts[1..]).cost);
    assert NodeTaken(data, order, tags, write, depth, ts[0], Forest(ts[0].children, write));
    assert TreeTaken(data, order, tags, depth, ts[0], w, p, m);
    m' :| Spent(m, m', Whole(ts[0])) && Within(data, p + |w|, m') && GoesOn(data, order, tags, p, m, depth, ts[0], p + |w|, m');
  }

  lemma NoTreesRead(data: seq<Byte>, order: seq<Step>, tags: seq<Kind>, write: (Tree, seq<Byte>) -> seq<Byte>, p: nat, m: Metrics, depth: nat,
                    before: seq<Tree>)
    requires depth <= MAX_PROTOTYPE_DEPTH && Within(data, p, m)
    ensures TreesRead(ParseChildren(data, order, tags, p, m, depth, 0, before), m, p, [], before, |Forest([], write)|, SurveyOf([]).cost)
  {
  }

  lemma {:induction false} ChildrenRead(data: seq<Byte>, order: seq<Step>, tags: seq<Kind>, write: (Tree, seq<Byte>) -> seq<Byte>, p: nat,
                                        m: Metrics, depth: nat, ts: seq<Tree>, before: seq<Tree>) returns (r: Parsed<seq<Tree>>)
    requires TakesNodes(data, order, tags, write) && NodesLong(write) && Standing(data, write, p, m, depth, ts)
    ensures depth <= MAX_PROTOTYPE_DEPTH && Within(data, p, m) && r == ParseChildren(data, order, tags, p, m, depth, |ts|, before)
    ensures TreesRead(r, m, p, ts, before, |Forest(ts, write)|, SurveyOf(ts).cost)
    decreases ts, 0
  {
    if ts == [] {
      NoTreesRead(data, order, tags, write, p, m, depth, before);
      r := ParseChildren(data, order, tags, p, m, depth, 0, before);
    } else {
      FirstTree(ts, depth);
      ChildrenOfReadBack(data, order, tags, write, depth + 1, ts[0]);
      var w, m' := FirstTreeReads(data, order, tags, write, p, m, depth, ts);
      RestStands(data, write, p, m, depth, ts, p + |w|, m');
      assert GoesOnAt(data, order, tags, p, m, depth, ts[0], p + |w|, m', |ts|, before);
      r := ChildrenRead(data, order, tags, write, p + |w|, m', depth, ts[1..], before + [ts[0]]);
      TreesReadStep(r, m, m', p, ts[0], ts[1..], before, |w|, |Forest(ts[1..], write)|, Whole(ts[0]), SurveyOf(ts[1..]).cost);
    }
  }

  lemma {:induction false} ChildrenOfReadBack(data: seq<Byte>, order: seq<Step>, tags: seq<Kind>, write: (Tree, seq<Byte>) -> seq<Byte>,
                                              depth: nat, t: Tree)
    requires TakesNodes(data, order, tags, write) && NodesLong(write)
    requires SurveyOf(t.children).ok && depth + SurveyOf(t.children).levels <= MAX_PROTOTYPE_DEPTH
    ensures ChildrenOk(data, order, tags, depth, t, Forest(t.children, write), SurveyOf(t.children).cost)
    decreases t.children, 1
  {
    TreesLong(t.children, write);
    var ts, bytes, cost := t.children, Forest(t.children, write), SurveyOf(t.children).cost;
    forall p: nat, m: Metrics
      ensures ReadsAt(data, order, tags, depth, ts, bytes, cost, p, m)
    {
      if Within(data, p, m) && depth <= MAX_PROTOTYPE_DEPTH && Stands(data, p, bytes) && Room(m, cost) {
        var r := ChildrenRead(data, order, tags, write, p, m, depth, ts, []);
      }
    }
  }

  /** Whatever tree is written, with any step order and any tags, is what its bytes denote. */
  lemma SerializedDenotes(t: Tree, order: seq<Step>, tags: seq<Kind>, tag: Kind -> Byte)
    requires TreeOk(t) && IsLayout(order) && TagsFit(tags, tag)
    ensures var data := Serialized(t, order, tag); Denotes(data, order, tags) == Some(t, |data|, Totals(t))
  {
    var data, write := Serialized(t, order, tag), NodeWriter(order, tag);
    NodeWriterTakes(data, order, tags, tag);
    NodeWriterLong(order, tag);
    ChildrenOfReadBack(data, order, tags, write, 0, t);
    RootReads(data, t, order, tags, tag, Forest(t.children, write));
    DenotedTotals(data, order, tags);
  }

  lemma RootReads(data: seq<Byte>, t: Tree, order: seq<Step>, tags: seq<Kind>, tag: Kind -> Byte, bytes: seq<Byte>)
    requires TreeOk(t) && IsLayout(order) && TagsFit(tags, tag) && data == WriteNode(t, order, tag, bytes)
    requires ChildrenOk(data, order, tags, 0, t, bytes, SurveyOf(t.children).cost)
    ensures Denotes(data, order, tags).Some? && Denotes(data, order, tags).value == t && Denotes(data, order, tags).position == |data|
  {
    assert data[0..0 + |data|] == data;
    StandsIff(data, 0, data);
    var m := FunctionReads(data, order, tags, tag, 0, ZERO, 0, t, bytes, SurveyOf(t.children).cost);
  }
}
