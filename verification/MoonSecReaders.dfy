/** The validating reader, proved to follow the format. */
module MoonSecReaders {
  import opened Bytes
  import opened MoonSecFormat

  /** Checks the structure and counts, without keeping anything else. */
  class SerializedReader {
    const data: seq<Byte>
    const order: seq<Step>
    const tags: seq<Kind>
    var position: nat
    var metrics: Metrics

    constructor (data: seq<Byte>, order: seq<Step>, tags: seq<Kind>)
      ensures this.data == data && this.order == order && this.tags == tags && position == 0 && metrics == ZERO
    {
      this.data, this.order, this.tags := data, order, tags;
      position, metrics := 0, ZERO;
    }

    predicate Valid()
      reads this
    {
      Within(data, position, metrics)
    }

    method ReadByte() returns (ok: bool, value: Byte)
      requires position <= |data|
      modifies this`position
      ensures ok <==> old(position) + 1 <= |data|
      ensures if ok then position == old(position) + 1 && value == data[old(position)] else position == old(position)
    {
      ok, value := position + 1 <= |data|, 0;
      if ok {
        value := data[position];
        position := position + 1;
      }
    }

    method ReadU32() returns (ok: bool, value: nat)
      requires position <= |data|
      modifies this`position
      ensures ok <==> old(position) + 4 <= |data|
      ensures if ok then position == old(position) + 4 && value == U32(data, old(position)) else position == old(position)
    {
      ok, value := position + 4 <= |data|, 0;
      if ok {
        value := U32(data, position);
        position := position + 4;
      }
    }

    method Skip(count: nat) returns (ok: bool)
      requires position <= |data|
      modifies this`position
      ensures ok <==> old(position) + count <= |data|
      ensures position == if ok then old(position) + count else old(position)
    {
      ok := count <= |data| - position;
      if ok {
        position := position + count;
      }
    }

    method ReadConstant() returns (ok: bool, ghost constant: Constant)
      requires Valid()
      modifies this
      ensures Valid()
      ensures var r := ParseConstant(data, tags, old(position), old(metrics));
        if ok then r == Some(constant, position, metrics) else r.None?
    {
      ghost var start := position;
      constant := Constant(Unknown, false, []);
      var tag: Byte;
      ok, tag := ReadByte();
      if !ok {
        return;
      }
      match KindOf(tags, tag) {
        case Unknown =>
        case Boolean =>
          ok := Skip(1);
          if ok {
            constant := Constant(Boolean, data[start + 1] != 0, []);
            metrics := metrics.(nonNilConstants := metrics.nonNilConstants + 1);
          }
        case Number =>
          ok := Skip(8);
          if ok {
            constant := Constant(Number, false, data[start + 1..start + 9]);
            metrics := metrics.(nonNilConstants := metrics.nonNilConstants + 1);
          }
        case String =>
          var length;
          ok, length := ReadU32();
          if !ok || length > |data| - position || length > MAX_PAYLOAD_BYTES {
            ok := false;
            return;
          }
          ok := Skip(length);
          constant := Constant(String, false, data[start + 5..start + 5 + length]);
          metrics := metrics.(nonNilConstants := metrics.nonNilConstants + 1, strings := metrics.strings + 1);
      }
    }

    method ReadConstants() returns (ok: bool, ghost constants: seq<Constant>)
      requires Valid()
      modifies this
      ensures Valid()
      ensures var r := ParseConstants(data, tags, old(position), old(metrics));
        if ok then r == Some(constants, position, metrics) else r.None?
    {
      constants := [];
      var count;
      ok, count := ReadU32();
      if !ok || count > MAX_CONSTANTS - metrics.constants || count > |data| - position {
        ok := false;
        return;
      }
      metrics := metrics.(constants := metrics.constants + count);
      var index := 0;
      while index < count
        invariant 0 <= index <= count && Valid() && ok
        invariant ParseConstantList(data, tags, position, metrics, count - index, constants)
               == ParseConstants(data, tags, old(position), old(metrics))
      {
        ghost var constant;
        ok, constant := ReadConstant();
        if !ok {
          return;
        }
        constants := constants + [constant];
        index := index + 1;
      }
    }

    method ReadInstruction(ghost pc: nat) returns (ok: bool, ghost instruction: Instruction)
      requires Valid() && metrics.instructions < MAX_INSTRUCTIONS
      modifies this
      ensures Valid()
      ensures var r := ParseInstruction(data, old(position), old(metrics), pc);
        if ok then r == Some(instruction, position, metrics) else r.None?
    {
      ghost var r := ParseInstruction(data, position, metrics, pc);
      instruction := Discarded(pc, 0);
      var descriptor: Byte;
      ok, descriptor := ReadByte();
      if !ok {
        return;
      }
      if descriptor % 2 != 0 {
        instruction := Discarded(pc, descriptor);
        return;
      }
      ok := Skip(2);
      if ok {
        ok := Skip(2);
      }
      if ok {
        ok := SkipOperands(descriptor);
      }
      if ok {
        metrics := metrics.(instructions := metrics.instructions + 1);
        instruction := r.value;
      }
    }

    /** The operands, by instruction type: two halves, one word, or a word and a half. */
    method SkipOperands(descriptor: Byte) returns (ok: bool)
      requires position <= |data|
      modifies this`position
      ensures ok <==> old(position) + OperandBytes(descriptor) <= |data|
      ensures position <= |data| && (ok ==> position == old(position) + OperandBytes(descriptor))
    {
      match descriptor / 2 % 4 {
        case 0 =>
          ok := Skip(2);
          if ok {
            ok := Skip(2);
          }
        case 3 =>
          var word;
          ok, word := ReadU32();
          if ok {
            ok := Skip(2);
          }
        case _ =>
          var word;
          ok, word := ReadU32();
      }
    }

    method ReadInstructions() returns (ok: bool, ghost instructions: seq<Instruction>)
      requires Valid()
      modifies this
      ensures Valid()
      ensures var r := ParseInstructions(data, old(position), old(metrics));
        if ok then r == Some(instructions, position, metrics) else r.None?
    {
      instructions := [];
      var count;
      ok, count := ReadU32();
      if !ok || count > MAX_INSTRUCTIONS - metrics.instructions || count > |data| - position {
        ok := false;
        return;
      }
      var index := 0;
      while index < count
        invariant 0 <= index <= count && Valid() && ok && metrics.instructions + (count - index) <= MAX_INSTRUCTIONS
        invariant ParseInstructionList(data, position, metrics, count - index, instructions)
               == ParseInstructions(data, old(position), old(metrics))
      {
        ghost var instruction;
        ok, instruction := ReadInstruction(|instructions|);
        if !ok {
          return;
        }
        instructions := instructions + [instruction];
        index := index + 1;
      }
    }

    method ReadFunctions(depth: nat) returns (ok: bool, ghost children: seq<Tree>)
      requires Valid() && depth <= MAX_PROTOTYPE_DEPTH
      modifies this
      ensures Valid()
      ensures var r := ParseFunctions(data, order, tags, old(position), old(metrics), depth);
        if ok then r == Some(children, position, metrics) else r.None?
      decreases MAX_PROTOTYPE_DEPTH + 1 - depth, 0
    {
      children := [];
      var count;
      ok, count := ReadU32();
      if !ok || count > MAX_FUNCTIONS - metrics.functions || count > |data| / 5 {
        ok := false;
        return;
      }
      var index := 0;
      while index < count
        invariant 0 <= index <= count && Valid() && ok
        invariant ParseChildren(data, order, tags, position, metrics, depth, count - index, children)
               == ParseFunctions(data, order, tags, old(position), old(metrics), depth)
      {
        ghost var child;
        ok, child := ReadFunction(depth + 1);
        if !ok {
          return;
        }
        children := children + [child];
        index := index + 1;
      }
    }

    method ReadStep(depth: nat, step: Step, ghost node: Tree) returns (ok: bool, ghost node': Tree)
      requires Valid() && depth <= MAX_PROTOTYPE_DEPTH
      modifies this
      ensures Valid()
      ensures var r := ParseStep(data, order, tags, old(position), old(metrics), depth, step, node);
        if ok then r == Some(node', position, metrics) else r.None?
      decreases MAX_PROTOTYPE_DEPTH + 1 - depth, 1
    {
      node' := node;
      match step {
        case Constants =>
          ghost var constants;
          ok, constants := ReadConstants();
          node' := node.(constants := constants);
        case Instructions =>
          ghost var instructions;
          ok, instructions := ReadInstructions();
          node' := node.(instructions := instructions);
        case Functions =>
          ghost var children;
          ok, children := ReadFunctions(depth);
          node' := node.(children := children);
        case Parameters =>
          var ignored: Byte;
          ok, ignored := ReadByte();
          node' := node.(parameters := ignored);
      }
    }

    method ReadFunction(depth: nat) returns (ok: bool, ghost tree: Tree)
      requires Valid() && depth <= MAX_PROTOTYPE_DEPTH + 1
      modifies this
      ensures Valid()
      ensures var r := ParseFunction(data, order, tags, old(position), old(metrics), depth);
        if ok then r == Some(tree, position, metrics) else r.None?
      decreases MAX_PROTOTYPE_DEPTH + 1 - depth, 2
    {
      ok, tree := false, EMPTY;
      if depth > MAX_PROTOTYPE_DEPTH || metrics.functions >= MAX_FUNCTIONS {
        return;
      }
      metrics := metrics.(functions := metrics.functions + 1);
      ok := true;
      var k := 0;
      while k < |order|
        invariant 0 <= k <= |order| && Valid() && ok
        invariant ParseSteps(data, order, tags, position, metrics, depth, k, tree)
               == ParseFunction(data, order, tags, old(position), old(metrics), depth)
      {
        ok, tree := ReadStep(depth, order[k], tree);
        if !ok {
          return;
        }
        k := k + 1;
      }
    }

    /** Accepts exactly the data that denote a tree with at least one live instruction, and reports the totals. */
    method Parse() returns (ok: bool, output: Metrics)
      requires position == 0
      modifies this
      ensures ok <==> Accepted(data, order, tags)
      ensures ok ==> output == Denotes(data, order, tags).metrics
    {
      metrics, output := ZERO, ZERO;
      ghost var tree;
      ok, tree := ReadFunction(0);
      if !ok {
        return;
      }
      if position != |data| || metrics.functions == 0 || metrics.instructions == 0 {
        ok := false;
        return;
      }
      output := metrics;
    }
  }

  predicate Accepted(data: seq<Byte>, order: seq<Step>, tags: seq<Kind>) {
    var r := Denotes(data, order, tags);
    r.Some? && r.metrics.functions > 0 && r.metrics.instructions > 0
  }
}
