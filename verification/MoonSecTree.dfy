/** The tree reader, and its agreement with the validating reader. */
module MoonSecTree {
  import opened Bytes
  import opened MoonSecFormat
  import opened MoonSecTotals
  import opened MoonSecReaders

  /** Builds the tree. It keeps only the three counters its limits need; the other two totals are ghost. */
  class VirtualTreeReader {
    const data: seq<Byte>
    const layout: seq<Step>
    const tags: seq<Kind>
    var position: nat
    var functions: nat
    var instructions: nat
    var constants: nat
    ghost var strings: nat
    ghost var nonNil: nat

    constructor (data: seq<Byte>, layout: seq<Step>, tags: seq<Kind>)
      ensures this.data == data && this.layout == layout && this.tags == tags
    {
      this.data, this.layout, this.tags := data, layout, tags;
      position, functions, instructions, constants, strings, nonNil := 0, 0, 0, 0, 0, 0;
    }

    ghost function Tally(): Metrics
      reads this
    {
      Metrics(functions, instructions, constants, strings, nonNil)
    }

    ghost predicate Valid()
      reads this
    {
      Within(data, position, Tally())
    }

    method ReadByte() returns (ok: bool, value: Byte)
      requires position <= |data|
      modifies this`position
      ensures ok <==> old(position) + 1 <= |data|
      ensures if ok then position == old(position) + 1 && value == data[old(position)] else position == old(position)
    {
      ok, value := position + 1 <= |data|, 0;
      if ok {
        value := data[position];
        position := position + 1;
      }
    }

    method ReadI16() returns (ok: bool, value: int)
      requires position <= |data|
      modifies this`position
      ensures ok <==> old(position) + 2 <= |data|
      ensures if ok then position == old(position) + 2 && value == Signed16(U16(data, old(position))) else position == old(position)
    {
      ok, value := position + 2 <= |data|, 0;
      if ok {
        value := Signed16(U16(data, position));
        position := position + 2;
      }
    }

    method ReadI32() returns (ok: bool, value: int)
      requires position <= |data|
      modifies this`position
      ensures ok <==> old(position) + 4 <= |data|
      ensures if ok then position == old(position) + 4 && value == Signed32(U32(data, old(position))) else position == old(position)
    {
      ok, value := position + 4 <= |data|, 0;
      if ok {
        value := Signed32(U32(data, position));
        position := position + 4;
      }
    }

    method ReadU32() returns (ok: bool, value: nat)
      requires position <= |data|
      modifies this`position
      ensures ok <==> old(position) + 4 <= |data|
      ensures if ok then position == old(position) + 4 && value == U32(data, old(position)) else position == old(position)
    {
      ok, value := position + 4 <= |data|, 0;
      if ok {
        value := U32(data, position);
        position := position + 4;
      }
    }

    method ReadBytes(count: nat) returns (ok: bool, value: seq<Byte>)
      requires position <= |data|
      modifies this`position
      ensures ok <==> old(position) + count <= |data|
      ensures if ok then position == old(position) + count && value == data[old(position)..position] else position == old(position)
    {
      ok, value := count <= |data| - position, [];
      if ok {
        value := data[position..position + count];
        position := position + count;
      }
    }

    method ReadConstant() returns (ok: bool, constant: Constant)
      requires Valid()
      modifies this
      ensures Valid()
      ensures var r := ParseConstant(data, tags, old(position), old(Tally()));
        if ok then r == Some(constant, position, Tally()) else r.None?
    {
      constant := Constant(Unknown, false, []);
      var tag: Byte;
      ok, tag := ReadByte();
      if !ok {
        return;
      }
      match KindOf(tags, tag) {
        case Unknown =>
        case Boolean =>
          var value: Byte;
          ok, value := ReadByte();
          constant := Constant(Boolean, value != 0, []);
          nonNil := nonNil + 1;
        case Number =>
          var bytes;
          ok, bytes := ReadBytes(8);
          constant := Constant(Number, false, bytes);
          nonNil := nonNil + 1;
        case String =>
          var length, bytes;
          ok, length := ReadU32();
          if !ok || length > |data| - position || length > MAX_PAYLOAD_BYTES {
            ok := false;
            return;
          }
          ok, bytes := ReadBytes(length);
          constant := Constant(String, false, bytes);
          nonNil, strings := nonNil + 1, strings + 1;
      }
    }

    method ReadConstants() returns (ok: bool, output: seq<Constant>)
      requires Valid()
      modifies this
      ensures Valid()
      ensures var r := ParseConstants(data, tags, old(position), old(Tally()));
        if ok then r == Some(output, position, Tally()) else r.None?
    {
      output := [];
      var count;
      ok, count := ReadU32();
      if !ok || count > MAX_CONSTANTS - constants || count > |data| - position {
        ok := false;
        return;
      }
      constants := constants + count;
      var index := 0;
      while index < count
        invariant 0 <= index <= count && Valid() && ok
        invariant ParseConstantList(data, tags, position, Tally(), count - index, output)
               == ParseConstants(data, tags, old(position), old(Tally()))
      {
        var constant;
        ok, constant := ReadConstant();
        if !ok {
          return;
        }
        output := output + [constant];
        index := index + 1;
      }
    }

    /** B and C, by instruction type. */
    method ReadOperands(descriptor: Byte) returns (ok: bool, b: int, c: int)
      requires position <= |data|
      modifies this`position
      ensures ok <==> old(position) + OperandBytes(descriptor) <= |data|
      ensures position <= |data|
      ensures ok ==> position == old(position) + OperandBytes(descriptor)
      ensures ok ==> b == OperandB(data, descriptor, old(position)) && c == OperandC(data, descriptor, old(position))
    {
      b, c := 0, 0;
      match descriptor / 2 % 4 {
        case 0 =>
          ok, b := ReadI16();
          if ok {
            ok, c := ReadI16();
          }
        case 1 =>
          ok, b := ReadI32();
        case 2 =>
          ok, b := ReadI32();
          b := b - 0x1_0000;
        case _ =>
          ok, b := ReadI32();
          b := b - 0x1_0000;
          if ok {
            ok, c := ReadI16();
          }
      }
    }

    method ReadInstruction(pc: nat) returns (ok: bool, instruction: Instruction)
      requires Valid() && instructions < MAX_INSTRUCTIONS
      modifies this
      ensures Valid()
      ensures var r := ParseInstruction(data, old(position), old(Tally()), pc);
        if ok then r == Some(instruction, position, Tally()) else r.None?
    {
      instruction := Discarded(pc, 0);
      var descriptor: Byte;
      ok, descriptor := ReadByte();
      if !ok {
        return;
      }
      if descriptor % 2 != 0 {
        instruction := Discarded(pc, descriptor);
        return;
      }
      var opNum, a, b, c := 0, 0, 0, 0;
      ok, opNum := ReadI16();
      if ok {
        ok, a := ReadI16();
      }
      if ok {
        ok, b, c := ReadOperands(descriptor);
      }
      if ok {
        instructions := instructions + 1;
        instruction := Live(pc, descriptor, opNum, a, b, c, descriptor / 8 % 2 != 0, descriptor / 16 % 2 != 0, descriptor / 32 % 2 != 0);
      }
    }

    method ReadInstructions() returns (ok: bool, output: seq<Instruction>)
      requires Valid()
      modifies this
      ensures Valid()
      ensures var r := ParseInstructions(data, old(position), old(Tally()));
        if ok then r == Some(output, position, Tally()) else r.None?
    {
      output := [];
      var count;
      ok, count := ReadU32();
      if !ok || count > MAX_INSTRUCTIONS - instructions || count > |data| - position {
        ok := false;
        return;
      }
      var pc := 0;
      while pc < count
        invariant 0 <= pc <= count && Valid() && ok && instructions + (count - pc) <= MAX_INSTRUCTIONS && |output| == pc
        invariant ParseInstructionList(data, position, Tally(), count - pc, output)
               == ParseInstructions(data, old(position), old(Tally()))
      {
        var instruction;
        ok, instruction := ReadInstruction(pc);
        if !ok {
          return;
        }
        output := output + [instruction];
        pc := pc + 1;
      }
    }

    method ReadFunctions(depth: nat) returns (ok: bool, output: seq<Tree>)
      requires Valid() && depth <= MAX_PROTOTYPE_DEPTH
      modifies this
      ensures Valid()
      ensures var r := ParseFunctions(data, layout, tags, old(position), old(Tally()), depth);
        if ok then r == Some(output, position, Tally()) else r.None?
      decreases MAX_PROTOTYPE_DEPTH + 1 - depth, 0
    {
      output := [];
      var count;
      ok, count := ReadU32();
      if !ok || count > MAX_FUNCTIONS - functions || count > |data| / 5 {
        ok := false;
        return;
      }
      var index := 0;
      while index < count
        invariant 0 <= index <= count && Valid() && ok
        invariant ParseChildren(data, layout, tags, position, Tally(), depth, count - index, output)
               == ParseFunctions(data, layout, tags, old(position), old(Tally()), depth)
      {
        var child;
        ok, child := ReadFunction(depth + 1);
        if !ok {
          return;
        }
        output := output + [child];
        index := index + 1;
      }
    }

    method ReadStep(depth: nat, step: Step, node: Tree) returns (ok: bool, node': Tree)
      requires Valid() && depth <= MAX_PROTOTYPE_DEPTH
      modifies this
      ensures Valid()
      ensures var r := ParseStep(data, layout, tags, old(position), old(Tally()), depth, step, node);
        if ok then r == Some(node', position, Tally()) else r.None?
      decreases MAX_PROTOTYPE_DEPTH + 1 - depth, 1
    {
      match step {
        case Constants =>
          var constants;
          ok, constants := ReadConstants();
          node' := node.(constants := constants);
        case Instructions =>
          var instructions;
          ok, instructions := ReadInstructions();
          node' := node.(instructions := instructions);
        case Functions =>
          var children;
          ok, children := ReadFunctions(depth);
          node' := node.(children := children);
        case Parameters =>
          var value: Byte;
          ok, value := ReadByte();
          node' := node.(parameters := value);
      }
    }

    method ReadFunction(depth: nat) returns (ok: bool, tree: Tree)
      requires Valid() && depth <= MAX_PROTOTYPE_DEPTH + 1
      modifies this
      ensures Valid()
      ensures var r := ParseFunction(data, layout, tags, old(position), old(Tally()), depth);
        if ok then r == Some(tree, position, Tally()) else r.None?
      decreases MAX_PROTOTYPE_DEPTH + 1 - depth, 2
    {
      ok, tree := false, EMPTY;
      if depth > MAX_PROTOTYPE_DEPTH || functions >= MAX_FUNCTIONS {
        return;
      }
      functions := functions + 1;
      ok := true;
      var k := 0;
      while k < |layout|
        invariant 0 <= k <= |layout| && Valid() && ok
        invariant ParseSteps(data, layout, tags, position, Tally(), depth, k, tree)
               == ParseFunction(data, layout, tags, old(position), old(Tally()), depth)
      {
        ok, tree := ReadStep(depth, layout[k], tree);
        if !ok {
          return;
        }
        k := k + 1;
      }
    }

    /** Succeeds exactly on data that denote a tree, and returns that tree, all of the data consumed. */
    method Parse() returns (ok: bool, root: Tree)
      modifies this
      ensures var r := Denotes(data, layout, tags);
        if ok then r == Some(root, position, Tally()) && position == |data| else r.None?
    {
      position, functions, instructions, constants, strings, nonNil := 0, 0, 0, 0, 0, 0;
      ok, root := ReadFunction(0);
      ok := ok && position == |data|;
    }
  }

  /**
   Both readers on the same bytes. The tree reader succeeds whenever the validator does, with the totals the validator
   reports; beyond that it accepts only data without a live instruction.
   */
  method InLockStep(data: seq<Byte>, layout: seq<Step>, tags: seq<Kind>) returns (valid: bool, metrics: Metrics, built: bool, root: Tree)
    requires IsLayout(layout)
    ensures valid ==> built && metrics == Totals(root)
    ensures valid <==> built && Totals(root).instructions > 0
    ensures valid ==> metrics.functions <= MAX_FUNCTIONS && metrics.instructions <= MAX_INSTRUCTIONS && metrics.constants <= MAX_CONSTANTS
    ensures valid ==> Height(root) <= MAX_PROTOTYPE_DEPTH
  {
    var validator := new SerializedReader(data, layout, tags);
    valid, metrics := validator.Parse();
    var reader := new VirtualTreeReader(data, layout, tags);
    built, root := reader.Parse();
    DenotedTotals(data, layout, tags);
    if built {
      AtLeastOneFunction(root);
    }
  }

  lemma AtLeastOneFunction(t: Tree)
    ensures Totals(t).functions > 0
  {
  }
}
