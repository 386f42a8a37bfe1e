/** Lua 5.1 instruction words: their fields, and where control goes from them, opcode by opcode. */
module Lua51Words {
  import opened Lua51
  import opened Lua51Proto
  import C = Captures
  import FlagProtocol

  const WORDS := 0x1_0000_0000

  /** The fields of a 32-bit word: six bits of opcode, eight of A, nine each of C and B, which together are Bx. */
  function Decoded(word: nat): Raw {
    Raw(word % 64, word / 64 % 256, word / 0x80_0000 % 512, word / 0x4000 % 512, word / 0x4000 % 0x4_0000)
  }

  function DecodedAll(words: seq<nat>): (raw: seq<Raw>)
    ensures |raw| == |words| && forall pc :: 0 <= pc < |raw| ==> raw[pc] == Decoded(words[pc])
  {
    seq(|words|, pc requires 0 <= pc < |words| => Decoded(words[pc]))
  }

  // ---------- writing words ----------

  /** A word from an opcode and three operands, field by field. */
  function AbcWord(op: nat, a: nat, b: nat, c: nat): nat {
    op + 0x40 * (a + 0x100 * (c + 0x200 * b))
  }

  /** A word whose last operand takes eighteen bits. */
  function AbxWord(op: nat, a: nat, bx: nat): nat {
    op + 0x40 * (a + 0x100 * bx)
  }

  /** A displacement is written in excess of half the largest number of eighteen bits. */
  function DisplacementField(d: int): int {
    d + (0x4_0000 - 1) / 2
  }

  predicate IsDisplacement(d: int) {
    -0x1_FFFF <= d <= 0x2_0000
  }

  function JumpWord(op: nat, a: nat, d: int): nat
    requires IsDisplacement(d)
  {
    AbxWord(op, a, DisplacementField(d))
  }

  /** The eighteen-bit form reads back. */
  lemma AbxReads(op: nat, a: nat, bx: nat)
    requires op < 64 && a < 256 && bx < 0x4_0000
    ensures AbxWord(op, a, bx) < WORDS
    ensures var w := Decoded(AbxWord(op, a, bx)); w.op == op && w.a == a && w.bx == bx
  {
  }

  /** So does the three-operand form. */
  lemma AbcReads(op: nat, a: nat, b: nat, c: nat)
    requires op < 64 && a < 256 && b < 512 && c < 512
    ensures AbcWord(op, a, b, c) < WORDS && Decoded(AbcWord(op, a, b, c)) == Raw(op, a, b, c, c + 512 * b)
  {
    var bx := c + 512 * b;
    assert AbcWord(op, a, b, c) == AbxWord(op, a, bx);
    AbxReads(op, a, bx);
    FieldsNest(AbxWord(op, a, bx));
    BxSplits(AbxWord(op, a, bx), bx);
  }

  lemma BxSplits(word: nat, bx: nat)
    requires word < WORDS && word / 0x4000 % 0x4_0000 == bx && word / 0x80_0000 == word / 0x4000 / 512
    ensures Decoded(word).c == bx % 512 && Decoded(word).b == bx / 512
  {
    assert word / 0x4000 == bx;
  }

  lemma FieldsNest(word: nat)
    ensures word / 0x4000 == word / 64 / 256 && word / 0x80_0000 == word / 0x4000 / 512
  {
  }

  /** No word has any bits besides its fields: its operands write it again. */
  lemma DecodedWrites(word: nat)
    requires word < WORDS
    ensures var w := Decoded(word); w.op < 64 && w.a < 256 && w.b < 512 && w.c < 512 && w.bx < 0x4_0000
    ensures var w := Decoded(word); AbcWord(w.op, w.a, w.b, w.c) == word == AbxWord(w.op, w.a, w.bx)
  {
    FieldsNest(word);
    var q1, q2, q3: nat := word / 64, word / 0x4000, word / 0x80_0000;
    assert word == word % 64 + 64 * q1 && q1 == q1 % 256 + 256 * q2 && q2 == q2 % 512 + 512 * q3;
    assert q2 < 0x4_0000 && q3 < 512;
  }

  // ---------- jumps ----------

  /** A JMP, FORLOOP or FORPREP is decoded as going to the displacement counted from the next word. */
  lemma JumpLands(words: seq<nat>, r: C.Association, pc: nat, op: nat, a: nat, d: int)
    requires |r.owner| == |r.captures| == |words| && pc < |words| && op in {22, 31, 32} && a < 256 && IsDisplacement(d)
    requires words[pc] == JumpWord(op, a, d) && !IsExtra(DecodedAll(words), pc)
    ensures CodeOf(DecodedAll(words), r)[pc].target == pc + 1 + d && CodeOf(DecodedAll(words), r)[pc].a == a
  {
    AbxReads(op, a, DisplacementField(d));
  }

  /** What a word's last eighteen bits stand for as a displacement. */
  function Displacement(w: Raw): int {
    w.bx - DisplacementField(0)
  }

  // ---------- control by opcode number ----------

  /** An instruction of its own: no block number of a SETLIST, no binding of a CLOSURE. */
  predicate IsInstruction(raw: seq<Raw>, r: C.Association, pc: nat)
    requires |r.owner| == |raw| && pc < |raw|
  {
    !IsExtra(raw, pc) && r.owner[pc] < 0
  }

  /** The instruction after `pc` is a JMP. */
  predicate JumpFollows(raw: seq<Raw>, pc: nat) {
    pc + 1 < |raw| && !IsExtra(raw, pc + 1) && raw[pc + 1].op == 22
  }

  lemma JumpFollowsIff(raw: seq<Raw>, r: C.Association, pc: nat)
    requires |r.owner| == |r.captures| == |raw| && pc < |raw|
    ensures var code := CodeOf(raw, r);
      JumpFollows(raw, pc) <==> pc + 1 < |code| && code[pc + 1].op.Jmp?
    ensures JumpFollows(raw, pc) ==> CodeOf(raw, r)[pc + 1].target == pc + 2 + Displacement(raw[pc + 1])
  {
  }

  /** TAILCALL and RETURN go nowhere, and neither do operand words. */
  lemma NoSuccessors(raw: seq<Raw>, r: C.Association, pc: nat)
    requires |r.owner| == |r.captures| == |raw| && pc < |raw|
    requires !IsInstruction(raw, r, pc) || raw[pc].op == 29 || raw[pc].op == 30
    ensures ControlSuccessors(CodeOf(raw, r), pc) == []
  {
  }

  /** JMP and FORPREP go by their displacement only, FORLOOP to the next instruction as well. */
  lemma JumpSuccessors(raw: seq<Raw>, r: C.Association, pc: nat)
    requires |r.owner| == |r.captures| == |raw| && pc < |raw| && IsInstruction(raw, r, pc) && raw[pc].op in {22, 31, 32}
    ensures var code, target := CodeOf(raw, r), pc + 1 + Displacement(raw[pc]);
      ControlSuccessors(code, pc) == InCode(code, if raw[pc].op == 31 then [target, pc + 1] else [target])
  {
  }

  /** EQ, LT, LE, TEST and TESTSET take the jump behind them, or skip it. */
  lemma TestSuccessors(raw: seq<Raw>, r: C.Association, pc: nat)
    requires |r.owner| == |r.captures| == |raw| && pc < |raw| && IsInstruction(raw, r, pc) && 23 <= raw[pc].op <= 27
    ensures var code := CodeOf(raw, r);
      ControlSuccessors(code, pc)
      == InCode(code, [if JumpFollows(raw, pc) then pc + 2 + Displacement(raw[pc + 1]) else pc + 2, pc + 2])
  {
    JumpFollowsIff(raw, r, pc);
  }

  /** The displacement of the word after `pc`, whatever it is; none if there is no such word or it is a block number. */
  function FollowingDisplacement(raw: seq<Raw>, pc: nat): int {
    if pc + 1 < |raw| && !IsExtra(raw, pc + 1) then Displacement(raw[pc + 1]) else 0
  }

  /** TFORLOOP goes where the word behind it leads, or skips it. */
  lemma GenericLoopSuccessors(raw: seq<Raw>, r: C.Association, pc: nat)
    requires |r.owner| == |r.captures| == |raw| && pc < |raw| && IsInstruction(raw, r, pc) && raw[pc].op == 33
    ensures var code := CodeOf(raw, r);
      ControlSuccessors(code, pc) == InCode(code, [pc + 2 + FollowingDisplacement(raw, pc), pc + 2])
  {
  }

  /** All others go on: LOADBOOL with C over one instruction, SETLIST and CLOSURE over their own words. */
  lemma OtherSuccessors(raw: seq<Raw>, r: C.Association, pc: nat)
    requires |r.owner| == |r.captures| == |raw| && pc < |raw| && IsInstruction(raw, r, pc)
    requires raw[pc].op < 22 || raw[pc].op == 28 || raw[pc].op > 33
    ensures var code := CodeOf(raw, r);
      ControlSuccessors(code, pc)
      == InCode(code, [pc + 1 +
                       if raw[pc].op == 2 then (if raw[pc].c != 0 then 1 else 0)
                       else if raw[pc].op == 34 then (if raw[pc].c == 0 then 1 else 0)
                       else if raw[pc].op == 36 then |r.captures[pc]| else 0])
  {
  }

  // ---------- straight-line words by opcode number ----------

  predicate StraightLine(w: Raw) {
    || (w.op <= 21 && (w.op == 2 ==> w.c == 0)) || w.op == 35 || w.op == 36
    || (w.op == 28 && w.b > 0 && w.c > 0) || (w.op == 34 && w.b > 0) || (w.op == 37 && w.b > 0)
  }

  lemma InstructionIsStraight(raw: seq<Raw>, r: C.Association, pc: nat)
    requires |r.owner| == |r.captures| == |raw| && pc < |raw| && IsInstruction(raw, r, pc) && raw[pc].op < OPCODES
    ensures FlagProtocol.GapSafe(CodeOf(raw, r)[pc]) <==> StraightLine(raw[pc])
  {
  }

  lemma BindingWord(raw: seq<Raw>, nups: seq<nat>, r: C.Association, pc: nat)
    requires Accepted(raw, nups, r) && pc < |raw| && r.owner[pc] >= 0
    ensures !IsExtra(raw, pc) && (raw[pc].op == 0 || raw[pc].op == 4)
  {
    BindingIsOwned(raw, nups, r, pc);
    assert WordsOf(raw)[pc] == WordOf(raw, pc);
  }

  lemma BindingIsStraight(raw: seq<Raw>, r: C.Association, pc: nat)
    requires |r.owner| == |r.captures| == |raw| && pc < |raw| && r.owner[pc] >= 0 && !IsExtra(raw, pc) && raw[pc].op in {0, 4}
    ensures FlagProtocol.GapSafe(CodeOf(raw, r)[pc]) && StraightLine(raw[pc])
  {
  }

  /** What may stand between the tests of a guarded chain: no transfer, and no operand list up to the top of the stack. */
  lemma StraightLineWords(raw: seq<Raw>, nups: seq<nat>, r: C.Association, pc: nat)
    requires Accepted(raw, nups, r) && pc < |raw|
    ensures FlagProtocol.GapSafe(CodeOf(raw, r)[pc]) <==> !IsExtra(raw, pc) && StraightLine(raw[pc])
  {
    if r.owner[pc] >= 0 {
      BindingWord(raw, nups, r, pc);
      BindingIsStraight(raw, r, pc);
    } else if !IsExtra(raw, pc) {
      InstructionIsStraight(raw, r, pc);
    }
  }

  // ---------- captures by opcode number ----------

  /** An accepted CLOSURE captures, word by word: MOVE takes a local register, GETUPVAL an upvalue of the enclosing function. */
  lemma ClosureCaptures(raw: seq<Raw>, nups: seq<nat>, r: C.Association, pc: nat, s: nat)
    requires Accepted(raw, nups, r) && pc < |raw| && IsInstruction(raw, r, pc) && raw[pc].op == 36
    ensures raw[pc].bx < |nups| && pc + nups[raw[pc].bx] < |raw| && |r.captures[pc]| == nups[raw[pc].bx]
    ensures s < nups[raw[pc].bx] ==>
      var w := raw[pc + 1 + s];
      (w.op == 0 || w.op == 4) && !IsExtra(raw, pc + 1 + s) && r.owner[pc + 1 + s] == pc
      && r.captures[pc][s] == C.Binding(pc + 1 + s, w.b, w.op == 4)
  {
    var code, words := CodeOf(raw, r), WordsOf(raw);
    assert Boundary(code, pc);
    assert C.IsClosure(words, nups, pc) && C.BindingsOk(words, nups, pc);
    assert r.captures[pc] == C.BindingsFor(words, pc, C.Expected(words, nups, pc));
    if s < nups[raw[pc].bx] {
      assert C.IsBinding(words[pc + 1 + s]) && C.Owns(words, nups, pc, pc + 1 + s);
    }
  }

  /** A captured register is kept in a cell exactly if some CLOSE names it or a lower one. */
  lemma CloseManages(raw: seq<Raw>, captured: seq<bool>, reg: nat)
    ensures C.ManagedRegister(WordsOf(raw), captured, |raw|, reg)
       <==> reg < |captured| && captured[reg] && exists pc :: 0 <= pc < |raw| && !IsExtra(raw, pc) && raw[pc].op == 35 && raw[pc].a <= reg
  {
    var words := WordsOf(raw);
    forall pc | 0 <= pc < |raw|
      ensures words[pc].op == 35 && words[pc].a <= reg <==> !IsExtra(raw, pc) && raw[pc].op == 35 && raw[pc].a <= reg
    {
    }
    if reg < |captured| && captured[reg] {
      if pc :| 0 <= pc < |raw| && !IsExtra(raw, pc) && raw[pc].op == 35 && raw[pc].a <= reg {
        assert words[pc].op == 35;
      }
      if C.ManagedRegister(words, captured, |raw|, reg) {
        var pc :| 0 <= pc < |raw| && words[pc].op == C.CLOSE && words[pc].a <= reg;
      }
    }
  }
}
