/** Validating one prototype's instruction words, and the shape this gives the decoded instructions. */
module Validation {
  import opened Cfg
  import opened Optional

  /**
   The decoding of the word at a program counter: whether the opcode is known, the instruction, and whether its registers
   and constants are in range.
   */
  datatype Decoder = Decoder(known: nat -> bool, at: nat -> Instruction, operandsOk: nat -> bool)

  /** Decoding takes at least one word, and gives other instructions than jumps no target. */
  ghost predicate Sensible(d: Decoder) {
    forall pc {:trigger d.at(pc)} :: d.at(pc).offset == pc && d.at(pc).length > 0 && TargetShape(d.at(pc))
  }

  predicate TargetShape(i: Instruction) {
    && (i.op.Plain? || i.op.Return? ==> i.jumpTarget == -1)
    && (i.op.LoadBool? ==> i.jumpTarget >= -1)
  }

  /** A jump whose target counts; a LOADB that does not skip has none. */
  predicate Jumps(i: Instruction) {
    !i.op.Plain? && !i.op.Return? && !(i.op.LoadBool? && i.jumpTarget == -1)
  }

  predicate WordOk(d: Decoder, size: nat, pc: nat) {
    var i := d.at(pc);
    && d.known(pc) && pc + i.length <= size && (Jumps(i) ==> 0 <= i.jumpTarget < size) && d.operandsOk(pc)
  }

  /** The instructions from `pc` to the end, if every word of the walk is in order. */
  function Walk(d: Decoder, size: nat, pc: nat): (r: Maybe<seq<Instruction>>)
    decreases size - pc
  {
    if pc >= size then Just([])
    else if !WordOk(d, size, pc) || d.at(pc).length == 0 then Nothing
    else
      match Walk(d, size, pc + d.at(pc).length) {
        case Nothing => Nothing
        case Just(rest) => Just([d.at(pc)] + rest)
      }
  }

  ghost predicate TargetsOnBoundaries(code: seq<Instruction>) {
    forall k {:trigger code[k]} :: 0 <= k < |code| && Jumps(code[k]) ==> IsBoundary(code, code[k].jumpTarget)
  }

  ghost predicate Accepts(d: Decoder, size: nat, budget: int) {
    var walk := Walk(d, size, 0);
    walk.Just? && |walk.value| <= budget && TargetsOnBoundaries(walk.value)
  }

  /** The instructions found so far, in front of what is still to come. */
  function Before(code: seq<Instruction>, rest: Maybe<seq<Instruction>>): Maybe<seq<Instruction>> {
    match rest {
      case Nothing => Nothing
      case Just(more) => Just(code + more)
    }
  }

  lemma BeforeSnoc(code: seq<Instruction>, i: Instruction, rest: Maybe<seq<Instruction>>)
    ensures Before(code, Before([i], rest)) == Before(code + [i], rest)
  {
    if rest.Just? {
      assert code + ([i] + rest.value) == code + [i] + rest.value;
    }
  }

  lemma NothingBefore(rest: Maybe<seq<Instruction>>)
    ensures Before([], rest) == rest
  {
    if rest.Just? {
      assert [] + rest.value == rest.value;
    }
  }

  /** What the decoding loop has collected when it reaches `pc`. */
  ghost predicate Decoded(d: Decoder, size: nat, pc: nat, code: seq<Instruction>, boundaries: set<nat>) {
    && Walk(d, size, 0) == Before(code, Walk(d, size, pc))
    && (forall b: nat :: b in boundaries <==> IsBoundary(code, b))
    && (forall k {:trigger code[k]} :: 0 <= k < |code| ==>
          code[k].length > 0 && TargetShape(code[k]) && (Jumps(code[k]) ==> 0 <= code[k].jumpTarget < size))
    && Tiling(code, pc)
  }

  /** The instructions lie one behind the other, from word 0 up to `pc`. */
  ghost predicate Tiling(code: seq<Instruction>, pc: nat) {
    && (if code == [] then pc == 0 else code[0].offset == 0 && After(code, |code| - 1) == pc)
    && forall k {:trigger After(code, k)} :: 0 <= k < |code| - 1 ==> After(code, k) == code[k + 1].offset
  }

  lemma TilingSnoc(code: seq<Instruction>, pc: nat, i: Instruction)
    requires Tiling(code, pc) && i.offset == pc
    ensures Tiling(code + [i], pc + i.length)
  {
    var more := code + [i];
    forall k | 0 <= k < |more| - 1
      ensures After(more, k) == more[k + 1].offset
    {
      if k < |code| - 1 {
        assert After(more, k) == After(code, k);
      } else {
        assert After(more, k) == After(code, |code| - 1);
      }
    }
  }

  lemma DecodedStep(d: Decoder, size: nat, pc: nat, code: seq<Instruction>, boundaries: set<nat>)
    requires Sensible(d) && Decoded(d, size, pc, code, boundaries) && pc < size && WordOk(d, size, pc)
    ensures Decoded(d, size, pc + d.at(pc).length, code + [d.at(pc)], boundaries + {pc})
  {
    var i := d.at(pc);
    var more := code + [i];
    BeforeSnoc(code, i, Walk(d, size, pc + i.length));
    assert Walk(d, size, pc) == Before([i], Walk(d, size, pc + i.length));
    TilingSnoc(code, pc, i);
    forall b: nat
      ensures b in boundaries + {pc} <==> IsBoundary(more, b)
    {
      if b in boundaries {
        var k :| 0 <= k < |code| && code[k].offset == b;
        assert more[k].offset == b;
      }
      if b == pc {
        assert more[|code|].offset == b;
      }
      if IsBoundary(more, b) {
        var k :| 0 <= k < |more| && more[k].offset == b;
        assert k < |code| ==> code[k].offset == b;
      }
    }
  }

  /** Accepted code is what the passes over it rely on. */
  lemma AcceptedIsValidated(d: Decoder, size: nat, code: seq<Instruction>, boundaries: set<nat>)
    requires size > 0 && Decoded(d, size, size, code, boundaries) && TargetsOnBoundaries(code)
    ensures Validated(code, size)
  {
    forall k | 0 <= k < |code|
      ensures JumpOk(code, k)
    {
      assert TargetShape(code[k]);
      assert Jumps(code[k]) ==> IsBoundary(code, code[k].jumpTarget);
    }
  }

  /** The walk goes on with a word in order, and stops at any other. */
  lemma WalkHere(d: Decoder, size: nat, pc: nat, code: seq<Instruction>, boundaries: set<nat>)
    requires Sensible(d) && Decoded(d, size, pc, code, boundaries) && pc < size
    ensures !WordOk(d, size, pc) ==> Walk(d, size, 0).Nothing?
    ensures Walk(d, size, 0).Just? ==> |Walk(d, size, 0).value| >= |code| + 1
  {
    if WordOk(d, size, pc) {
      assert Walk(d, size, pc) == Before([d.at(pc)], Walk(d, size, pc + d.at(pc).length));
    }
  }

  method DecodeWords(d: Decoder, size: nat, budget: nat) returns (ok: bool, code: seq<Instruction>, boundaries: set<nat>)
    requires Sensible(d)
    ensures ok <==> Walk(d, size, 0).Just? && |Walk(d, size, 0).value| <= budget
    ensures ok ==> Decoded(d, size, size, code, boundaries) && Walk(d, size, 0) == Just(code)
  {
    ok, code, boundaries := false, [], {};
    NothingBefore(Walk(d, size, 0));
    var pc := 0;
    while pc < size
      invariant Decoded(d, size, pc, code, boundaries) && |code| <= budget && pc <= size && !ok
      decreases size - pc
    {
      WalkHere(d, size, pc, code, boundaries);
      if |code| + 1 > budget {
        return;
      }
      var i := d.at(pc);
      if !d.known(pc) || pc + i.length > size || !d.operandsOk(pc) || (Jumps(i) && (i.jumpTarget < 0 || i.jumpTarget >= size)) {
        assert !WordOk(d, size, pc);
        return;
      }
      DecodedStep(d, size, pc, code, boundaries);
      boundaries := boundaries + {pc};
      code := code + [i];
      pc := pc + i.length;
    }
    assert code + [] == code;
    ok := true;
  }

  method CheckTargets(code: seq<Instruction>, boundaries: set<nat>) returns (ok: bool)
    requires forall b: nat :: b in boundaries <==> IsBoundary(code, b)
    requires forall k {:trigger code[k]} :: 0 <= k < |code| && Jumps(code[k]) ==> code[k].jumpTarget >= 0
    ensures ok <==> TargetsOnBoundaries(code)
  {
    for k := 0 to |code|
      invariant forall j {:trigger code[j]} :: 0 <= j < k && Jumps(code[j]) ==> IsBoundary(code, code[j].jumpTarget)
    {
      if Jumps(code[k]) && code[k].jumpTarget !in boundaries {
        return false;
      }
    }
    ok := true;
  }

  /**
   Walks over the words, then checks that every jump lands on an instruction. `total` counts instructions over all
   prototypes; the walk stops when it exceeds the limit.
   */
  method ValidateOne(d: Decoder, size: nat, total: nat, maxInstructions: nat) returns (ok: bool, total': nat, code: seq<Instruction>)
    requires Sensible(d) && total <= maxInstructions
    ensures ok <==> Accepts(d, size, maxInstructions - total)
    ensures ok ==> Walk(d, size, 0) == Just(code) && total' == total + |code|
    ensures ok && size > 0 ==> Validated(code, size)
  {
    var boundaries;
    ok, code, boundaries := DecodeWords(d, size, maxInstructions - total);
    total' := total + |code|;
    if ok {
      ok := CheckTargets(code, boundaries);
      if ok && size > 0 {
        AcceptedIsValidated(d, size, code, boundaries);
      }
    }
  }

  // ---------- a prototype and its children ----------

  /** What validation reads of a prototype: its header, the decoding of its words, and its children. */
  datatype Proto = Proto(decoder: Decoder, size: nat, constants: nat, parameters: nat, registers: nat, children: seq<Proto>)

  /** The limits on nesting and on the instructions of all prototypes together. */
  datatype Limits = Limits(depth: nat, instructions: nat)

  const MAX_CHILDREN := 100000
  const MAX_CONSTANTS := 1000000

  ghost predicate SensibleTree(p: Proto) {
    Sensible(p.decoder) && forall k :: 0 <= k < |p.children| ==> SensibleTree(p.children[k])
  }

  predicate HeaderOk(p: Proto, limits: Limits, depth: nat) {
    && depth <= limits.depth && p.size <= limits.instructions && |p.children| <= MAX_CHILDREN && p.constants <= MAX_CONSTANTS
    && p.parameters <= p.registers
  }

  /** Every prototype of the tree is in order by itself. */
  ghost predicate TreeOk(p: Proto, limits: Limits, depth: nat)
    decreases p
  {
    && HeaderOk(p, limits, depth) && Walk(p.decoder, p.size, 0).Just? && TargetsOnBoundaries(Walk(p.decoder, p.size, 0).value)
    && forall k :: 0 <= k < |p.children| ==> TreeOk(p.children[k], limits, depth + 1)
  }

  function OwnInstructions(p: Proto): nat {
    var walk := Walk(p.decoder, p.size, 0);
    if walk.Just? then |walk.value| else 0
  }

  /** The instructions of a prototype and of its children from number `k` on. */
  function Instructions(p: Proto, k: nat): nat
    requires k <= |p.children|
    decreases p, |p.children| - k
  {
    if k == |p.children| then 0 else OwnInstructions(p.children[k]) + Instructions(p.children[k], 0) + Instructions(p, k + 1)
  }

  /**
   Validates a prototype and everything below it; `total` counts the instructions of all prototypes so far. It accepts
   exactly if every prototype is in order and their instructions together stay within the limit.
   */
  method ValidateTree(p: Proto, limits: Limits, depth: nat, total: nat) returns (ok: bool, total': nat)
    requires SensibleTree(p) && total <= limits.instructions
    ensures ok <==> TreeOk(p, limits, depth) && total + OwnInstructions(p) + Instructions(p, 0) <= limits.instructions
    ensures ok ==> total' == total + OwnInstructions(p) + Instructions(p, 0)
    decreases p
  {
    ok, total' := false, total;
    if !HeaderOk(p, limits, depth) {
      return;
    }
    var code;
    ok, total', code := ValidateOne(p.decoder, p.size, total, limits.instructions);
    if !ok {
      return;
    }
    var k := 0;
    while k < |p.children|
      invariant 0 <= k <= |p.children| && ok && total' <= limits.instructions
      invariant total' + Instructions(p, k) == total + OwnInstructions(p) + Instructions(p, 0)
      invariant forall j :: 0 <= j < k ==> TreeOk(p.children[j], limits, depth + 1)
    {
      ok, total' := ValidateTree(p.children[k], limits, depth + 1, total');
      if !ok {
        return;
      }
      k := k + 1;
    }
  }

  /** A prototype of the tree, reached by child numbers. */
  function Descendant(p: Proto, path: seq<nat>): Maybe<Proto>
    decreases |path|
  {
    if path == [] then Just(p)
    else if path[0] < |p.children| then Descendant(p.children[path[0]], path[1..])
    else Nothing
  }

  /**
   Whatever prototype of an accepted tree the later passes meet, its code has the shape they rely on, its parameters are
   registers, and it has at most 100000 children and 1000000 constants.
   */
  lemma {:induction false} EveryPrototypeValidated(p: Proto, limits: Limits, depth: nat, path: seq<nat>)
    requires SensibleTree(p) && TreeOk(p, limits, depth) && Descendant(p, path).Just?
    ensures var q := Descendant(p, path).value;
      var walk := Walk(q.decoder, q.size, 0);
      walk.Just? && (q.size > 0 ==> Validated(walk.value, q.size)) && depth + |path| <= limits.depth
    ensures var q := Descendant(p, path).value;
      q.parameters <= q.registers && |q.children| <= 100_000 && q.constants <= 1_000_000 && q.size <= limits.instructions
    decreases |path|
  {
    if path == [] {
      WalkIsValidated(p.decoder, p.size);
    } else {
      EveryPrototypeValidated(p.children[path[0]], limits, depth + 1, path[1..]);
    }
  }

  /** A walk that succeeds collects what the decoding loop collects. */
  lemma {:induction false} WalkDecodes(d: Decoder, size: nat, pc: nat, code: seq<Instruction>, boundaries: set<nat>)
    requires Sensible(d) && pc <= size && Decoded(d, size, pc, code, boundaries) && Walk(d, size, pc).Just?
    ensures exists b: set<nat> :: Decoded(d, size, size, code + Walk(d, size, pc).value, b)
    decreases size - pc
  {
    if pc == size {
      assert code + [] == code;
    } else {
      var i := d.at(pc);
      DecodedStep(d, size, pc, code, boundaries);
      WalkDecodes(d, size, pc + i.length, code + [i], boundaries + {pc});
      assert code + [i] + Walk(d, size, pc + i.length).value == code + Walk(d, size, pc).value;
    }
  }

  lemma WalkIsValidated(d: Decoder, size: nat)
    requires Sensible(d) && Walk(d, size, 0).Just? && TargetsOnBoundaries(Walk(d, size, 0).value)
    ensures size > 0 ==> Validated(Walk(d, size, 0).value, size)
  {
    var code := Walk(d, size, 0).value;
    NothingBefore(Walk(d, size, 0));
    WalkDecodes(d, size, 0, [], {});
    assert [] + code == code;
    if size > 0 {
      var b: set<nat> :| Decoded(d, size, size, [] + code, b);
      AcceptedIsValidated(d, size, code, b);
    }
  }
}
