/** Lua 5.1 code as the reconstruction sees it, and the machine that runs it. */
module Lua51 {

  /** Opcodes, as far as control is concerned; `Plain` stands for every other one. */
  datatype Op =
    | Plain | LoadBool | Jmp | Compare | Test | TestSet | TailCall | Return
    | ForLoop | ForPrep | TForLoop | SetList | Closure

  /**
   `target` is the decoded jump target, `captures` the number of binding words a CLOSURE owns; `open` marks an operand
   list without a fixed end (CALL, SETLIST, VARARG).
   */
  datatype Instr = Instr(op: Op, a: nat, c: nat, sbx: int, target: int, extraWord: bool, binding: bool, captures: nat, open: bool)

  /** An instruction of its own: neither a SETLIST block word nor a CLOSURE binding. */
  predicate Boundary(code: seq<Instr>, pc: int) {
    0 <= pc < |code| && !code[pc].extraWord && !code[pc].binding
  }

  /** How many words the instruction at `pc` occupies. */
  function Size(i: Instr): nat {
    if i.op.Closure? then 1 + i.captures
    else if i.op.SetList? && i.c == 0 then 2
    else 1
  }

  predicate IsCondition(i: Instr) {
    i.op.Compare? || i.op.Test? || i.op.TestSet?
  }

  /** Instructions after which control does not simply continue with the next one. */
  predicate IsTransfer(i: Instr) {
    || IsCondition(i) || i.op.Jmp? || i.op.ForLoop? || i.op.ForPrep? || i.op.TForLoop?
    || i.op.TailCall? || i.op.Return? || (i.op.LoadBool? && i.c != 0)
  }

  /** The instruction at `pc` tiles: its words lie in the code and the next instruction starts right after them. */
  ghost predicate Tiled(code: seq<Instr>, pc: nat)
    requires pc < |code|
  {
    var next := pc + Size(code[pc]);
    next <= |code| && (next < |code| ==> Boundary(code, next)) && forall k :: pc < k < next ==> !Boundary(code, k)
  }

  /** Jumps land on instructions, and tests are followed by the jump they skip. */
  ghost predicate TargetsOk(code: seq<Instr>, pc: nat)
    requires pc < |code|
  {
    var i := code[pc];
    && (i.op.Jmp? || i.op.ForLoop? || i.op.ForPrep? ==> i.target == pc + i.sbx + 1 && Boundary(code, i.target))
    && (IsCondition(i) || i.op.TForLoop? ==> Boundary(code, pc + 1) && code[pc + 1].op.Jmp? && Boundary(code, pc + 2))
    && (i.op.LoadBool? && i.c != 0 ==> Boundary(code, pc + 2))
  }

  /**
   What decoding, capture association and validation have established (operand words are no transfers), and that every
   test is followed by a JMP.
   */
  ghost predicate WellFormed(code: seq<Instr>) {
    && (|code| > 0 ==> Boundary(code, 0))
    && (forall pc :: 0 <= pc < |code| && !Boundary(code, pc) ==> code[pc].op.Plain?)
    && forall pc {:trigger Tiled(code, pc)} {:trigger TargetsOk(code, pc)} ::
         0 <= pc < |code| && Boundary(code, pc) ==> Tiled(code, pc) && TargetsOk(code, pc)
  }

  // ---------- the machine ----------

  /**
   The data side of an instruction, left open: its effect (for a comparison, what its metamethod does), the outcome of
   its test, and the extra effect of a taken branch. Any state will do, so a state may record the whole sequence of
   effects, tests included.
   */
  datatype Sem<!S> = Sem(effect: (nat, S) -> S, truth: (nat, S) -> bool, taken: (nat, S) -> S)

  datatype Config<S> = At(pc: int, state: S) | Halted(state: S)

  /** One step of the Lua 5.1 machine. A test that fails its A or C flag skips the jump after it. */
  function Step<S>(code: seq<Instr>, sem: Sem<S>, pc: nat, s: S): Config<S>
    requires WellFormed(code) && Boundary(code, pc)
  {
    assert TargetsOk(code, pc);
    var i := code[pc];
    match i.op {
      case Jmp => At(i.target, s)
      case Compare =>
        var next := sem.effect(pc, s);
        if sem.truth(pc, s) != (i.a != 0) then At(pc + 2, next) else At(code[pc + 1].target, next)
      case Test => if sem.truth(pc, s) != (i.c != 0) then At(pc + 2, s) else At(code[pc + 1].target, s)
      case TestSet => if sem.truth(pc, s) != (i.c != 0) then At(pc + 2, s) else At(code[pc + 1].target, sem.taken(pc, s))
      case ForLoop =>
        var next := sem.effect(pc, s);
        if sem.truth(pc, next) then At(i.target, sem.taken(pc, next)) else At(pc + 1, next)
      case ForPrep => At(i.target, sem.effect(pc, s))
      case TForLoop =>
        var next := sem.effect(pc, s);
        if sem.truth(pc, next) then At(code[pc + 1].target, sem.taken(pc, next)) else At(pc + 2, next)
      case LoadBool => At(if i.c != 0 then pc + 2 else pc + 1, sem.effect(pc, s))
      case TailCall => Halted(sem.effect(pc, s))
      case Return => Halted(sem.effect(pc, s))
      case _ => At(pc + Size(i), sem.effect(pc, s))
    }
  }

  /** Control inside `begin..end`, at an instruction. */
  predicate Running<S>(code: seq<Instr>, begin: nat, end: nat, c: Config<S>) {
    c.At? && begin <= c.pc < end && Boundary(code, c.pc)
  }

  /** At most `k` machine steps, stopping when control halts or leaves `begin..end`. */
  function Run<S>(code: seq<Instr>, sem: Sem<S>, begin: nat, end: nat, c: Config<S>, k: nat): Config<S>
    requires WellFormed(code)
    decreases k
  {
    if k == 0 || !Running(code, begin, end, c) then c
    else Run(code, sem, begin, end, Step(code, sem, c.pc, c.state), k - 1)
  }

  lemma {:induction false} RunAdds<S>(code: seq<Instr>, sem: Sem<S>, begin: nat, end: nat, c: Config<S>, j: nat, k: nat)
    requires WellFormed(code)
    ensures Run(code, sem, begin, end, c, j + k) == Run(code, sem, begin, end, Run(code, sem, begin, end, c, j), k)
    decreases j
  {
    if j > 0 && Running(code, begin, end, c) {
      RunAdds(code, sem, begin, end, Step(code, sem, c.pc, c.state), j - 1, k);
    }
  }

  lemma RunStopped<S>(code: seq<Instr>, sem: Sem<S>, begin: nat, end: nat, c: Config<S>, k: nat)
    requires WellFormed(code) && !Running(code, begin, end, c)
    ensures Run(code, sem, begin, end, c, k) == c
  {
  }

  // ---------- control-flow successors ----------

  /** The successors recorded for the instruction at `pc`. */
  function ControlSuccessors(code: seq<Instr>, pc: nat): seq<int>
    requires pc < |code|
  {
    var i := code[pc];
    if !Boundary(code, pc) || i.op.TailCall? || i.op.Return? then []
    else if i.op.Jmp? then InCode(code, [i.target])
    else if IsCondition(i) then
      InCode(code, [if pc + 1 < |code| && code[pc + 1].op.Jmp? then code[pc + 1].target else pc + 2, pc + 2])
    else if i.op.ForLoop? then InCode(code, [i.target, pc + 1])
    else if i.op.ForPrep? then InCode(code, [i.target])
    else if i.op.TForLoop? then InCode(code, [FollowingTarget(code, pc), pc + 2])
    else if i.op.LoadBool? && i.c != 0 then InCode(code, [pc + 2])
    else InCode(code, [pc + Size(i)])
  }

  /** An edge of the instruction graph. */
  ghost predicate Edge(code: seq<Instr>, from: int, to: int) {
    0 <= from < |code| && to in ControlSuccessors(code, from)
  }

  /** Where the jump word after `pc` leads, decoded from its displacement. */
  function FollowingTarget(code: seq<Instr>, pc: nat): int {
    if pc + 1 < |code| then pc + 1 + code[pc + 1].sbx + 1 else pc + 2
  }

  /** Only targets inside the code, or just behind it, are recorded. */
  function InCode(code: seq<Instr>, targets: seq<int>): (r: seq<int>)
    ensures forall t :: t in r <==> t in targets && 0 <= t <= |code|
  {
    if targets == [] then []
    else (if 0 <= targets[0] <= |code| then [targets[0]] else []) + InCode(code, targets[1..])
  }

  /** Every machine step follows a recorded edge. */
  lemma StepFollowsEdge<S>(code: seq<Instr>, sem: Sem<S>, pc: nat, s: S)
    requires WellFormed(code) && Boundary(code, pc)
    ensures var next := Step(code, sem, pc, s);
      next.At? ==> next.pc in ControlSuccessors(code, pc) && 0 <= next.pc <= |code| && (next.pc < |code| ==> Boundary(code, next.pc))
  {
    assert Tiled(code, pc) && TargetsOk(code, pc);
    if IsCondition(code[pc]) || code[pc].op.TForLoop? {
      assert TargetsOk(code, pc + 1);
    }
  }
}
