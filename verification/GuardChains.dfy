/** Folding chains of compare/JMP pairs into conditions, and why the folded form means the same. */
module GuardChains {
  import opened Lua51

  // ---------- conditions ----------

  /** A condition as emitted; `Atom` is the test at a program counter. */
  datatype Cond = Atom(pc: nat) | Not(cond: Cond) | And(conds: seq<Cond>) | Or(conds: seq<Cond>)

  /** A TEST or a comparison with its jump: what may take part in a chain. */
  predicate IsGuard(code: seq<Instr>, pc: nat) {
    pc + 1 < |code| && (code[pc].op.Compare? || code[pc].op.Test?) && code[pc + 1].op.Jmp?
  }

  /** The condition under which the test falls through to its body, skipping the jump. */
  function ConditionExpr(code: seq<Instr>, pc: nat): Cond
    requires pc < |code|
  {
    if code[pc].op.Test? then (if code[pc].c != 0 then Not(Atom(pc)) else Atom(pc))
    else if code[pc].a != 0 then Not(Atom(pc)) else Atom(pc)
  }

  /** Strips a leading `not`, or adds one. */
  function NegateConditionExpr(c: Cond): Cond {
    match c {
      case Not(inner) => inner
      case _ => Not(c)
    }
  }

  /** Evaluates left to right, stopping early as `and` and `or` do. */
  function Eval<S>(code: seq<Instr>, sem: Sem<S>, c: Cond, s: S): (bool, S)
    decreases c, if c.And? || c.Or? then |c.conds| + 2 else 0
  {
    match c {
      case Atom(pc) => (sem.truth(pc, s), if pc < |code| && code[pc].op.Compare? then sem.effect(pc, s) else s)
      case Not(inner) => var (b, s') := Eval(code, sem, inner, s); (!b, s')
      case And(conds) => EvalUntil(code, sem, c, 0, false, s)
      case Or(conds) => EvalUntil(code, sem, c, 0, true, s)
    }
  }

  /** The operands from `k` on, up to the first with the value `stop`. */
  function EvalUntil<S>(code: seq<Instr>, sem: Sem<S>, c: Cond, k: nat, stop: bool, s: S): (bool, S)
    requires (c.And? || c.Or?) && k <= |c.conds|
    decreases c, |c.conds| - k + 1
  {
    if k == |c.conds| then (!stop, s)
    else
      var (b, s') := Eval(code, sem, c.conds[k], s);
      if b == stop then (stop, s') else EvalUntil(code, sem, c, k + 1, stop, s')
  }

  lemma NegateNegates<S>(code: seq<Instr>, sem: Sem<S>, c: Cond, s: S)
    ensures Eval(code, sem, NegateConditionExpr(c), s) == (!Eval(code, sem, c, s).0, Eval(code, sem, c, s).1)
  {
  }

  /** The A and C polarity: the machine goes to the body exactly if the condition holds, and to the jump's target if not. */
  lemma GuardStep<S>(code: seq<Instr>, sem: Sem<S>, pc: nat, s: S)
    requires WellFormed(code) && Boundary(code, pc) && IsGuard(code, pc)
    ensures var (b, s') := Eval(code, sem, ConditionExpr(code, pc), s);
      Step(code, sem, pc, s) == At(if b then pc + 2 else code[pc + 1].target, s')
  {
    assert TargetsOk(code, pc);
  }

  // ---------- plain chains ----------

  predicate GuardAt(code: seq<Instr>, pc: nat, k: nat) {
    IsGuard(code, pc + 2 * k)
  }

  /** `n` guards in a row. */
  ghost predicate Chain(code: seq<Instr>, pc: nat, n: nat) {
    forall k: nat {:trigger GuardAt(code, pc, k)} :: k < n ==> GuardAt(code, pc, k)
  }

  lemma {:induction false} ChainBoundary(code: seq<Instr>, pc: nat, n: nat, k: nat)
    requires WellFormed(code) && Boundary(code, pc) && Chain(code, pc, n) && k <= n
    ensures Boundary(code, pc + 2 * k)
    decreases k
  {
    if k > 0 {
      ChainBoundary(code, pc, n, k - 1);
      assert GuardAt(code, pc, k - 1);
      assert TargetsOk(code, pc + 2 * (k - 1));
    }
  }

  /** How many guards stand in a row before `end`. */
  function ChainLength(code: seq<Instr>, pc: nat, end: nat): nat
    decreases if pc < end then end - pc else 0
  {
    if pc + 1 < end && IsGuard(code, pc) then 1 + ChainLength(code, pc + 2, end) else 0
  }

  /** The collecting loop: as many guards as there are before `end`. */
  method CollectChain(code: seq<Instr>, pc: nat, end: nat) returns (n: nat)
    requires pc <= end <= |code|
    ensures n == ChainLength(code, pc, end) && Chain(code, pc, n) && pc + 2 * n <= end
  {
    var cursor := pc;
    n := 0;
    while cursor + 1 < end && (code[cursor].op.Compare? || code[cursor].op.Test?) && code[cursor + 1].op.Jmp?
      invariant cursor == pc + 2 * n && cursor <= end && Chain(code, pc, n)
      invariant n + ChainLength(code, cursor, end) == ChainLength(code, pc, end)
    {
      assert GuardAt(code, pc, n);
      cursor := cursor + 2;
      n := n + 1;
    }
  }

  /** How a chain is folded: the condition, where its body begins, and where control goes if it fails. */
  datatype Fold = NoFold | Fold(cond: Cond, body: nat, join: nat)

  function TargetOf(code: seq<Instr>, pc: nat, k: nat): int {
    if pc + 2 * k + 1 < |code| then code[pc + 2 * k + 1].target else -1
  }

  /** The first `n` fallthrough conditions of the chain, or their negations. */
  function Fallthroughs(code: seq<Instr>, pc: nat, n: nat): (r: seq<Cond>)
    requires pc + 2 * n <= |code|
    ensures |r| == n && forall k :: 0 <= k < n ==> r[k] == ConditionExpr(code, pc + 2 * k)
  {
    seq(n, k requires 0 <= k < n => ConditionExpr(code, pc + 2 * k))
  }

  function Negations(code: seq<Instr>, pc: nat, n: nat): (r: seq<Cond>)
    requires pc + 2 * n <= |code|
    ensures |r| == n && forall k :: 0 <= k < n ==> r[k] == NegateConditionExpr(ConditionExpr(code, pc + 2 * k))
  {
    seq(n, k requires 0 <= k < n => NegateConditionExpr(ConditionExpr(code, pc + 2 * k)))
  }

  /** All jumps of the chain go to one place behind its body. */
  ghost predicate AndShape(code: seq<Instr>, pc: nat, n: nat, join: int) {
    forall k: nat {:trigger TargetOf(code, pc, k)} :: k < n ==> TargetOf(code, pc, k) == join
  }

  /** All jumps but the last go to the body, the last behind it. */
  ghost predicate OrShape(code: seq<Instr>, pc: nat, final: nat, join: int) {
    && (forall k: nat {:trigger TargetOf(code, pc, k)} :: k < final ==> TargetOf(code, pc, k) == pc + 2 * final + 2)
    && TargetOf(code, pc, final) == join
  }

  /** `k < n` jumps in a row have the same target. */
  method AllTargets(code: seq<Instr>, pc: nat, n: nat, target: int) returns (all: bool)
    ensures all <==> AndShape(code, pc, n, target)
  {
    for k := 0 to n
      invariant AndShape(code, pc, k, target)
    {
      if TargetOf(code, pc, k) != target {
        return false;
      }
    }
    all := true;
  }

  /** The chain may be folded with `and`: one common target behind the body, which is no loop back to the chain. */
  ghost predicate AndFolds(code: seq<Instr>, pc: nat, end: nat, n: nat)
    requires end <= |code|
  {
    var join := TargetOf(code, pc, 0);
    && n >= 2 && pc + 2 * n < join <= end && AndShape(code, pc, n, join)
    && !(code[join - 1].op.Jmp? && code[join - 1].target == pc)
  }

  /** Its first `final + 1` tests may be folded with `or`. */
  ghost predicate OrFolds(code: seq<Instr>, pc: nat, end: nat, final: nat) {
    pc + 2 * final + 2 < TargetOf(code, pc, final) <= end && OrShape(code, pc, final, TargetOf(code, pc, final))
  }

  function AndFold(code: seq<Instr>, pc: nat, n: nat): Fold
    requires pc + 2 * n <= |code| && TargetOf(code, pc, 0) >= 0
  {
    Fold(And(Fallthroughs(code, pc, n)), pc + 2 * n, TargetOf(code, pc, 0))
  }

  function OrFold(code: seq<Instr>, pc: nat, final: nat): Fold
    requires pc + 2 * final + 2 <= |code| && TargetOf(code, pc, final) >= 0
  {
    Fold(Or(Negations(code, pc, final) + [ConditionExpr(code, pc + 2 * final)]), pc + 2 * final + 2, TargetOf(code, pc, final))
  }

  ghost predicate NoOrBelow(code: seq<Instr>, pc: nat, end: nat, n: nat) {
    forall k: nat :: 1 <= k < n ==> !OrFolds(code, pc, end, k)
  }

  ghost predicate IsShortestOr(code: seq<Instr>, pc: nat, end: nat, n: nat, fold: Fold)
    requires pc + 2 * n <= end <= |code|
  {
    exists k: nat :: 1 <= k < n && OrFolds(code, pc, end, k) && NoOrBelow(code, pc, end, k) && fold == OrFold(code, pc, k)
  }

  /** The two plain folds, tried in this order; the shortest `or` wins. */
  method FoldChain(code: seq<Instr>, pc: nat, end: nat) returns (fold: Fold)
    requires pc <= end <= |code|
    ensures var n := ChainLength(code, pc, end);
      && pc + 2 * n <= end
      && (AndFolds(code, pc, end, n) ==> fold == AndFold(code, pc, n))
      && (fold.NoFold? <==> !AndFolds(code, pc, end, n) && NoOrBelow(code, pc, end, n))
      && (fold.Fold? && !AndFolds(code, pc, end, n) ==> IsShortestOr(code, pc, end, n, fold))
    ensures fold.Fold? ==> IsFold(code, pc, end, fold)
  {
    var n := CollectChain(code, pc, end);
    if n >= 2 {
      var body := pc + 2 * n;
      var join := TargetOf(code, pc, 0);
      var loopLatch := 0 < join <= end && code[join - 1].op.Jmp? && code[join - 1].target == pc;
      var same := AllTargets(code, pc, n, join);
      if !loopLatch && body < join <= end && same {
        fold := Fold(And(Fallthroughs(code, pc, n)), body, join);
        assert IsAndFold(code, pc, n, fold);
        return;
      }
    }
    fold := TryOr(code, pc, end, n);
  }

  method TryOr(code: seq<Instr>, pc: nat, end: nat, n: nat) returns (fold: Fold)
    requires end <= |code| && pc + 2 * n <= end && Chain(code, pc, n)
    ensures fold.NoFold? <==> NoOrBelow(code, pc, end, n)
    ensures fold.Fold? ==> IsFold(code, pc, end, fold) && IsShortestOr(code, pc, end, n, fold)
  {
    var final := 1;
    while final < n
      invariant 1 <= final && NoOrBelow(code, pc, end, final)
    {
      var body := pc + 2 * final + 2;
      var join := TargetOf(code, pc, final);
      var same := AllTargets(code, pc, final, body);
      if body < join <= end && same {
        assert Chain(code, pc, final + 1);
        assert OrFolds(code, pc, end, final);
        fold := Fold(Or(Negations(code, pc, final) + [ConditionExpr(code, pc + 2 * final)]), body, join);
        assert IsOrFold(code, pc, final, fold);
        return;
      }
      final := final + 1;
    }
    fold := NoFold;
  }

  ghost predicate IsFold(code: seq<Instr>, pc: nat, end: nat, fold: Fold) {
    && fold.Fold? && end <= |code| && fold.body < fold.join <= end
    && exists n :: IsAndFold(code, pc, n, fold) || IsOrFold(code, pc, n, fold)
  }

  ghost predicate IsAndFold(code: seq<Instr>, pc: nat, n: nat, fold: Fold) {
    && fold.Fold? && pc + 2 * n <= |code| && Chain(code, pc, n) && AndShape(code, pc, n, fold.join)
    && fold.body == pc + 2 * n && fold.cond == And(Fallthroughs(code, pc, n))
  }

  ghost predicate IsOrFold(code: seq<Instr>, pc: nat, final: nat, fold: Fold) {
    && fold.Fold? && pc + 2 * final + 2 <= |code| && Chain(code, pc, final + 1) && OrShape(code, pc, final, fold.join)
    && fold.body == pc + 2 * final + 2
    && fold.cond == Or(Negations(code, pc, final) + [ConditionExpr(code, pc + 2 * final)])
  }

  // ---------- what a fold means ----------

  /** Some number of machine steps leads from one configuration to the other. */
  ghost predicate Leads<S>(code: seq<Instr>, sem: Sem<S>, c: Config<S>, d: Config<S>)
    requires WellFormed(code)
  {
    exists m: nat :: Run(code, sem, 0, |code|, c, m) == d
  }

  lemma LeadsSelf<S>(code: seq<Instr>, sem: Sem<S>, c: Config<S>)
    requires WellFormed(code)
    ensures Leads(code, sem, c, c)
  {
    assert Run(code, sem, 0, |code|, c, 0) == c;
  }

  lemma LeadsStep<S>(code: seq<Instr>, sem: Sem<S>, pc: nat, s: S)
    requires WellFormed(code) && Boundary(code, pc)
    ensures Leads(code, sem, At(pc, s), Step(code, sem, pc, s))
  {
    assert Run(code, sem, 0, |code|, At(pc, s), 1) == Run(code, sem, 0, |code|, Step(code, sem, pc, s), 0);
    assert Run(code, sem, 0, |code|, At(pc, s), 1) == Step(code, sem, pc, s);
  }

  lemma LeadsOn<S>(code: seq<Instr>, sem: Sem<S>, c: Config<S>, d: Config<S>, e: Config<S>)
    requires WellFormed(code) && Leads(code, sem, c, d) && Leads(code, sem, d, e)
    ensures Leads(code, sem, c, e)
  {
    var j: nat :| Run(code, sem, 0, |code|, c, j) == d;
    var k: nat :| Run(code, sem, 0, |code|, d, k) == e;
    RunAdds(code, sem, 0, |code|, c, j, k);
    assert Run(code, sem, 0, |code|, c, j + k) == e;
  }

  lemma {:induction false} AndMeans<S>(code: seq<Instr>, sem: Sem<S>, pc: nat, n: nat, fold: Fold, k: nat, s: S)
    requires WellFormed(code) && Boundary(code, pc) && IsAndFold(code, pc, n, fold) && k <= n
    ensures var (b, s') := EvalUntil(code, sem, fold.cond, k, false, s);
      Leads(code, sem, At(pc + 2 * k, s), At(if b then fold.body else fold.join, s'))
    decreases n - k
  {
    if k == n {
      LeadsSelf(code, sem, At(fold.body, s));
    } else {
      ChainBoundary(code, pc, n, k);
      assert GuardAt(code, pc, k) && TargetOf(code, pc, k) == fold.join;
      GuardStep(code, sem, pc + 2 * k, s);
      LeadsStep(code, sem, pc + 2 * k, s);
      var (b, s1) := Eval(code, sem, ConditionExpr(code, pc + 2 * k), s);
      if b {
        AndMeans(code, sem, pc, n, fold, k + 1, s1);
        var (b2, s2) := EvalUntil(code, sem, fold.cond, k + 1, false, s1);
        LeadsOn(code, sem, At(pc + 2 * k, s), At(pc + 2 * k + 2, s1), At(if b2 then fold.body else fold.join, s2));
      }
    }
  }

  lemma {:induction false} OrMeans<S>(code: seq<Instr>, sem: Sem<S>, pc: nat, final: nat, fold: Fold, k: nat, s: S)
    requires WellFormed(code) && Boundary(code, pc) && IsOrFold(code, pc, final, fold) && k <= final
    ensures var (b, s') := EvalUntil(code, sem, fold.cond, k, true, s);
      Leads(code, sem, At(pc + 2 * k, s), At(if b then fold.body else fold.join, s'))
    decreases final - k
  {
    ChainBoundary(code, pc, final + 1, k);
    assert GuardAt(code, pc, k);
    GuardStep(code, sem, pc + 2 * k, s);
    LeadsStep(code, sem, pc + 2 * k, s);
    var (b, s1) := Eval(code, sem, ConditionExpr(code, pc + 2 * k), s);
    if k < final {
      assert TargetOf(code, pc, k) == fold.body;
      NegateNegates(code, sem, ConditionExpr(code, pc + 2 * k), s);
      if b {
        OrMeans(code, sem, pc, final, fold, k + 1, s1);
        var (b2, s2) := EvalUntil(code, sem, fold.cond, k + 1, true, s1);
        LeadsOn(code, sem, At(pc + 2 * k, s), At(pc + 2 * k + 2, s1), At(if b2 then fold.body else fold.join, s2));
      }
    } else {
      assert TargetOf(code, pc, final) == fold.join;
      assert EvalUntil(code, sem, fold.cond, final + 1, true, s1) == (false, s1);
    }
  }

  /**
   The folded condition, tested once at the head of the chain, takes control to the body or the join exactly as the
   chain of tests does, and leaves the state the chain leaves: the same tests in the same order.
   */
  lemma FoldMeans<S>(code: seq<Instr>, sem: Sem<S>, pc: nat, end: nat, fold: Fold, s: S)
    requires WellFormed(code) && Boundary(code, pc) && IsFold(code, pc, end, fold)
    ensures var (b, s') := Eval(code, sem, fold.cond, s);
      Leads(code, sem, At(pc, s), At(if b then fold.body else fold.join, s'))
  {
    var n: nat :| IsAndFold(code, pc, n, fold) || IsOrFold(code, pc, n, fold);
    if IsAndFold(code, pc, n, fold) {
      AndMeans(code, sem, pc, n, fold, 0, s);
    } else {
      OrMeans(code, sem, pc, n, fold, 0, s);
    }
  }
}
