/** The search that decides whether a range returns on all its paths. */
module ReturnPaths {
  import opened Lua51
  import opened Sorting

  const MAX_RANGE := 32

  /** How the search goes on at an instruction. */
  datatype Verdict = Returns | Never | One(next: int) | Both(first: int, second: int)

  function VerdictAt(code: seq<Instr>, end: nat, pc: nat): Verdict
    requires pc < |code|
  {
    var i := code[pc];
    if i.op.TailCall? || i.op.Return? then Returns
    else if i.op.Jmp? then One(i.target)
    else if IsCondition(i) then
      if pc + 1 < end && pc + 1 < |code| && code[pc + 1].op.Jmp? then Both(pc + 2, code[pc + 1].target) else Both(pc + 1, pc + 2)
    else if i.op.LoadBool? && i.c != 0 then One(pc + 2)
    else if i.op.ForLoop? || i.op.ForPrep? || i.op.TForLoop? then Never
    else One(pc + 1)
  }

  /** Every way on from `pc` returns within `n` steps and without leaving the range. */
  ghost predicate Finishes(code: seq<Instr>, begin: nat, end: nat, pc: int, n: nat)
    decreases n
  {
    && n > 0 && begin <= pc < end && pc < |code|
    && match VerdictAt(code, end, pc) {
         case Returns => true
         case Never => false
         case One(x) => Finishes(code, begin, end, x, n - 1)
         case Both(x, y) => Finishes(code, begin, end, x, n - 1) && Finishes(code, begin, end, y, n - 1)
       }
  }

  ghost predicate AlwaysReturns(code: seq<Instr>, begin: nat, end: nat, pc: int) {
    exists n: nat :: Finishes(code, begin, end, pc, n)
  }

  lemma {:induction false} FinishesLater(code: seq<Instr>, begin: nat, end: nat, pc: int, n: nat, m: nat)
    requires Finishes(code, begin, end, pc, n) && n <= m
    ensures Finishes(code, begin, end, pc, m)
    decreases n
  {
    match VerdictAt(code, end, pc) {
      case One(x) => FinishesLater(code, begin, end, x, n - 1, m - 1);
      case Both(x, y) =>
        FinishesLater(code, begin, end, x, n - 1, m - 1);
        FinishesLater(code, begin, end, y, n - 1, m - 1);
      case _ =>
    }
  }

  // ---------- why a path does not return ----------

  /** The search may go from `from` to `to`. */
  predicate Link(code: seq<Instr>, end: nat, from: int, to: int) {
    0 <= from < |code| &&
    match VerdictAt(code, end, from) {
      case One(x) => to == x
      case Both(x, y) => to == x || to == y
      case _ => false
    }
  }

  /** At every member the path has left the range, meets a loop instruction, or can go on inside the set. */
  ghost predicate Stuck(code: seq<Instr>, begin: nat, end: nat, s: set<int>) {
    forall pc {:trigger StuckAt(code, begin, end, s, pc)} :: pc in s ==> StuckAt(code, begin, end, s, pc)
  }

  ghost predicate StuckAt(code: seq<Instr>, begin: nat, end: nat, s: set<int>, pc: int) {
    || !(begin <= pc < end && pc < |code|)
    || VerdictAt(code, end, pc).Never?
    || exists to {:trigger Link(code, end, pc, to)} :: to in s && Link(code, end, pc, to)
  }

  /** A stuck path never finishes. */
  lemma {:induction false} StuckNeverFinishes(code: seq<Instr>, begin: nat, end: nat, s: set<int>, pc: int, n: nat)
    requires Stuck(code, begin, end, s) && pc in s
    ensures !Finishes(code, begin, end, pc, n)
    decreases n
  {
    assert StuckAt(code, begin, end, s, pc);
    if n > 0 && begin <= pc < end && pc < |code| && !VerdictAt(code, end, pc).Never? {
      var to :| to in s && Link(code, end, pc, to);
      StuckNeverFinishes(code, begin, end, s, to, n - 1);
    }
  }

  ghost predicate LinkAt(code: seq<Instr>, end: nat, chain: seq<int>, i: nat)
    requires i + 1 < |chain|
  {
    Link(code, end, chain[i], chain[i + 1])
  }

  ghost predicate Chained(code: seq<Instr>, end: nat, chain: seq<int>) {
    forall i: nat {:trigger LinkAt(code, end, chain, i)} :: i + 1 < |chain| ==> LinkAt(code, end, chain, i)
  }

  /** A chain that ends outside, at a loop instruction, or in a member of its own is stuck. */
  lemma ChainIsStuck(code: seq<Instr>, begin: nat, end: nat, chain: seq<int>, last: int)
    requires Chained(code, end, chain + [last])
    requires !(begin <= last < end && last < |code|) || VerdictAt(code, end, last).Never? || last in chain
    ensures Stuck(code, begin, end, Members(chain + [last]))
  {
    var all := chain + [last];
    var s := Members(all);
    forall pc | pc in s
      ensures StuckAt(code, begin, end, s, pc)
    {
      if pc in chain {
        var i :| 0 <= i < |chain| && chain[i] == pc;
        assert all[i] == pc && LinkAt(code, end, all, i);
        assert all[i + 1] in s;
      } else {
        assert pc == last;
      }
    }
  }

  // ---------- the search ----------

  datatype State = Unseen | Active | Good | Bad

  class Search {
    const code: seq<Instr>
    const begin: nat
    const end: nat
    var state: seq<State>

    constructor (code: seq<Instr>, begin: nat, end: nat)
      requires begin < end <= |code|
      ensures this.code == code && this.begin == begin && this.end == end
      ensures state == seq(end - begin, _ => Unseen)
    {
      this.code, this.begin, this.end := code, begin, end;
      state := seq(end - begin, _ => Unseen);
    }

    /** What holds between any two visits: no failure so far, and the active instructions are those on the chain. */
    ghost predicate Valid(chain: seq<int>)
      reads this
    {
      begin < end <= |code| && Explored(code, begin, end, state, chain)
    }

    static ghost predicate Explored(code: seq<Instr>, begin: nat, end: nat, state: seq<State>, chain: seq<int>) {
      && begin < end && |state| == end - begin
      && (forall k {:trigger state[k]} :: 0 <= k < |state| ==>
            state[k] != Bad && (state[k].Good? ==> AlwaysReturns(code, begin, end, begin + k)))
      && forall k {:trigger state[k]} :: 0 <= k < |state| ==> (state[k].Active? <==> begin + k in chain)
    }

    static ghost function Unseens(state: seq<State>): set<int> {
      set k | 0 <= k < |state| && state[k].Unseen?
    }

    static lemma ActiveIff(code: seq<Instr>, begin: nat, end: nat, state: seq<State>, chain: seq<int>, pc: int)
      requires Explored(code, begin, end, state, chain) && begin <= pc < end
      ensures state[pc - begin].Active? <==> pc in chain
      ensures state[pc - begin] != Bad
    {
      var k := pc - begin;
      assert begin + k == pc;
    }

    static lemma EnterKeeps(code: seq<Instr>, begin: nat, end: nat, state: seq<State>, chain: seq<int>, pc: int)
      requires Explored(code, begin, end, state, chain) && begin <= pc < end && state[pc - begin].Unseen?
      ensures Explored(code, begin, end, state[pc - begin := Active], chain + [pc])
      ensures Unseens(state[pc - begin := Active]) < Unseens(state)
    {
      var state' := state[pc - begin := Active];
      forall k | 0 <= k < |state'|
        ensures state'[k].Active? <==> begin + k in chain + [pc]
      {
        assert k != pc - begin ==> state'[k] == state[k];
      }
      assert pc - begin in Unseens(state) && pc - begin !in Unseens(state');
      assert Unseens(state') <= Unseens(state);
    }

    static lemma LeaveKeeps(code: seq<Instr>, begin: nat, end: nat, state: seq<State>, chain: seq<int>, pc: int)
      requires Explored(code, begin, end, state, chain + [pc]) && pc !in chain && begin <= pc < end
      requires AlwaysReturns(code, begin, end, pc)
      ensures Explored(code, begin, end, state[pc - begin := Good], chain)
      ensures Unseens(state[pc - begin := Good]) <= Unseens(state)
    {
      var state' := state[pc - begin := Good];
      forall k | 0 <= k < |state'|
        ensures state'[k].Active? <==> begin + k in chain
      {
        assert k != pc - begin ==> state'[k] == state[k];
        assert begin + k in chain + [pc] <==> begin + k in chain || begin + k == pc;
      }
    }

    /** Visits `pc`, reached along the active instructions of `chain`. */
    method Visit(pc: int, ghost chain: seq<int>) returns (returned: bool)
      requires Valid(chain) && Chained(code, end, chain + [pc])
      modifies this
      ensures returned ==> Valid(chain) && AlwaysReturns(code, begin, end, pc) && Unseens(state) <= old(Unseens(state))
      ensures !returned ==> StuckFrom(code, begin, end, (chain + [pc])[0])
      decreases Unseens(state), 1
    {
      if pc < begin || pc >= end {
        ChainFails(code, begin, end, chain, pc);
        return false;
      }
      var current := state[pc - begin];
      if current.Good? {
        assert AlwaysReturns(code, begin, end, begin + (pc - begin));
        return true;
      }
      ActiveIff(code, begin, end, state, chain, pc);
      if current.Active? || current.Bad? {
        ChainFails(code, begin, end, chain, pc);
        return false;
      }
      EnterKeeps(code, begin, end, state, chain, pc);
      state := state[pc - begin := Active];
      returned := Follow(pc, chain);
      if !returned {
        state := if |state| == end - begin then state[pc - begin := Bad] else state;
        return;
      }
      LeaveKeeps(code, begin, end, state, chain, pc);
      state := state[pc - begin := Good];
    }

    /** Visits the ways on from an instruction that has just become active, the second only if the first returned. */
    method Follow(pc: int, ghost chain: seq<int>) returns (returned: bool)
      requires Valid(chain + [pc]) && Chained(code, end, chain + [pc]) && begin <= pc < end
      modifies this
      ensures returned ==> Valid(chain + [pc]) && AlwaysReturns(code, begin, end, pc) && Unseens(state) <= old(Unseens(state))
      ensures !returned ==> StuckFrom(code, begin, end, (chain + [pc])[0])
      decreases Unseens(state), 2
    {
      match VerdictAt(code, end, pc) {
        case Returns =>
          assert Finishes(code, begin, end, pc, 1);
          return true;
        case Never =>
          ChainFails(code, begin, end, chain, pc);
          return false;
        case One(x) =>
          ChainedOn(code, end, chain, pc, x);
          returned := Visit(x, chain + [pc]);
          if returned {
            OneReturns(code, begin, end, pc, x);
          }
        case Both(x, y) =>
          ChainedOn(code, end, chain, pc, x);
          returned := Visit(x, chain + [pc]);
          if !returned {
            return;
          }
          ChainedOn(code, end, chain, pc, y);
          returned := Visit(y, chain + [pc]);
          if returned {
            BothReturn(code, begin, end, pc, x, y);
          }
      }
    }
  }

  ghost predicate StuckFrom(code: seq<Instr>, begin: nat, end: nat, root: int) {
    exists s :: Stuck(code, begin, end, s) && root in s
  }

  lemma ChainFails(code: seq<Instr>, begin: nat, end: nat, chain: seq<int>, last: int)
    requires Chained(code, end, chain + [last])
    requires !(begin <= last < end && last < |code|) || VerdictAt(code, end, last).Never? || last in chain
    ensures StuckFrom(code, begin, end, (chain + [last])[0])
  {
    ChainIsStuck(code, begin, end, chain, last);
    assert (chain + [last])[0] in Members(chain + [last]);
  }

  lemma ChainedOn(code: seq<Instr>, end: nat, chain: seq<int>, pc: int, next: int)
    requires Chained(code, end, chain + [pc]) && Link(code, end, pc, next)
    ensures Chained(code, end, chain + [pc] + [next]) && (chain + [pc] + [next])[0] == (chain + [pc])[0]
  {
    var all := chain + [pc] + [next];
    forall i: nat | i + 1 < |all|
      ensures LinkAt(code, end, all, i)
    {
      if i < |chain| {
        assert LinkAt(code, end, chain + [pc], i);
        assert all[i] == (chain + [pc])[i] && all[i + 1] == (chain + [pc])[i + 1];
      }
    }
  }

  lemma OneReturns(code: seq<Instr>, begin: nat, end: nat, pc: int, x: int)
    requires begin <= pc < end <= |code| && VerdictAt(code, end, pc) == One(x) && AlwaysReturns(code, begin, end, x)
    ensures AlwaysReturns(code, begin, end, pc)
  {
    var n: nat :| Finishes(code, begin, end, x, n);
    assert Finishes(code, begin, end, pc, n + 1);
  }

  lemma BothReturn(code: seq<Instr>, begin: nat, end: nat, pc: int, x: int, y: int)
    requires begin <= pc < end <= |code| && VerdictAt(code, end, pc) == Both(x, y)
    requires AlwaysReturns(code, begin, end, x) && AlwaysReturns(code, begin, end, y)
    ensures AlwaysReturns(code, begin, end, pc)
  {
    var n: nat :| Finishes(code, begin, end, x, n);
    var m: nat :| Finishes(code, begin, end, y, m);
    var most := if n > m then n else m;
    FinishesLater(code, begin, end, x, n, most);
    FinishesLater(code, begin, end, y, m, most);
    assert Finishes(code, begin, end, pc, most + 1);
  }

  /** Answers yes exactly for short ranges all of whose paths return. */
  method AllPathsReturn(code: seq<Instr>, begin: int, end: int) returns (result: bool)
    ensures result <==> 0 <= begin < end <= |code| && end - begin <= MAX_RANGE && AlwaysReturns(code, begin, end, begin)
  {
    if begin < 0 || begin >= end || end > |code| || end - begin > MAX_RANGE {
      return false;
    }
    var search := new Search(code, begin, end);
    result := search.Visit(begin, []);
    if !result {
      ghost var s :| Stuck(code, begin, end, s) && begin in s;
      forall n: nat
        ensures !Finishes(code, begin, end, begin, n)
      {
        StuckNeverFinishes(code, begin, end, s, begin, n);
      }
    }
  }

  // ---------- operand words ----------

  /** Operand words are stepped over one at a time. */
  lemma {:induction false} OverOperands(code: seq<Instr>, begin: nat, end: nat, pc: nat, j: nat, n: nat) returns (m: nat)
    requires WellFormed(code) && pc < |code| && Boundary(code, pc) && 1 <= j <= Size(code[pc]) && pc + j <= |code|
    requires Finishes(code, begin, end, pc + j, n)
    ensures m <= n && Finishes(code, begin, end, pc + Size(code[pc]), m)
    decreases Size(code[pc]) - j
  {
    if j < Size(code[pc]) {
      assert Tiled(code, pc);
      assert !Boundary(code, pc + j) && code[pc + j].op.Plain?;
      m := OverOperands(code, begin, end, pc, j + 1, n - 1);
    } else {
      m := n;
    }
  }

  // ---------- the search and the recorded control flow ----------

  predicate IsLoop(i: Instr) {
    i.op.ForLoop? || i.op.ForPrep? || i.op.TForLoop?
  }

  predicate IsReturn(i: Instr) {
    i.op.TailCall? || i.op.Return?
  }

  ghost predicate AllSettle(code: seq<Instr>, begin: nat, end: nat, pc: nat, n: nat)
    requires pc < |code|
    decreases n, 1
  {
    forall t {:trigger Settles(code, begin, end, t, n)} :: t in ControlSuccessors(code, pc) ==> Settles(code, begin, end, t, n)
  }

  /** Along every path of recorded edges from `pc`, a return comes within `n` instructions, all in the range and none a loop's. */
  ghost predicate Settles(code: seq<Instr>, begin: nat, end: nat, pc: int, n: nat)
    decreases n, 0
  {
    && n > 0 && begin <= pc < end && Boundary(code, pc) && !IsLoop(code[pc])
    && (IsReturn(code[pc]) || AllSettle(code, begin, end, pc, n - 1))
  }

  ghost predicate AlwaysSettles(code: seq<Instr>, begin: nat, end: nat, pc: int) {
    exists n: nat :: Settles(code, begin, end, pc, n)
  }

  lemma SuccessorsOf(code: seq<Instr>, pc: nat)
    requires WellFormed(code) && pc < |code| && Boundary(code, pc) && !IsLoop(code[pc]) && !IsReturn(code[pc])
    ensures Tiled(code, pc) && TargetsOk(code, pc)
    ensures forall t :: t in ControlSuccessors(code, pc) <==>
      if code[pc].op.Jmp? then t == code[pc].target
      else if IsCondition(code[pc]) then t == code[pc + 1].target || t == pc + 2
      else if code[pc].op.LoadBool? && code[pc].c != 0 then t == pc + 2
      else t == pc + Size(code[pc])
  {
    assert Tiled(code, pc) && TargetsOk(code, pc);
    if IsCondition(code[pc]) {
      assert TargetsOk(code, pc + 1);
    }
  }

  lemma {:induction false} FinishesSettles(code: seq<Instr>, begin: nat, end: nat, pc: nat, n: nat)
    requires WellFormed(code) && end <= |code| && Boundary(code, pc) && Finishes(code, begin, end, pc, n)
    ensures Settles(code, begin, end, pc, n)
    decreases n
  {
    if !IsReturn(code[pc]) {
      SuccessorsOf(code, pc);
      forall t | t in ControlSuccessors(code, pc) ensures Settles(code, begin, end, t, n - 1) {
        SuccessorFinishes(code, begin, end, pc, n, t);
        FinishesSettles(code, begin, end, t, n - 1);
      }
    }
  }

  lemma SuccessorFinishes(code: seq<Instr>, begin: nat, end: nat, pc: nat, n: nat, t: int)
    requires WellFormed(code) && end <= |code| && Boundary(code, pc) && Finishes(code, begin, end, pc, n) && !IsReturn(code[pc])
    requires t in ControlSuccessors(code, pc)
    ensures Boundary(code, t) && Finishes(code, begin, end, t, n - 1)
  {
    SuccessorsOf(code, pc);
    if IsCondition(code[pc]) {
      assert TargetsOk(code, pc + 1);
    } else if !IsTransfer(code[pc]) {
      var m := OverOperands(code, begin, end, pc, 1, n - 1);
      FinishesLater(code, begin, end, pc + Size(code[pc]), m, n - 1);
    }
  }

  lemma {:induction false} BackOverOperands(code: seq<Instr>, begin: nat, end: nat, pc: nat, j: nat, n: nat)
    requires WellFormed(code) && begin <= pc < end <= |code| && Boundary(code, pc) && 1 <= j <= Size(code[pc])
    requires Finishes(code, begin, end, pc + Size(code[pc]), n)
    ensures AlwaysReturns(code, begin, end, pc + j)
    decreases Size(code[pc]) - j
  {
    assert Tiled(code, pc);
    if j < Size(code[pc]) {
      assert pc + j < end && !Boundary(code, pc + j) && code[pc + j].op.Plain?;
      BackOverOperands(code, begin, end, pc, j + 1, n);
      OneReturns(code, begin, end, pc + j, pc + j + 1);
    }
  }

  lemma {:induction false} SettlesReturns(code: seq<Instr>, begin: nat, end: nat, pc: nat, n: nat)
    requires WellFormed(code) && end <= |code| && Settles(code, begin, end, pc, n)
    ensures AlwaysReturns(code, begin, end, pc)
    decreases n
  {
    if IsReturn(code[pc]) {
      assert Finishes(code, begin, end, pc, 1);
    } else {
      SuccessorsOf(code, pc);
      forall t | t in ControlSuccessors(code, pc) ensures begin <= t < end && AlwaysReturns(code, begin, end, t) {
        assert Settles(code, begin, end, t, n - 1);
        SettlesReturns(code, begin, end, t, n - 1);
      }
      OnwardReturns(code, begin, end, pc);
    }
  }

  lemma OnwardReturns(code: seq<Instr>, begin: nat, end: nat, pc: nat)
    requires WellFormed(code) && begin <= pc < end <= |code| && Boundary(code, pc) && !IsLoop(code[pc]) && !IsReturn(code[pc])
    requires forall t {:trigger AlwaysReturns(code, begin, end, t)} :: t in ControlSuccessors(code, pc) ==>
      begin <= t < end && AlwaysReturns(code, begin, end, t)
    ensures AlwaysReturns(code, begin, end, pc)
  {
    SuccessorsOf(code, pc);
    if code[pc].op.Jmp? {
      assert AlwaysReturns(code, begin, end, code[pc].target);
      OneReturns(code, begin, end, pc, code[pc].target);
    } else if IsCondition(code[pc]) {
      var t := code[pc + 1].target;
      assert AlwaysReturns(code, begin, end, t) && AlwaysReturns(code, begin, end, pc + 2);
      BothReturn(code, begin, end, pc, pc + 2, t);
    } else if code[pc].op.LoadBool? && code[pc].c != 0 {
      assert AlwaysReturns(code, begin, end, pc + 2);
      OneReturns(code, begin, end, pc, pc + 2);
    } else {
      assert AlwaysReturns(code, begin, end, pc + Size(code[pc]));
      var n: nat :| Finishes(code, begin, end, pc + Size(code[pc]), n);
      BackOverOperands(code, begin, end, pc, 1, n);
      OneReturns(code, begin, end, pc, pc + 1);
    }
  }

  /**
   In well-formed code the search says yes exactly if every path of recorded edges comes to a return, without leaving the
   range, closing a cycle or meeting a loop instruction.
   */
  lemma AlwaysReturnsIff(code: seq<Instr>, begin: nat, end: nat)
    requires WellFormed(code) && begin < end <= |code| && Boundary(code, begin)
    ensures AlwaysReturns(code, begin, end, begin) <==> AlwaysSettles(code, begin, end, begin)
  {
    if AlwaysReturns(code, begin, end, begin) {
      var n: nat :| Finishes(code, begin, end, begin, n);
      FinishesSettles(code, begin, end, begin, n);
    }
    if AlwaysSettles(code, begin, end, begin) {
      var n: nat :| Settles(code, begin, end, begin, n);
      SettlesReturns(code, begin, end, begin, n);
    }
  }

  // ---------- the machine ----------

  /** Where the search finishes the machine halts inside the range, whatever its tests answer. */
  lemma {:induction false} FinishesHalts<S>(code: seq<Instr>, sem: Sem<S>, begin: nat, end: nat, pc: nat, s: S, n: nat)
    requires WellFormed(code) && Boundary(code, pc) && Finishes(code, begin, end, pc, n)
    ensures exists k: nat :: Run(code, sem, begin, end, At(pc, s), k).Halted?
    decreases n
  {
    assert Tiled(code, pc) && TargetsOk(code, pc);
    var next := Step(code, sem, pc, s);
    if next.Halted? {
      assert Run(code, sem, begin, end, At(pc, s), 1) == Run(code, sem, begin, end, next, 0);
      assert Run(code, sem, begin, end, At(pc, s), 1).Halted?;
    } else {
      var m := FinishesNext(code, sem, begin, end, pc, s, n);
      FinishesHalts(code, sem, begin, end, next.pc, next.state, m);
      var k: nat :| Run(code, sem, begin, end, At(next.pc, next.state), k).Halted?;
      assert Run(code, sem, begin, end, At(pc, s), k + 1) == Run(code, sem, begin, end, next, k);
    }
  }

  lemma FinishesNext<S>(code: seq<Instr>, sem: Sem<S>, begin: nat, end: nat, pc: nat, s: S, n: nat) returns (m: nat)
    requires WellFormed(code) && Boundary(code, pc) && Finishes(code, begin, end, pc, n) && Step(code, sem, pc, s).At?
    ensures var next := Step(code, sem, pc, s); m < n && Boundary(code, next.pc) && Finishes(code, begin, end, next.pc, m)
  {
    var next := Step(code, sem, pc, s);
    StepFollowsEdge(code, sem, pc, s);
    if IsTransfer(code[pc]) {
      m := n - 1;
    } else {
      m := OverOperands(code, begin, end, pc, 1, n - 1);
    }
  }

  /** If the search says so, the machine started at the range's first instruction returns and never leaves the range. */
  lemma AllPathsReturnHalts<S>(code: seq<Instr>, sem: Sem<S>, begin: nat, end: nat, s: S)
    requires WellFormed(code) && Boundary(code, begin) && AlwaysReturns(code, begin, end, begin)
    ensures exists k: nat :: Run(code, sem, begin, end, At(begin, s), k).Halted?
  {
    var n: nat :| Finishes(code, begin, end, begin, n);
    FinishesHalts(code, sem, begin, end, begin, s, n);
  }
}
