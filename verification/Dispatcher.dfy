/** The emitted program-counter dispatcher, and its simulation of the machine. */
module Dispatcher {
  import opened Lua51
  import opened Sorting

  // ---------- the emitted program ----------

  /** Statements of a block; `pc` names the instruction whose registers they mention. */
  datatype Stmt =
    | Do(pc: nat)                                             // the rendered effect of one instruction
    | SetPc(value: int)
    | IfCompare(pc: nat, expected: bool, target: int, other: int)
    | IfTest(pc: nat, flag: bool, assigns: bool, target: int, other: int)
    | IfLoop(pc: nat, target: int, other: int)
    | IfIterator(pc: nat, target: int, other: int)
    | Exit(pc: nat)                                           // a return statement

  /** The binary decision on the program counter. */
  datatype Tree = Leaf(body: seq<Stmt>) | Split(at: int, below: Tree, rest: Tree)

  /** Runs the statements of a block: how the program counter variable and the state come out. */
  function Exec<S>(sem: Sem<S>, body: seq<Stmt>, pcVar: int, s: S): Config<S> {
    if body == [] then At(pcVar, s)
    else
      match body[0] {
        case Do(pc) => Exec(sem, body[1..], pcVar, sem.effect(pc, s))
        case SetPc(value) => Exec(sem, body[1..], value, s)
        case IfCompare(pc, expected, target, other) =>
          Exec(sem, body[1..], if sem.truth(pc, s) == expected then target else other, sem.effect(pc, s))
        case IfTest(pc, flag, assigns, target, other) =>
          if (!sem.truth(pc, s)) != flag then Exec(sem, body[1..], target, if assigns then sem.taken(pc, s) else s)
          else Exec(sem, body[1..], other, s)
        case IfLoop(pc, target, other) =>
          var next := sem.effect(pc, s);
          if sem.truth(pc, next) then Exec(sem, body[1..], target, sem.taken(pc, next)) else Exec(sem, body[1..], other, next)
        case IfIterator(pc, target, other) =>
          var next := sem.effect(pc, s);
          if sem.truth(pc, next) then Exec(sem, body[1..], target, sem.taken(pc, next)) else Exec(sem, body[1..], other, next)
        case Exit(pc) => Halted(sem.effect(pc, s))
      }
  }

  function ExecTree<S>(sem: Sem<S>, tree: Tree, pcVar: int, s: S): Config<S> {
    match tree {
      case Leaf(body) => Exec(sem, body, pcVar, s)
      case Split(at, below, rest) => if pcVar < at then ExecTree(sem, below, pcVar, s) else ExecTree(sem, rest, pcVar, s)
    }
  }

  /** At most `n` iterations of `while pc >= begin and pc < end do ... end`. */
  function Loop<S>(sem: Sem<S>, begin: nat, end: nat, tree: Tree, c: Config<S>, n: nat): Config<S>
    decreases n
  {
    if n == 0 || c.Halted? || !(begin <= c.pc < end) then c
    else Loop(sem, begin, end, tree, ExecTree(sem, tree, c.pc, c.state), n - 1)
  }

  // ---------- emission of one block ----------

  /** The statements emitted for the instructions from `pc` up to `end`. */
  function BlockBody(code: seq<Instr>, pc: nat, end: nat): seq<Stmt>
    requires end <= |code|
    decreases end - pc
  {
    if pc >= end then [SetPc(end)]
    else
      var i := code[pc];
      if !Boundary(code, pc) then BlockBody(code, pc + 1, end)
      else if IsTransfer(i) then TransferStmts(code, pc)
      else [Do(pc)] + BlockBody(code, pc + Size(i), end)
  }

  /** The statements a transfer ends its block with. */
  function TransferStmts(code: seq<Instr>, pc: nat): seq<Stmt>
    requires pc < |code| && IsTransfer(code[pc])
  {
    var i := code[pc];
    match i.op {
      case Jmp => [SetPc(i.target)]
      case Compare => [IfCompare(pc, i.a != 0, FollowingTarget(code, pc), pc + 2)]
      case Test => [IfTest(pc, i.c != 0, false, FollowingTarget(code, pc), pc + 2)]
      case TestSet => [IfTest(pc, i.c != 0, true, FollowingTarget(code, pc), pc + 2)]
      case ForLoop => [IfLoop(pc, i.target, pc + 1)]
      case ForPrep => [Do(pc), SetPc(i.target)]
      case TForLoop => [IfIterator(pc, FollowingTarget(code, pc), pc + 2)]
      case LoadBool => [Do(pc), SetPc(pc + 2)]
      case _ => [Exit(pc)]
    }
  }

  /** The branches of the emitting loop that finish a block. */
  method EmitTransfer(code: seq<Instr>, pc: nat) returns (out: seq<Stmt>)
    requires pc < |code| && IsTransfer(code[pc])
    ensures out == TransferStmts(code, pc)
  {
    var i := code[pc];
    if i.op.Jmp? {
      return [SetPc(i.target)];
    }
    if IsCondition(i) {
      var target := FollowingTarget(code, pc);
      if i.op.Compare? {
        return [IfCompare(pc, i.a != 0, target, pc + 2)];
      }
      return [IfTest(pc, i.c != 0, i.op.TestSet?, target, pc + 2)];
    }
    if i.op.ForLoop? {
      return [IfLoop(pc, i.target, pc + 1)];
    }
    if i.op.ForPrep? {
      return [Do(pc), SetPc(i.target)];
    }
    if i.op.TForLoop? {
      return [IfIterator(pc, FollowingTarget(code, pc), pc + 2)];
    }
    if i.op.TailCall? || i.op.Return? {
      return [Exit(pc)];
    }
    out := [Do(pc), SetPc(pc + 2)];
  }

  /** The emitting loop. */
  method EmitPcBlock(code: seq<Instr>, start: nat, end: nat) returns (out: seq<Stmt>)
    requires end <= |code|
    ensures out == BlockBody(code, start, end)
  {
    out := [];
    var pc := start;
    while pc < end
      invariant out + BlockBody(code, pc, end) == BlockBody(code, start, end)
      decreases end - pc
    {
      var i := code[pc];
      if i.binding || i.extraWord {
        pc := pc + 1;
        continue;
      }
      if IsTransfer(i) {
        var last := EmitTransfer(code, pc);
        return out + last;
      }
      ghost var before := out;
      out := out + [Do(pc)];
      assert before + ([Do(pc)] + BlockBody(code, pc + Size(i), end)) == out + BlockBody(code, pc + Size(i), end);
      if i.op.SetList? && i.c == 0 {
        pc := pc + 2;
        continue;
      }
      if i.op.Closure? {
        pc := pc + 1 + i.captures;
        continue;
      }
      pc := pc + 1;
    }
    out := out + [SetPc(end)];
  }

  // ---------- leaders ----------

  /** The program counters after which the instruction at `pc` makes a new block start. */
  function Marks(code: seq<Instr>, pc: nat): set<int>
    requires pc < |code|
  {
    var i := code[pc];
    match i.op {
      case Jmp => {pc + 1, i.target}
      case ForLoop => {pc + 1, i.target}
      case ForPrep => {pc + 1, i.target}
      case Compare => {pc + 1, pc + 2, FollowingTarget(code, pc)}
      case Test => {pc + 1, pc + 2, FollowingTarget(code, pc)}
      case TestSet => {pc + 1, pc + 2, FollowingTarget(code, pc)}
      case TForLoop => {pc + 1, pc + 2, FollowingTarget(code, pc)}
      case LoadBool => if i.c != 0 then {pc + 1, pc + 2} else {}
      case Return => {pc + 1}
      case SetList => if i.c == 0 then {pc + 2} else {}
      case Closure => {pc + 1 + i.captures}
      case _ => {}
    }
  }

  /** Some instruction of `begin..upTo` makes a block start at `pc`. */
  ghost predicate Marked(code: seq<Instr>, begin: nat, upTo: nat, pc: int)
    requires upTo <= |code|
  {
    exists k :: begin <= k < upTo && MarkedBy(code, k, pc)
  }

  ghost predicate MarkedBy(code: seq<Instr>, k: nat, pc: int)
    requires k < |code|
  {
    Boundary(code, k) && pc in Marks(code, k)
  }

  ghost predicate IsLeader(code: seq<Instr>, begin: nat, end: nat, pc: int)
    requires end <= |code|
  {
    pc == begin || (begin <= pc < end && Boundary(code, pc) && Marked(code, begin, end, pc))
  }

  ghost predicate IsLeaderList(code: seq<Instr>, begin: nat, end: nat, starts: seq<nat>)
    requires end <= |code|
  {
    Ascending(starts) && forall pc: nat :: pc in starts <==> IsLeader(code, begin, end, pc)
  }

  /** The leaders with `pc` added, when it names an instruction of the range. */
  function AddLeader(code: seq<Instr>, begin: nat, end: nat, leaders: set<nat>, pc: int): set<nat>
    requires end <= |code|
  {
    if pc >= begin && pc < end && !code[pc].extraWord && !code[pc].binding then leaders + {pc as nat} else leaders
  }

  method MarkLeaders(code: seq<Instr>, begin: nat, end: nat, pc: nat, leaders: set<nat>) returns (leaders': set<nat>)
    requires pc < end <= |code|
    ensures forall l: nat :: l in leaders' <==> l in leaders || (l in Marks(code, pc) && begin <= l < end && Boundary(code, l))
  {
    leaders' := leaders;
    var i := code[pc];
    if i.op.Jmp? || i.op.ForLoop? || i.op.ForPrep? {
      leaders' := AddLeader(code, begin, end, leaders', pc + 1);
      leaders' := AddLeader(code, begin, end, leaders', i.target);
    } else if IsCondition(i) || i.op.TForLoop? {
      leaders' := AddLeader(code, begin, end, leaders', pc + 1);
      leaders' := AddLeader(code, begin, end, leaders', pc + 2);
      leaders' := AddLeader(code, begin, end, leaders', FollowingTarget(code, pc));
    } else if i.op.LoadBool? && i.c != 0 {
      leaders' := AddLeader(code, begin, end, leaders', pc + 1);
      leaders' := AddLeader(code, begin, end, leaders', pc + 2);
    } else if i.op.Return? {
      leaders' := AddLeader(code, begin, end, leaders', pc + 1);
    } else if i.op.SetList? && i.c == 0 {
      leaders' := AddLeader(code, begin, end, leaders', pc + 2);
    } else if i.op.Closure? {
      leaders' := AddLeader(code, begin, end, leaders', pc + 1 + i.captures);
    }
  }

  lemma MarkedGrows(code: seq<Instr>, begin: nat, upTo: nat, pc: int)
    requires begin <= upTo < |code|
    ensures Marked(code, begin, upTo + 1, pc) <==> Marked(code, begin, upTo, pc) || MarkedBy(code, upTo, pc)
  {
    if MarkedBy(code, upTo, pc) {
      assert begin <= upTo < upTo + 1;
    }
  }

  ghost predicate LeadersSoFar(code: seq<Instr>, begin: nat, end: nat, upTo: nat, leaders: set<nat>)
    requires upTo <= end <= |code|
  {
    forall l: nat :: l in leaders <==> l == begin || (begin <= l < end && Boundary(code, l) && Marked(code, begin, upTo, l))
  }

  lemma LeadersStep(code: seq<Instr>, begin: nat, end: nat, upTo: nat, leaders: set<nat>, leaders': set<nat>)
    requires begin <= upTo < end <= |code| && LeadersSoFar(code, begin, end, upTo, leaders)
    requires forall l: nat :: l in leaders' <==> l in leaders || (MarkedBy(code, upTo, l) && begin <= l < end && Boundary(code, l))
    ensures LeadersSoFar(code, begin, end, upTo + 1, leaders')
  {
    forall l: nat
      ensures l in leaders' <==> l == begin || (begin <= l < end && Boundary(code, l) && Marked(code, begin, upTo + 1, l))
    {
      MarkedGrows(code, begin, upTo, l);
    }
  }

  /** The starts of the dispatcher's blocks, in ascending order. */
  method CollectLeaders(code: seq<Instr>, begin: nat, end: nat) returns (starts: seq<nat>)
    requires begin < end <= |code|
    ensures IsLeaderList(code, begin, end, starts)
  {
    var leaders: set<nat> := {begin};
    var pc := begin;
    while pc < end
      invariant begin <= pc <= end && LeadersSoFar(code, begin, end, pc, leaders)
    {
      ghost var before := leaders;
      if !code[pc].binding && !code[pc].extraWord {
        leaders := MarkLeaders(code, begin, end, pc, leaders);
      }
      LeadersStep(code, begin, end, pc, before, leaders);
      pc := pc + 1;
    }
    starts := SortLeaders(begin, end, leaders);
  }

  /** The ordered set of leaders as a vector. */
  method SortLeaders(begin: nat, end: nat, leaders: set<nat>) returns (starts: seq<nat>)
    requires begin <= end && forall l :: l in leaders ==> begin <= l < end
    ensures Ascending(starts) && forall l: nat :: l in starts <==> l in leaders
  {
    starts := [];
    var pc := begin;
    while pc < end
      invariant begin <= pc <= end
      invariant Ascending(starts) && forall i :: 0 <= i < |starts| ==> starts[i] < pc
      invariant forall l: nat :: l in starts <==> l in leaders && l < pc
    {
      if pc in leaders {
        starts := starts + [pc];
      }
      pc := pc + 1;
    }
  }

  // ---------- the decision tree ----------

  function BlockEnd(starts: seq<nat>, end: nat, n: nat): nat {
    if n + 1 < |starts| then starts[n + 1] else end
  }

  /** The tree over the blocks `first..last`, halved at the middle block's start. */
  function Dispatch(code: seq<Instr>, starts: seq<nat>, end: nat, first: nat, last: nat): Tree
    requires first < last <= |starts| && end <= |code|
    requires forall n :: 0 <= n < |starts| ==> starts[n] < end
    decreases last - first
  {
    if last - first == 1 then Leaf(BlockBody(code, starts[first], BlockEnd(starts, end, first)))
    else
      var middle := first + (last - first) / 2;
      Split(starts[middle], Dispatch(code, starts, end, first, middle), Dispatch(code, starts, end, middle, last))
  }

  /** The tree runs exactly the block whose start the program counter holds. */
  lemma {:induction false} TreeSelects<S>(code: seq<Instr>, sem: Sem<S>, starts: seq<nat>, end: nat, first: nat, last: nat, n: nat, s: S)
    requires first <= n < last <= |starts| && end <= |code| && Ascending(starts)
    requires forall m :: 0 <= m < |starts| ==> starts[m] < end
    ensures ExecTree(sem, Dispatch(code, starts, end, first, last), starts[n], s)
         == Exec(sem, BlockBody(code, starts[n], BlockEnd(starts, end, n)), starts[n], s)
    decreases last - first
  {
    if last - first > 1 {
      var middle := first + (last - first) / 2;
      if n < middle {
        TreeSelects(code, sem, starts, end, first, middle, n, s);
      } else {
        TreeSelects(code, sem, starts, end, middle, last, n, s);
      }
    }
  }

  method EmitDispatch(code: seq<Instr>, starts: seq<nat>, end: nat, first: nat, last: nat) returns (tree: Tree)
    requires first < last <= |starts| && end <= |code|
    requires forall n :: 0 <= n < |starts| ==> starts[n] < end
    ensures tree == Dispatch(code, starts, end, first, last)
    decreases last - first
  {
    if last - first == 1 {
      var body := EmitPcBlock(code, starts[first], if first + 1 < |starts| then starts[first + 1] else end);
      return Leaf(body);
    }
    var middle := first + (last - first) / 2;
    var below := EmitDispatch(code, starts, end, first, middle);
    var rest := EmitDispatch(code, starts, end, middle, last);
    tree := Split(starts[middle], below, rest);
  }

  /** `local pc = begin; while pc >= begin and pc < end do tree end`; nothing at all for an impossible range. */
  datatype Program = Nothing | Dispatcher(begin: nat, end: nat, tree: Tree)

  ghost predicate IsDispatcher(code: seq<Instr>, begin: nat, end: nat, tree: Tree) {
    exists starts :: Built(code, begin, end, starts, tree)
  }

  ghost predicate Built(code: seq<Instr>, begin: nat, end: nat, starts: seq<nat>, tree: Tree) {
    && begin < end <= |code| && IsLeaderList(code, begin, end, starts) && |starts| > 0
    && (forall n :: 0 <= n < |starts| ==> starts[n] < end)
    && tree == Dispatch(code, starts, end, 0, |starts|)
  }

  method EmitPcDispatcherRange(code: seq<Instr>, begin: int, end: int) returns (program: Program)
    ensures program.Nothing? <==> !(0 <= begin < end <= |code|)
    ensures program.Dispatcher? ==> program.begin == begin && program.end == end && IsDispatcher(code, begin, end, program.tree)
  {
    if code == [] || begin < 0 || end > |code| || end <= begin {
      return Nothing;
    }
    var starts := CollectLeaders(code, begin, end);
    assert IsLeader(code, begin, end, begin);
    forall n | 0 <= n < |starts|
      ensures starts[n] < end
    {
      assert starts[n] in starts;
    }
    var tree := EmitDispatch(code, starts, end, 0, |starts|);
    assert Built(code, begin, end, starts, tree);
    program := Dispatcher(begin, end, tree);
  }

  // ---------- one block ----------

  /** No instruction of the range has words behind the range. */
  ghost predicate NoStraddle(code: seq<Instr>, begin: nat, end: nat) {
    forall pc {:trigger Boundary(code, pc)} :: begin <= pc < end && Boundary(code, pc) ==> pc + Size(code[pc]) <= end
  }

  lemma WholeCodeNoStraddle(code: seq<Instr>)
    requires WellFormed(code)
    ensures NoStraddle(code, 0, |code|)
  {
    forall pc | 0 <= pc < |code| && Boundary(code, pc)
      ensures pc + Size(code[pc]) <= |code|
    {
      assert Tiled(code, pc);
    }
  }

  /** How many instructions the block runs. */
  ghost function BlockSteps(code: seq<Instr>, pc: nat, end: nat): nat
    requires end <= |code|
    decreases end - pc
  {
    if pc >= end then 0
    else if IsTransfer(code[pc]) then 1
    else 1 + BlockSteps(code, pc + Size(code[pc]), end)
  }

  lemma FollowingIsTarget(code: seq<Instr>, pc: nat)
    requires WellFormed(code) && Boundary(code, pc) && (IsCondition(code[pc]) || code[pc].op.TForLoop?)
    ensures pc + 1 < |code| && FollowingTarget(code, pc) == code[pc + 1].target
  {
    assert TargetsOk(code, pc);
    assert TargetsOk(code, pc + 1);
  }

  lemma ExecSetPc<S>(sem: Sem<S>, value: int, pcVar: int, s: S)
    ensures Exec(sem, [SetPc(value)], pcVar, s) == At(value, s)
  {
  }

  /** The statements of a transfer do what the machine does. */
  lemma TransferSimulates<S>(code: seq<Instr>, sem: Sem<S>, pc: nat, pcVar: int, s: S)
    requires WellFormed(code) && Boundary(code, pc) && IsTransfer(code[pc])
    ensures Exec(sem, TransferStmts(code, pc), pcVar, s) == Step(code, sem, pc, s)
  {
    if IsCondition(code[pc]) || code[pc].op.TForLoop? {
      FollowingIsTarget(code, pc);
    } else if code[pc].op.ForPrep? || code[pc].op.LoadBool? {
      var last := TransferStmts(code, pc)[1];
      assert [Do(pc), last][1..] == [last];
      ExecSetPc(sem, last.value, pcVar, sem.effect(pc, s));
    }
  }

  /** The statements of a block do what the machine does on the block's instructions. */
  lemma {:induction false} BlockSimulates<S>(
    code: seq<Instr>, sem: Sem<S>, begin: nat, end: nat, pc: nat, stop: nat, pcVar: int, s: S)
    requires WellFormed(code) && begin <= pc <= stop <= end <= |code|
    requires pc < stop ==> Boundary(code, pc)
    requires NoStraddle(code, begin, end) && (stop < end ==> Boundary(code, stop))
    ensures Exec(sem, BlockBody(code, pc, stop), pcVar, s)
         == Run(code, sem, begin, end, At(pc, s), BlockSteps(code, pc, stop))
    decreases stop - pc
  {
    if pc < stop {
      var step := Step(code, sem, pc, s);
      assert Running(code, begin, end, At(pc, s));
      if IsTransfer(code[pc]) {
        TransferSimulates(code, sem, pc, pcVar, s);
        assert Run(code, sem, begin, end, step, 0) == step;
      } else {
        assert Tiled(code, pc);
        var next := pc + Size(code[pc]);
        assert next <= stop;
        BlockSimulates(code, sem, begin, end, next, stop, pcVar, sem.effect(pc, s));
        assert ([Do(pc)] + BlockBody(code, next, stop))[1..] == BlockBody(code, next, stop);
      }
    }
  }
}
