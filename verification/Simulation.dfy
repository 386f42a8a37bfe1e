/** The dispatcher loop simulates the machine, in both directions. */
module Simulation {
  import opened Lua51
  import opened Dispatcher

  /** A loop head: control has left the range, or the program counter is the start of a block. */
  ghost predicate AtHead<S>(starts: seq<nat>, begin: nat, end: nat, c: Config<S>) {
    Stopped(begin, end, c) || c.pc in starts
  }

  predicate Stopped<S>(begin: nat, end: nat, c: Config<S>) {
    c.Halted? || !(begin <= c.pc < end)
  }

  /** A dispatcher over a range that starts at an instruction and cuts none. */
  ghost predicate Sound(code: seq<Instr>, begin: nat, end: nat, starts: seq<nat>, tree: Tree) {
    WellFormed(code) && Built(code, begin, end, starts, tree) && Boundary(code, begin) && NoStraddle(code, begin, end)
  }

  lemma HeadIsBoundary(code: seq<Instr>, begin: nat, end: nat, starts: seq<nat>, tree: Tree, pc: nat)
    requires Sound(code, begin, end, starts, tree) && pc in starts
    ensures begin <= pc < end && Boundary(code, pc)
  {
    assert IsLeader(code, begin, end, pc);
  }

  /** Wherever a transfer goes inside the range, a block starts. */
  lemma TransferLandsOnHead<S>(
    code: seq<Instr>, sem: Sem<S>, begin: nat, end: nat, starts: seq<nat>, tree: Tree, pc: nat, s: S)
    requires Sound(code, begin, end, starts, tree) && begin <= pc < end && Boundary(code, pc) && IsTransfer(code[pc])
    ensures AtHead(starts, begin, end, Step(code, sem, pc, s))
  {
    var next := Step(code, sem, pc, s);
    if !Stopped(begin, end, next) {
      StepFollowsEdge(code, sem, pc, s);
      if IsCondition(code[pc]) || code[pc].op.TForLoop? {
        FollowingIsTarget(code, pc);
      }
      assert MarkedBy(code, pc, next.pc);
      assert IsLeader(code, begin, end, next.pc);
      var target: nat := next.pc;
      assert target in starts;
    }
  }

  /** A block leaves control at a loop head. */
  lemma {:induction false} BlockLandsOnHead<S>(
    code: seq<Instr>, sem: Sem<S>, begin: nat, end: nat, starts: seq<nat>, tree: Tree, pc: nat, stop: nat, s: S)
    requires Sound(code, begin, end, starts, tree) && begin <= pc <= stop <= end && (stop < end ==> stop in starts)
    requires pc < stop ==> Boundary(code, pc)
    ensures AtHead(starts, begin, end, Run(code, sem, begin, end, At(pc, s), BlockSteps(code, pc, stop)))
    decreases stop - pc
  {
    if pc < stop {
      assert Running(code, begin, end, At(pc, s));
      if IsTransfer(code[pc]) {
        TransferLandsOnHead(code, sem, begin, end, starts, tree, pc, s);
      } else {
        assert Tiled(code, pc);
        if stop < end {
          HeadIsBoundary(code, begin, end, starts, tree, stop);
        }
        BlockLandsOnHead(code, sem, begin, end, starts, tree, pc + Size(code[pc]), stop, sem.effect(pc, s));
      }
    }
  }

  /** One iteration runs the block at the program counter: at least one machine step, ending at a loop head. */
  lemma IterationSimulates<S>(
    code: seq<Instr>, sem: Sem<S>, begin: nat, end: nat, starts: seq<nat>, tree: Tree, pc: nat, s: S) returns (k: nat)
    requires Sound(code, begin, end, starts, tree) && pc in starts
    ensures k > 0 && ExecTree(sem, tree, pc, s) == Run(code, sem, begin, end, At(pc, s), k)
    ensures AtHead(starts, begin, end, ExecTree(sem, tree, pc, s))
  {
    var n :| 0 <= n < |starts| && starts[n] == pc;
    var stop := BlockEnd(starts, end, n);
    HeadIsBoundary(code, begin, end, starts, tree, pc);
    if n + 1 < |starts| {
      assert stop in starts;
      HeadIsBoundary(code, begin, end, starts, tree, stop);
    }
    TreeSelects(code, sem, starts, end, 0, |starts|, n, s);
    BlockSimulates(code, sem, begin, end, pc, stop, pc, s);
    BlockLandsOnHead(code, sem, begin, end, starts, tree, pc, stop, s);
    k := BlockSteps(code, pc, stop);
  }

  /** At every loop head the program counter variable and the state are the machine's, and time advances. */
  lemma {:induction false} LoopSimulates<S>(
    code: seq<Instr>, sem: Sem<S>, begin: nat, end: nat, starts: seq<nat>, tree: Tree, c: Config<S>, n: nat) returns (m: nat)
    requires Sound(code, begin, end, starts, tree) && AtHead(starts, begin, end, c)
    ensures Loop(sem, begin, end, tree, c, n) == Run(code, sem, begin, end, c, m)
    ensures AtHead(starts, begin, end, Loop(sem, begin, end, tree, c, n))
    ensures m >= n || Stopped(begin, end, Loop(sem, begin, end, tree, c, n))
    decreases n
  {
    if n == 0 || Stopped(begin, end, c) {
      m := 0;
    } else {
      var k := IterationSimulates(code, sem, begin, end, starts, tree, c.pc, c.state);
      var next := ExecTree(sem, tree, c.pc, c.state);
      var rest := LoopSimulates(code, sem, begin, end, starts, tree, next, n - 1);
      RunAdds(code, sem, begin, end, c, k, rest);
      m := k + rest;
    }
  }

  /** The machine is deterministic: two stopped results agree. */
  lemma StoppedAgree<S>(code: seq<Instr>, sem: Sem<S>, begin: nat, end: nat, c: Config<S>, j: nat, k: nat)
    requires WellFormed(code) && j <= k && Stopped(begin, end, Run(code, sem, begin, end, c, j))
    ensures Run(code, sem, begin, end, c, k) == Run(code, sem, begin, end, c, j)
  {
    RunAdds(code, sem, begin, end, c, j, k - j);
    RunStopped(code, sem, begin, end, Run(code, sem, begin, end, c, j), k - j);
  }

  /** If the machine stops, so does the dispatcher, and with the same result. */
  lemma MachineStopIsLoopStop<S>(
    code: seq<Instr>, sem: Sem<S>, begin: nat, end: nat, starts: seq<nat>, tree: Tree, c: Config<S>, m: nat)
    requires Sound(code, begin, end, starts, tree) && AtHead(starts, begin, end, c)
    requires Stopped(begin, end, Run(code, sem, begin, end, c, m))
    ensures Loop(sem, begin, end, tree, c, m) == Run(code, sem, begin, end, c, m)
  {
    var k := LoopSimulates(code, sem, begin, end, starts, tree, c, m);
    if k >= m {
      StoppedAgree(code, sem, begin, end, c, m, k);
    } else {
      StoppedAgree(code, sem, begin, end, c, k, m);
    }
  }

  ghost predicate LoopEnds<S>(sem: Sem<S>, begin: nat, end: nat, tree: Tree, s: S, result: Config<S>) {
    Stopped(begin, end, result) && exists n: nat :: Loop(sem, begin, end, tree, At(begin, s), n) == result
  }

  ghost predicate MachineEnds<S>(code: seq<Instr>, sem: Sem<S>, begin: nat, end: nat, s: S, result: Config<S>)
    requires WellFormed(code)
  {
    Stopped(begin, end, result) && exists m: nat :: Run(code, sem, begin, end, At(begin, s), m) == result
  }

  /** The dispatcher ends with a result exactly if the machine does; hence one runs forever exactly if the other does. */
  lemma DispatcherRefinesMachine<S>(
    code: seq<Instr>, sem: Sem<S>, begin: nat, end: nat, tree: Tree, s: S, result: Config<S>)
    requires WellFormed(code) && IsDispatcher(code, begin, end, tree)
    requires Boundary(code, begin) && NoStraddle(code, begin, end)
    ensures LoopEnds(sem, begin, end, tree, s, result) <==> MachineEnds(code, sem, begin, end, s, result)
  {
    var starts :| Built(code, begin, end, starts, tree);
    assert Sound(code, begin, end, starts, tree);
    assert IsLeader(code, begin, end, begin);
    var c := At(begin, s);
    if LoopEnds(sem, begin, end, tree, s, result) {
      var n: nat :| Loop(sem, begin, end, tree, c, n) == result;
      var m := LoopSimulates(code, sem, begin, end, starts, tree, c, n);
      assert Run(code, sem, begin, end, c, m) == result;
    }
    if MachineEnds(code, sem, begin, end, s, result) {
      var m: nat :| Run(code, sem, begin, end, c, m) == result;
      MachineStopIsLoopStop(code, sem, begin, end, starts, tree, c, m);
      assert Loop(sem, begin, end, tree, c, m) == result;
    }
  }

  /** The dispatcher of a whole function needs nothing but well-formed code. */
  lemma WholeFunctionDispatcher<S>(code: seq<Instr>, sem: Sem<S>, tree: Tree, s: S, result: Config<S>)
    requires WellFormed(code) && |code| > 0 && IsDispatcher(code, 0, |code|, tree)
    ensures LoopEnds(sem, 0, |code|, tree, s, result) <==> MachineEnds(code, sem, 0, |code|, s, result)
  {
    WholeCodeNoStraddle(code);
    DispatcherRefinesMachine(code, sem, 0, |code|, tree, s, result);
  }
}
