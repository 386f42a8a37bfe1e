/** Single-entry, single-exit regions of the instruction graph, and the dispatcher isolated in one. */
module Regions {
  import opened Lua51
  import opened Dispatcher
  import opened Simulation

  // ---------- the instruction graph ----------

  datatype FlowGraph = FlowGraph(successors: seq<seq<int>>, predecessors: seq<seq<nat>>)

  /** The tables hold exactly the edges; those to the end of the code have no predecessor entry. */
  ghost predicate IsFlowGraph(code: seq<Instr>, graph: FlowGraph) {
    && |graph.successors| == |code| && |graph.predecessors| == |code|
    && (forall pc :: 0 <= pc < |code| ==> graph.successors[pc] == ControlSuccessors(code, pc))
    && forall pc, from :: 0 <= pc < |code| ==> (from in graph.predecessors[pc] <==> Edge(code, from, pc))
  }

  ghost predicate PredecessorsSoFar(code: seq<Instr>, predecessors: seq<seq<nat>>, upTo: nat, done: nat)
    requires upTo < |code| && done <= |ControlSuccessors(code, upTo)|
  {
    && |predecessors| == |code|
    && forall pc, from :: 0 <= pc < |code| ==>
         (from in predecessors[pc] <==> (from < upTo && Edge(code, from, pc)) || (from == upTo && pc in ControlSuccessors(code, upTo)[..done]))
  }

  /** Records `from` with each of its targets that is an instruction. */
  method RecordTargets(code: seq<Instr>, from: nat, predecessors: seq<seq<nat>>) returns (predecessors': seq<seq<nat>>)
    requires from < |code| && PredecessorsSoFar(code, predecessors, from, 0)
    ensures PredecessorsSoFar(code, predecessors', from, |ControlSuccessors(code, from)|)
  {
    var targets := ControlSuccessors(code, from);
    predecessors' := predecessors;
    for n := 0 to |targets|
      invariant PredecessorsSoFar(code, predecessors', from, n)
    {
      var target := targets[n];
      assert target in targets;
      assert 0 <= target <= |code|;
      assert targets[..n + 1] == targets[..n] + [target];
      if target < |code| {
        predecessors' := predecessors'[target := predecessors'[target] + [from]];
      }
    }
  }

  method BuildControlFlowGraph(code: seq<Instr>) returns (graph: FlowGraph)
    ensures IsFlowGraph(code, graph)
  {
    var successors := seq(|code|, pc requires 0 <= pc < |code| => ControlSuccessors(code, pc));
    var predecessors: seq<seq<nat>> := seq(|code|, _ => []);
    var from := 0;
    while from < |code|
      invariant 0 <= from <= |code| && |predecessors| == |code|
      invariant from < |code| ==> PredecessorsSoFar(code, predecessors, from, 0)
      invariant from == |code| ==>
        forall pc, source :: 0 <= pc < |code| ==> (source in predecessors[pc] <==> Edge(code, source, pc))
    {
      predecessors := RecordTargets(code, from, predecessors);
      assert ControlSuccessors(code, from)[..|ControlSuccessors(code, from)|] == ControlSuccessors(code, from);
      from := from + 1;
    }
    graph := FlowGraph(successors, predecessors);
  }

  // ---------- the region test ----------

  predicate Inside(begin: int, end: int, pc: int) {
    begin <= pc < end
  }

  /** Control can enter at `pc`: by a jump from outside, or because execution starts there. */
  ghost predicate IsEntry(code: seq<Instr>, begin: int, end: int, pc: int) {
    Inside(begin, end, pc) && ((begin == 0 && pc == 0) || EnteredFromOutside(code, begin, end, pc))
  }

  ghost predicate EnteredFromOutside(code: seq<Instr>, begin: int, end: int, pc: int) {
    exists from :: !Inside(begin, end, from) && Edge(code, from, pc)
  }

  ghost predicate IsExit(code: seq<Instr>, begin: int, end: int, pc: int) {
    !Inside(begin, end, pc) && exists from :: Inside(begin, end, from) && Edge(code, from, pc)
  }

  /** `begin` is the one entry of the range and `end` its one exit, and there are both. */
  ghost predicate SingleEntryExit(code: seq<Instr>, begin: int, end: int) {
    && 0 <= begin < end <= |code|
    && (forall pc :: IsEntry(code, begin, end, pc) <==> pc == begin)
    && (forall pc :: IsExit(code, begin, end, pc) <==> pc == end)
  }

  /** Some recorded predecessor lies outside the range. */
  method AnyOutside(code: seq<Instr>, graph: FlowGraph, begin: nat, end: nat, target: nat) returns (found: bool)
    requires IsFlowGraph(code, graph) && begin <= target < end <= |code|
    ensures found <==> EnteredFromOutside(code, begin, end, target)
  {
    var sources := graph.predecessors[target];
    for n := 0 to |sources|
      invariant forall m :: 0 <= m < n ==> Inside(begin, end, sources[m])
    {
      if sources[n] < begin || sources[n] >= end {
        assert sources[n] in sources;
        assert Edge(code, sources[n], target);
        return true;
      }
    }
    forall from | Edge(code, from, target)
      ensures Inside(begin, end, from)
    {
      var source: nat := from;
      assert source in sources;
    }
    found := false;
  }

  ghost predicate EntriesSoFar(code: seq<Instr>, begin: nat, end: nat, upTo: nat, entries: set<int>) {
    forall pc :: pc in entries <==> IsEntry(code, begin, end, pc) && (pc < upTo || (begin == 0 && pc == 0))
  }

  lemma EntriesStep(code: seq<Instr>, begin: nat, end: nat, target: nat, entries: set<int>)
    requires EntriesSoFar(code, begin, end, target, entries) && begin <= target < end
    ensures IsEntry(code, begin, end, target) ==> EntriesSoFar(code, begin, end, target + 1, entries + {target})
    ensures !IsEntry(code, begin, end, target) ==> EntriesSoFar(code, begin, end, target + 1, entries)
  {
  }

  method CollectEntries(code: seq<Instr>, graph: FlowGraph, begin: nat, end: nat) returns (entries: set<int>)
    requires IsFlowGraph(code, graph) && begin < end <= |code|
    ensures forall pc :: pc in entries <==> IsEntry(code, begin, end, pc)
  {
    entries := if begin == 0 then {0} else {};
    for target := begin to end
      invariant EntriesSoFar(code, begin, end, target, entries)
    {
      EntriesStep(code, begin, end, target, entries);
      var entered := AnyOutside(code, graph, begin, end, target);
      if entered {
        entries := entries + {target};
      } else if begin == 0 && target == 0 {
        assert entries + {target} == entries;
      }
    }
  }

  method CollectExits(code: seq<Instr>, graph: FlowGraph, begin: nat, end: nat) returns (exits: set<int>)
    requires IsFlowGraph(code, graph) && begin < end <= |code|
    ensures forall pc :: pc in exits <==> IsExit(code, begin, end, pc)
  {
    exits := {};
    for source := begin to end
      invariant forall pc :: pc in exits <==> !Inside(begin, end, pc) && exists from :: begin <= from < source && Edge(code, from, pc)
    {
      var targets := graph.successors[source];
      ghost var before := exits;
      exits := exits + (set t | t in targets && !Inside(begin, end, t));
      forall pc
        ensures pc in exits <==> !Inside(begin, end, pc) && exists from :: begin <= from < source + 1 && Edge(code, from, pc)
      {
        if pc in targets {
          assert Edge(code, source, pc);
        }
      }
    }
  }

  method IsSingleEntryExitRegion(code: seq<Instr>, graph: FlowGraph, begin: int, end: int) returns (result: bool)
    requires IsFlowGraph(code, graph)
    ensures result <==> SingleEntryExit(code, begin, end)
  {
    if begin < 0 || end <= begin || end > |graph.successors| {
      return false;
    }
    var entries := CollectEntries(code, graph, begin, end);
    var exits := CollectExits(code, graph, begin, end);
    result := entries == {begin} && exits == {end};
    if forall pc :: IsEntry(code, begin, end, pc) <==> pc == begin {
      assert forall pc :: pc in entries <==> pc in {begin};
    }
    if forall pc :: IsExit(code, begin, end, pc) <==> pc == end {
      assert forall pc :: pc in exits <==> pc in {end};
    }
  }

  // ---------- walks ----------

  /** An edge from inside leads inside, or to the exit. */
  lemma EdgeStaysOrEnds(code: seq<Instr>, begin: int, end: int, from: int, to: int)
    requires SingleEntryExit(code, begin, end) && Inside(begin, end, from) && Edge(code, from, to)
    ensures Inside(begin, end, to) || to == end
  {
    if !Inside(begin, end, to) {
      assert IsExit(code, begin, end, to);
    }
  }

  /** A walk over the recorded successors, from the first instruction. */
  ghost predicate Walk(code: seq<Instr>, walk: seq<int>) {
    |walk| > 0 && walk[0] == 0 && forall i :: 0 <= i < |walk| - 1 ==> Edge(code, walk[i], walk[i + 1])
  }

  /** Inside the region, a walk has come through `begin` and stayed inside ever since. */
  lemma {:induction false} EnteredAtBegin(code: seq<Instr>, begin: int, end: int, walk: seq<int>) returns (at: nat)
    requires SingleEntryExit(code, begin, end) && Walk(code, walk) && Inside(begin, end, walk[|walk| - 1])
    ensures at < |walk| && walk[at] == begin && forall i :: at <= i < |walk| ==> Inside(begin, end, walk[i])
    decreases |walk|
  {
    var last := |walk| - 1;
    if walk[last] == begin {
      return last;
    }
    assert !IsEntry(code, begin, end, walk[last]);
    assert last > 0;
    assert Edge(code, walk[last - 1], walk[last]);
    assert Inside(begin, end, walk[last - 1]);
    at := EnteredAtBegin(code, begin, end, walk[..last]);
  }

  /** Leaving the region, whenever it happens, means arriving at `end`. */
  lemma {:induction false} LeftAtEnd(code: seq<Instr>, begin: int, end: int, walk: seq<int>, i: nat, j: nat) returns (at: nat)
    requires SingleEntryExit(code, begin, end) && Walk(code, walk)
    requires i < j < |walk| && Inside(begin, end, walk[i]) && !Inside(begin, end, walk[j])
    ensures i < at <= j && walk[at] == end && forall k :: i <= k < at ==> Inside(begin, end, walk[k])
    decreases j - i
  {
    assert Edge(code, walk[i], walk[i + 1]);
    if Inside(begin, end, walk[i + 1]) {
      at := LeftAtEnd(code, begin, end, walk, i + 1, j);
    } else {
      assert IsExit(code, begin, end, walk[i + 1]);
      at := i + 1;
    }
  }

  // ---------- the isolated dispatcher ----------

  /** Recorded successors of instructions are instructions, or the end of the code. */
  lemma EdgeLandsOnBoundary(code: seq<Instr>, from: int, to: int)
    requires WellFormed(code) && Edge(code, from, to)
    ensures 0 <= to <= |code| && (to < |code| ==> Boundary(code, to))
  {
    assert Tiled(code, from) && TargetsOk(code, from);
    if IsCondition(code[from]) || code[from].op.TForLoop? {
      assert TargetsOk(code, from + 1);
    }
  }

  lemma RegionStartsAtBoundary(code: seq<Instr>, begin: int, end: int)
    requires WellFormed(code) && SingleEntryExit(code, begin, end)
    ensures Boundary(code, begin)
  {
    assert IsEntry(code, begin, end, begin);
    if begin != 0 {
      var from :| !Inside(begin, end, from) && Edge(code, from, begin);
      EdgeLandsOnBoundary(code, from, begin);
    }
  }

  /** An instruction whose words ran past the region would give it a second exit. */
  lemma RegionNoStraddle(code: seq<Instr>, begin: nat, end: nat)
    requires WellFormed(code) && SingleEntryExit(code, begin, end)
    ensures NoStraddle(code, begin, end)
  {
    forall pc | begin <= pc < end && Boundary(code, pc)
      ensures pc + Size(code[pc]) <= end
    {
      assert Tiled(code, pc);
      if Size(code[pc]) > 1 {
        assert pc + Size(code[pc]) in ControlSuccessors(code, pc);
        EdgeStaysOrEnds(code, begin, end, pc, pc + Size(code[pc]));
      }
    }
  }

  /** A machine that leaves the region without returning arrives at `end`. */
  lemma {:induction false} MachineLeavesAtEnd<S>(code: seq<Instr>, sem: Sem<S>, begin: nat, end: nat, c: Config<S>, k: nat)
    requires WellFormed(code) && SingleEntryExit(code, begin, end)
    requires c.At? && (c.pc == end || (Inside(begin, end, c.pc) && Boundary(code, c.pc)))
    ensures var result := Run(code, sem, begin, end, c, k);
      result.Halted? || result.pc == end || (Inside(begin, end, result.pc) && Boundary(code, result.pc))
    decreases k
  {
    if k > 0 && Running(code, begin, end, c) {
      var next := Step(code, sem, c.pc, c.state);
      StepFollowsEdge(code, sem, c.pc, c.state);
      if next.At? {
        EdgeStaysOrEnds(code, begin, end, c.pc, next.pc);
        MachineLeavesAtEnd(code, sem, begin, end, next, k - 1);
      }
    }
  }

  /** The isolated loop does what the machine does, and exits only by a return or with the program counter at `end`. */
  lemma IsolatedDispatcher<S>(code: seq<Instr>, sem: Sem<S>, begin: nat, end: nat, tree: Tree, s: S, result: Config<S>)
    requires WellFormed(code) && SingleEntryExit(code, begin, end) && IsDispatcher(code, begin, end, tree)
    ensures LoopEnds(sem, begin, end, tree, s, result) <==> MachineEnds(code, sem, begin, end, s, result)
    ensures LoopEnds(sem, begin, end, tree, s, result) ==> result.Halted? || result.pc == end
  {
    RegionStartsAtBoundary(code, begin, end);
    RegionNoStraddle(code, begin, end);
    DispatcherRefinesMachine(code, sem, begin, end, tree, s, result);
    if LoopEnds(sem, begin, end, tree, s, result) {
      var m: nat :| Run(code, sem, begin, end, At(begin, s), m) == result;
      MachineLeavesAtEnd(code, sem, begin, end, At(begin, s), m);
    }
  }
}
