/** The check an analysed function has to pass before it is used, and why the analysis always passes it. */
module SelfCheck {
  import opened Graphs
  import opened Sorting
  import opened Cfg
  import opened FunctionAnalysis
  import Liveness
  import Loops
  import NaturalLoops

  // ---------- the check ----------

  /** Edges are mirrored in the lists of both blocks, and instructions name the block that lists them. */
  ghost predicate BlockChecked(count: nat, blocks: seq<BasicBlock>, source: seq<int>, b: BasicBlock) {
    && b.id < |blocks|
    && (forall s :: s in b.successors ==> s < |blocks| && b.id in blocks[s].predecessors)
    && (forall p :: p in b.predecessors ==> p < |blocks| && b.id in blocks[p].successors)
    && (forall i :: i in b.instructions ==> i < count && i < |source| && source[i] == b.id)
  }

  predicate AllBelow(s: set<nat>, limit: nat) {
    forall x :: x in s ==> x < limit
  }

  ghost predicate SetsBelow(sets: seq<set<nat>>, limit: nat) {
    forall n :: 0 <= n < |sets| ==> AllBelow(sets[n], limit)
  }

  predicate LoopChecked(blocks: nat, l: Loops.Loop) {
    l.header < blocks && l.preheader < blocks && AllBelow(l.blocks, blocks) && AllBelow(l.latches, blocks) && AllBelow(l.exits, blocks)
  }

  /** A phi node has one incoming version for each entry of its block's predecessor list. */
  predicate PhiChecked(blocks: seq<BasicBlock>, registers: nat, n: PhiNode) {
    && n.block < |blocks| && n.reg < registers
    && |n.incoming| == |blocks[n.block].predecessors| && AllBelow(n.incoming.Keys, |blocks|)
  }

  ghost predicate Checked(f: Function)
    reads f
  {
    var count := |f.basicBlocks|;
    && count > 0
    && |f.shape.immediateDominators| == |f.liveIn| == |f.liveOut| == |f.blockLiveRegisterCount| == count
    && SetsBelow(f.liveIn, f.registers) && SetsBelow(f.liveOut, f.registers)
    && (forall b :: b in f.basicBlocks ==> BlockChecked(|f.code|, f.basicBlocks, f.sourceBlocks, b))
    && (forall i :: i in f.code ==> (forall r :: r in i.uses || r in i.definitions ==> r < f.registers))
    && (forall d :: d in f.shape.immediateDominators ==> -1 <= d < count)
    && (forall e :: e in f.shape.backEdges ==> e.0 < count && e.1 < count)
    && (forall l :: l in f.shape.loops ==> LoopChecked(count, l))
    && (forall n :: n in f.phiNodes ==> PhiChecked(f.basicBlocks, f.registers, n))
  }

  method CheckSets(sets: seq<set<nat>>, limit: nat) returns (ok: bool)
    ensures ok <==> SetsBelow(sets, limit)
  {
    for n := 0 to |sets|
      invariant SetsBelow(sets[..n], limit)
    {
      if !AllBelow(sets[n], limit) {
        return false;
      }
      assert sets[..n + 1] == sets[..n] + [sets[n]];
    }
    assert sets[..|sets|] == sets;
    ok := true;
  }

  method CheckBlock(count: nat, blocks: seq<BasicBlock>, source: seq<int>, b: BasicBlock) returns (ok: bool)
    ensures ok <==> BlockChecked(count, blocks, source, b)
  {
    if b.id >= |blocks| {
      return false;
    }
    for k := 0 to |b.successors|
      invariant forall j :: 0 <= j < k ==> b.successors[j] < |blocks| && b.id in blocks[b.successors[j]].predecessors
    {
      var s := b.successors[k];
      assert s in b.successors;
      if s >= |blocks| || b.id !in blocks[s].predecessors {
        return false;
      }
    }
    for k := 0 to |b.predecessors|
      invariant forall j :: 0 <= j < k ==> b.predecessors[j] < |blocks| && b.id in blocks[b.predecessors[j]].successors
    {
      var p := b.predecessors[k];
      assert p in b.predecessors;
      if p >= |blocks| || b.id !in blocks[p].successors {
        return false;
      }
    }
    for k := 0 to |b.instructions|
      invariant forall j :: 0 <= j < k ==>
        b.instructions[j] < count && b.instructions[j] < |source| && source[b.instructions[j]] == b.id
    {
      var i := b.instructions[k];
      assert i in b.instructions;
      if i >= count || i >= |source| || source[i] != b.id {
        return false;
      }
    }
    ok := true;
  }

  method CheckBlocks(count: nat, blocks: seq<BasicBlock>, source: seq<int>) returns (ok: bool)
    ensures ok <==> forall b :: b in blocks ==> BlockChecked(count, blocks, source, b)
  {
    for n := 0 to |blocks|
      invariant forall m :: 0 <= m < n ==> BlockChecked(count, blocks, source, blocks[m])
    {
      ok := CheckBlock(count, blocks, source, blocks[n]);
      if !ok {
        return false;
      }
    }
    ok := true;
  }

  method CheckInstructions(code: seq<Instruction>, registers: nat) returns (ok: bool)
    ensures ok <==> forall i :: i in code ==> (forall r :: r in i.uses || r in i.definitions ==> r < registers)
  {
    for n := 0 to |code|
      invariant forall m :: 0 <= m < n ==> (forall r :: r in code[m].uses || r in code[m].definitions ==> r < registers)
    {
      var uses, definitions := code[n].uses, code[n].definitions;
      if (exists r :: r in uses && r >= registers) || (exists r :: r in definitions && r >= registers) {
        return false;
      }
    }
    ok := true;
  }

  method ValidateFunctionAnalysis(f: Function) returns (ok: bool)
    ensures ok <==> Checked(f)
  {
    var count := |f.basicBlocks|;
    if count == 0 || |f.shape.immediateDominators| != count || |f.liveIn| != count || |f.liveOut| != count
       || |f.blockLiveRegisterCount| != count {
      return false;
    }
    var ins := CheckSets(f.liveIn, f.registers);
    var outs := CheckSets(f.liveOut, f.registers);
    var blocks := CheckBlocks(|f.code|, f.basicBlocks, f.sourceBlocks);
    var instructions := CheckInstructions(f.code, f.registers);
    ok := ins && outs && blocks && instructions
      && (forall d :: d in f.shape.immediateDominators ==> -1 <= d < count)
      && (forall e :: e in f.shape.backEdges ==> e.0 < count && e.1 < count)
      && (forall l :: l in f.shape.loops ==> LoopChecked(count, l))
      && (forall n :: n in f.phiNodes ==> PhiChecked(f.basicBlocks, f.registers, n));
  }

  // ---------- what the analysis computes passes ----------

  lemma BlockPasses(f: Function, n: nat)
    requires f.CfgBuilt() && n < |f.basicBlocks|
    ensures BlockChecked(|f.code|, f.basicBlocks, f.sourceBlocks, f.basicBlocks[n])
  {
    var blocks := f.basicBlocks;
    var b := blocks[n];
    forall s | s in b.successors ensures s < |blocks| && n in blocks[s].predecessors {
      var k :| 0 <= k < |b.successors| && b.successors[k] == s;
      assert GraphOf(blocks)[n][k] < |blocks|;
    }
    InstructionsPass(f, n);
  }

  lemma InstructionsPass(f: Function, n: nat)
    requires f.CfgBuilt() && n < |f.basicBlocks|
    ensures forall i :: i in f.basicBlocks[n].instructions ==> i < |f.code| && i < |f.sourceBlocks| && f.sourceBlocks[i] == n
  {
    var b := f.basicBlocks[n];
    assert IsRange(b.instructions, First(b), Last(b) + 1);
    forall i | i in b.instructions ensures i < |f.code| && i < |f.sourceBlocks| && f.sourceBlocks[i] == n {
      assert InBlock(f.basicBlocks, n, i);
      assert LinkOk(f.code, f.basicBlocks, i, f.sourceBlocks[i], f.targetBlocks[i]);
      BlockOfUnique(f.code, f.basicBlocks, f.sourceBlocks[i], n, i);
    }
  }

  lemma LivenessPasses(f: Function)
    requires f.CfgBuilt() && f.LivenessDone() && Liveness.RegistersInRange(f.code, f.registers)
    ensures SetsBelow(f.liveIn, f.registers) && SetsBelow(f.liveOut, f.registers)
  {
    forall n, r | 0 <= n < |f.liveIn| && r in f.liveIn[n] ensures r < f.registers {
      Liveness.LiveRegistersInRange(f.code, f.registers, First(f.basicBlocks[n]), r);
    }
    forall n, r | 0 <= n < |f.liveOut| && r in f.liveOut[n] ensures r < f.registers {
      assert r in Liveness.Out(GraphOf(f.basicBlocks), f.liveIn, n);
    }
  }

  lemma LoopPasses(g: Graph, r: set<nat>, l: Loops.Loop)
    requires Wf(g) && IsReachableSet(g, r) && Loops.LoopOk(g, r, l)
    ensures LoopChecked(|g|, l)
  {
    Loops.MembersInBounds(g, r, l);
    forall x | x in l.latches ensures x < |g| {
      assert NaturalLoops.IsBackEdge(g, r, (x, l.header));
    }
    forall x | x in l.exits ensures x < |g| {
      var m: nat :| Loops.LeavesTo(g, l, m, x);
      EdgeReaches(g, m, x);
      ReachesBounds(g, m, x);
    }
    if l.preheader >= 0 {
      assert Loops.Outside(g, l, l.preheader);
    }
  }

  lemma StructurePasses(f: Function)
    requires f.CfgBuilt() && f.StructureDone()
    ensures |f.shape.immediateDominators| == |f.basicBlocks|
    ensures forall d :: d in f.shape.immediateDominators ==> -1 <= d < |f.basicBlocks|
    ensures forall e :: e in f.shape.backEdges ==> e.0 < |f.basicBlocks| && e.1 < |f.basicBlocks|
    ensures forall l :: l in f.shape.loops ==> LoopChecked(|f.basicBlocks|, l)
  {
    var g, s := GraphOf(f.basicBlocks), f.shape;
    forall e | e in s.backEdges ensures e.0 < |g| && e.1 < |g| {
      assert NaturalLoops.IsBackEdge(g, s.reachable, e);
      EdgeReaches(g, e.0, e.1);
      ReachesBounds(g, e.0, e.1);
    }
    forall l | l in s.loops ensures LoopChecked(|g|, l) {
      LoopPasses(g, s.reachable, l);
    }
  }

  /** The predecessor list of a block names the blocks of its predecessor set. */
  lemma SamePredecessors(blocks: seq<BasicBlock>, preds: seq<set<nat>>, b: nat)
    requires Mirrored(blocks) && ListsSorted(blocks) && IsPredecessorTable(GraphOf(blocks), preds) && b < |blocks|
    ensures preds[b] == Members(blocks[b].predecessors)
  {
    forall p: nat ensures p in blocks[b].predecessors <==> p in preds[b] {
      assert p in preds[b] <==> Edge(GraphOf(blocks), p, b);
    }
  }

  /** That list has no duplicates, so it is as long as the set the phi was made from. */
  lemma PhiPasses(f: Function, n: PhiNode)
    requires f.CfgBuilt() && f.VersionsDone() && n in f.phiNodes
    ensures PhiChecked(f.basicBlocks, f.registers, n)
  {
    assert PhiNodeOk(f.predecessors, f.registers, f.versions.outgoing, f.versions.phi, n);
    SamePredecessors(f.basicBlocks, f.predecessors, n.block);
    AscendingSize(f.basicBlocks[n.block].predecessors);
  }

  /** Whatever code it is given, the analysis passes its own check. */
  lemma AnalysisPasses(f: Function)
    requires f.CfgBuilt() && f.LivenessDone() && f.StructureDone() && f.VersionsDone()
    requires Liveness.RegistersInRange(f.code, f.registers)
    ensures Checked(f)
  {
    LivenessPasses(f);
    StructurePasses(f);
    forall b | b in f.basicBlocks ensures BlockChecked(|f.code|, f.basicBlocks, f.sourceBlocks, b) {
      var n :| 0 <= n < |f.basicBlocks| && f.basicBlocks[n] == b;
      BlockPasses(f, n);
    }
    forall n | n in f.phiNodes ensures PhiChecked(f.basicBlocks, f.registers, n) {
      PhiPasses(f, n);
    }
  }
}
