/** The analysed function: the record the passes fill in, one after another. */
module FunctionAnalysis {
  import opened Graphs
  import opened Cfg
  import opened Sorting
  import Dominators
  import ImmediateDominators
  import NaturalLoops
  import Loops
  import PostDominators
  import TarjanTheory
  import Tarjan
  import Liveness
  import VersionTheory
  import Versions
  import Propagation
  import PhiHistory
  import VersionPaths
  import VersionEntry

  /** What the graph alone determines: dominance, loops and their scopes, post-dominance and components. */
  datatype Shape = Shape(reachable: set<nat>, immediateDominators: seq<int>, backEdges: seq<(nat, nat)>, naturalLoops: seq<set<nat>>,
                         loops: seq<Loops.Loop>, scopeParents: seq<nat>, postDominators: seq<set<nat>>,
                         stronglyConnectedComponents: seq<set<nat>>)

  ghost predicate Structure(g: Graph, s: Shape) {
    && IsReachableSet(g, s.reachable)
    && ImmediateDominators.IsIdomTable(g, s.reachable, s.immediateDominators)
    && Loops.BackEdgesFound(g, s.reachable, s.backEdges, s.naturalLoops)
    && Loops.IsLoopTable(g, s.reachable, s.loops) && Loops.EdgesKept(s.backEdges, s.loops)
    && Loops.AreScopeParents(s.loops, s.scopeParents)
    && PostDominators.IsPostDominatorTable(g, s.reachable, s.postDominators)
    && TarjanTheory.IsSccDecomposition(g, s.reachable, s.stronglyConnectedComponents)
  }

  /** A phi: the block and register it belongs to, its version, and the incoming versions by predecessor. */
  datatype PhiNode = PhiNode(block: nat, reg: nat, version: int, incoming: map<nat, int>)

  /** The edges out of the first `a` blocks, and out of the first `k` successors of block `a`, have been collected. */
  ghost predicate Collected(g: Graph, preds: seq<set<nat>>, a: nat, k: nat) {
    |preds| == |g| && forall x: nat, b: nat {:trigger x in preds[b]} {:trigger Edge(g, x, b)} :: b < |g| ==>
      (x in preds[b] <==> Edge(g, x, b) && (x < a || (x == a && b in g[x][..if k < |g[x]| then k else |g[x]|])))
  }

  /** The edges collected into one predecessor set per block. */
  method PredecessorSets(g: Graph) returns (preds: seq<set<nat>>)
    requires Wf(g)
    ensures IsPredecessorTable(g, preds)
  {
    preds := seq(|g|, _ => {});
    var a := 0;
    while a < |g|
      invariant 0 <= a <= |g| && Collected(g, preds, a, 0)
    {
      var k := 0;
      while k < |g[a]|
        invariant 0 <= k <= |g[a]| && Collected(g, preds, a, k)
      {
        var s := g[a][k];
        assert g[a][..k + 1] == g[a][..k] + [s];
        preds := preds[s := preds[s] + {a}];
        k := k + 1;
      }
      assert g[a][..k] == g[a];
      a := a + 1;
    }
  }

  /** The cell of `m` comes before that of `n`, by block and then by register. */
  predicate Before(m: PhiNode, n: PhiNode) {
    m.block < n.block || (m.block == n.block && m.reg < n.reg)
  }

  predicate InOrder(nodes: seq<PhiNode>) {
    forall i, j {:trigger Before(nodes[i], nodes[j])} :: 0 <= i < j < |nodes| ==> Before(nodes[i], nodes[j])
  }

  /** The nodes are those of the cells before block `b` and, in `b`, before register `reg`. */
  ghost predicate CollectedTo(preds: seq<set<nat>>, registers: nat, outgoing: seq<seq<int>>, phi: seq<seq<int>>, nodes: seq<PhiNode>,
                              b: nat, reg: nat)
    requires Versions.Table(outgoing, |preds|, registers) && Versions.Table(phi, |preds|, registers)
  {
    && InOrder(nodes)
    && (forall n :: n in nodes ==> PhiNodeOk(preds, registers, outgoing, phi, n) && (n.block < b || (n.block == b && n.reg < reg)))
    && (forall c, r :: 0 <= c < |preds| && 0 <= r < registers && (c < b || (c == b && r < reg)) && phi[c][r] >= 0 ==>
          HasNode(nodes, c, r))
  }

  ghost predicate HasNode(nodes: seq<PhiNode>, b: nat, r: nat) {
    exists n :: n in nodes && n.block == b && n.reg == r
  }

  lemma NodeAppended(preds: seq<set<nat>>, registers: nat, outgoing: seq<seq<int>>, phi: seq<seq<int>>, nodes: seq<PhiNode>, b: nat, reg: nat,
                     node: PhiNode)
    requires Versions.Table(outgoing, |preds|, registers) && Versions.Table(phi, |preds|, registers)
    requires CollectedTo(preds, registers, outgoing, phi, nodes, b, reg) && node.block == b && node.reg == reg
    requires PhiNodeOk(preds, registers, outgoing, phi, node)
    ensures CollectedTo(preds, registers, outgoing, phi, nodes + [node], b, reg + 1)
  {
    var more := nodes + [node];
    forall i, j | 0 <= i < j < |more| ensures Before(more[i], more[j]) {
      if j < |nodes| {
        assert Before(nodes[i], nodes[j]);
      } else {
        assert nodes[i] in nodes;
      }
    }
    forall c, r | 0 <= c < |preds| && 0 <= r < registers && (c < b || (c == b && r < reg + 1)) && phi[c][r] >= 0
      ensures HasNode(more, c, r)
    {
      if c == b && r == reg {
        assert node in more;
      } else {
        assert HasNode(nodes, c, r);
        var n :| n in nodes && n.block == c && n.reg == r;
        assert n in more;
      }
    }
  }

  /** The recorded phi cells as nodes: one for each, in block and register order. */
  method CollectPhis(preds: seq<set<nat>>, registers: nat, outgoing: seq<seq<int>>, phi: seq<seq<int>>) returns (nodes: seq<PhiNode>)
    requires Versions.Table(outgoing, |preds|, registers) && Versions.Table(phi, |preds|, registers)
    requires forall b, p :: 0 <= b < |preds| && p in preds[b] ==> p < |preds|
    ensures AllCollected(preds, registers, outgoing, phi, nodes)
  {
    nodes := [];
    var b := 0;
    while b < |preds|
      invariant 0 <= b <= |preds| && CollectedTo(preds, registers, outgoing, phi, nodes, b, 0)
    {
      var reg := 0;
      while reg < registers
        invariant 0 <= reg <= registers && CollectedTo(preds, registers, outgoing, phi, nodes, b, reg)
      {
        if phi[b][reg] >= 0 {
          var node := PhiNode(b, reg, phi[b][reg], map p | p in preds[b] :: outgoing[p][reg]);
          NodeAppended(preds, registers, outgoing, phi, nodes, b, reg, node);
          nodes := nodes + [node];
        }
        reg := reg + 1;
      }
      b := b + 1;
    }
  }

  /** The nodes are exactly the recorded cells, each once, by block and then by register. */
  ghost predicate AllCollected(preds: seq<set<nat>>, registers: nat, outgoing: seq<seq<int>>, phi: seq<seq<int>>, nodes: seq<PhiNode>)
    requires Versions.Table(outgoing, |preds|, registers) && Versions.Table(phi, |preds|, registers)
  {
    && InOrder(nodes)
    && (forall n :: n in nodes ==> PhiNodeOk(preds, registers, outgoing, phi, n))
    && (forall b, r :: 0 <= b < |preds| && 0 <= r < registers && phi[b][r] >= 0 ==> HasNode(nodes, b, r))
  }

  /** A node describes its cell: the recorded version, and the outgoing version of every predecessor. */
  ghost predicate PhiNodeOk(preds: seq<set<nat>>, registers: nat, outgoing: seq<seq<int>>, phi: seq<seq<int>>, n: PhiNode)
    requires Versions.Table(outgoing, |preds|, registers) && Versions.Table(phi, |preds|, registers)
  {
    && n.block < |preds| && n.reg < registers
    && 0 <= n.version == phi[n.block][n.reg]
    && n.incoming.Keys == preds[n.block]
    && forall p :: p in preds[n.block] ==> p < |outgoing| && n.incoming[p] == outgoing[p][n.reg]
  }

  class Function {
    const code: seq<Instruction>
    const size: nat
    const registers: nat
    var basicBlocks: seq<BasicBlock>
    var sourceBlocks: seq<int>
    var targetBlocks: seq<int>
    var liveIn: seq<set<nat>>
    var liveOut: seq<set<nat>>
    var blockLiveRegisterCount: seq<nat>
    var shape: Shape
    var phiNodes: seq<PhiNode>
    ghost var predecessors: seq<set<nat>>
    ghost var versions: Propagation.Tables
    ghost var run: seq<Propagation.Tables>

    constructor (code: seq<Instruction>, size: nat, registers: nat)
      requires Validated(code, size) && Liveness.RegistersInRange(code, registers)
      ensures this.code == code && this.size == size && this.registers == registers
    {
      this.code, this.size, this.registers := code, size, registers;
      basicBlocks, liveIn, liveOut, blockLiveRegisterCount, phiNodes := [], [], [], [], [];
      sourceBlocks, targetBlocks := [], [];
      shape := Shape({}, [], [], [], [], [], [], []);
      predecessors, versions, run := [], Propagation.Tables([], [], []), [];
    }

    /** The blocks mirror the control flow of the code, and the instructions know their blocks. */
    ghost predicate CfgBuilt()
      reads this
    {
      FaithfulCfg(code, basicBlocks) && ListsSorted(basicBlocks) && InstructionsLinked(code, basicBlocks, sourceBlocks, targetBlocks)
    }

    /** Liveness is exact, and the recorded counts are the peaks. */
    ghost predicate LivenessDone()
      requires CfgBuilt()
      reads this
    {
      Liveness.Tables(code, basicBlocks, liveIn, liveOut, blockLiveRegisterCount)
    }

    /** Dominance, loops, post-dominance and components of the reachable blocks. */
    ghost predicate StructureDone()
      reads this
    {
      Structure(GraphOf(basicBlocks), shape)
    }

    static method AnalyseStructure(g: Graph) returns (s: Shape)
      requires Wf(g) && |g| > 0
      ensures Structure(g, s)
    {
      var preds := PredecessorSets(g);
      var r := Dominators.ReachableBlocks(g);
      var dom := Dominators.ComputeDominators(g, preds, r);
      var idom := ImmediateDominators.ComputeImmediateDominators(g, r, dom);
      var edges, natural := NaturalLoops.FindLoops(g, preds, r, dom);
      var loops := Loops.MaterializeLoops(g, preds, r, edges, natural);
      ReachableInBounds(g, r);
      var pdom := PostDominators.ComputePostDominators(g, r);
      var components := Tarjan.StronglyConnectedComponents(g, r);
      var parents := Loops.ScopeParents(loops);
      s := Shape(r, idom, edges, natural, loops, parents, pdom, components);
    }

    static lemma ReachableInBounds(g: Graph, r: set<nat>)
      requires Wf(g) && IsReachableSet(g, r)
      ensures Closed(g, r)
    {
      forall b | b in r ensures b < |g| {
        ReachesBounds(g, 0, b);
      }
      forall x: nat, y: nat | x in r && Edge(g, x, y) ensures y in r {
        ReachesEdge(g, 0, x, y);
      }
    }

    /** The version tables are what a run of the propagation ends in, and the phi nodes are those recorded there. */
    ghost predicate VersionsDone()
      reads this
    {
      VersionsOf(code, basicBlocks, registers, predecessors, versions, run, phiNodes)
    }

    /** The flow of register `r` through the function. */
    ghost function FlowOf(r: nat): VersionTheory.Flow
      requires VersionsDone() && r < registers
      reads this
    {
      Versions.FlowOf(code, basicBlocks, predecessors, registers, r)
    }

    ghost function OutgoingVersions(r: nat): (outs: seq<int>)
      requires VersionsDone() && r < registers
      reads this
    {
      Versions.Column(versions.outgoing, registers, r)
    }

    static ghost predicate VersionsOf(code: seq<Instruction>, blocks: seq<BasicBlock>, registers: nat, preds: seq<set<nat>>,
                                      t: Propagation.Tables, run: seq<Propagation.Tables>, nodes: seq<PhiNode>)
    {
      && Versions.Blocks(code, blocks, preds)
      && var flows := Propagation.FlowsFor(code, blocks, preds, registers);
         && Versions.Flows(GraphOf(blocks), preds, flows)
         && Propagation.Propagated(GraphOf(blocks), preds, flows, |code|, t.incoming, t.outgoing, t.phi)
         && Propagation.AllGroupsSealed(GraphOf(blocks), preds, flows, t.outgoing)
         && Propagation.IsRun(GraphOf(blocks), preds, flows, |code|, run) && run[|run| - 1] == t
         && AllCollected(preds, registers, t.outgoing, t.phi, nodes)
    }

    static method AnalyseVersions(code: seq<Instruction>, blocks: seq<BasicBlock>, registers: nat)
      returns (preds: seq<set<nat>>, t: Propagation.Tables, nodes: seq<PhiNode>, ghost run: seq<Propagation.Tables>)
      requires FaithfulCfg(code, blocks)
      ensures VersionsOf(code, blocks, registers, preds, t, run, nodes)
    {
      preds := PredecessorSets(GraphOf(blocks));
      BlocksShaped(code, blocks, preds);
      ghost var flows := Propagation.FlowsFor(code, blocks, preds, registers);
      Propagation.FlowsForOk(code, blocks, preds, registers);
      FlowNumbers(code, blocks, preds, registers);
      t, run := Propagation.ComputeVersions(code, blocks, preds, registers, GraphOf(blocks), flows);
      PredecessorsInBounds(GraphOf(blocks), preds);
      nodes := CollectPhis(preds, registers, t.outgoing, t.phi);
    }

    static lemma BlocksShaped(code: seq<Instruction>, blocks: seq<BasicBlock>, preds: seq<set<nat>>)
      requires FaithfulCfg(code, blocks) && IsPredecessorTable(GraphOf(blocks), preds)
      ensures Versions.Blocks(code, blocks, preds)
    {
    }

    static lemma FlowNumbers(code: seq<Instruction>, blocks: seq<BasicBlock>, preds: seq<set<nat>>, registers: nat)
      requires Versions.Blocks(code, blocks, preds)
      ensures var flows := Propagation.FlowsFor(code, blocks, preds, registers);
        forall b :: 0 <= b < |blocks| ==> Propagation.BlockNumbers(code, blocks, flows, b)
    {
    }

    static lemma PredecessorsInBounds(g: Graph, preds: seq<set<nat>>)
      requires Wf(g) && IsPredecessorTable(g, preds)
      ensures forall b, p :: 0 <= b < |preds| && p in preds[b] ==> p < |preds|
    {
      forall b, p | 0 <= b < |preds| && p in preds[b] ensures p < |preds| {
        assert Edge(g, p, b);
      }
    }

    static method AllPasses(code: seq<Instruction>, size: nat, registers: nat)
      returns (blocks: seq<BasicBlock>, source: seq<int>, target: seq<int>, s: Shape,
               ins: seq<set<nat>>, outs: seq<set<nat>>, counts: seq<nat>,
               preds: seq<set<nat>>, t: Propagation.Tables, nodes: seq<PhiNode>, ghost run: seq<Propagation.Tables>)
      requires Validated(code, size) && Liveness.RegistersInRange(code, registers)
      ensures FaithfulCfg(code, blocks) && ListsSorted(blocks) && InstructionsLinked(code, blocks, source, target)
      ensures Liveness.Tables(code, blocks, ins, outs, counts)
      ensures Structure(GraphOf(blocks), s)
      ensures VersionsOf(code, blocks, registers, preds, t, run, nodes)
    {
      ghost var sorted;
      blocks, sorted := BuildBlocks(code, size);
      LeadersStartBlocks(code, size, sorted, blocks);
      source, target := LinkInstructions(code, blocks);
      ins, outs, counts := Liveness.AnalyseLiveness(code, blocks, registers);
      s := AnalyseStructure(GraphOf(blocks));
      preds, t, nodes, run := AnalyseVersions(code, blocks, registers);
    }

    /** All passes, in order. */
    method Analyse()
      requires Validated(code, size) && Liveness.RegistersInRange(code, registers)
      modifies this
      ensures CfgBuilt() && LivenessDone() && StructureDone() && VersionsDone()
    {
      var blocks, source, target, s, ins, outs, counts, preds, t, nodes;
      ghost var history;
      blocks, source, target, s, ins, outs, counts, preds, t, nodes, history := AllPasses(code, size, registers);
      Fill(blocks, source, target, s, ins, outs, counts, preds, t, nodes, history);
    }

    method Fill(blocks: seq<BasicBlock>, source: seq<int>, target: seq<int>, s: Shape, ins: seq<set<nat>>, outs: seq<set<nat>>,
                counts: seq<nat>, preds: seq<set<nat>>, t: Propagation.Tables, nodes: seq<PhiNode>, ghost history: seq<Propagation.Tables>)
      modifies this
      ensures basicBlocks == blocks && sourceBlocks == source && targetBlocks == target && shape == s
      ensures liveIn == ins && liveOut == outs && blockLiveRegisterCount == counts
      ensures predecessors == preds && versions == t && phiNodes == nodes && run == history
    {
      basicBlocks, sourceBlocks, targetBlocks := blocks, source, target;
      shape, phiNodes, predecessors, versions, run := s, nodes, preds, t, history;
      liveIn, liveOut, blockLiveRegisterCount := ins, outs, counts;
    }
  }

  /** The back edges of an analysed function are listed once each, by source and then by target. */
  lemma BackEdgesInOrder(f: Function)
    requires f.CfgBuilt() && f.StructureDone()
    ensures NaturalLoops.EdgesInOrder(f.shape.backEdges)
  {
    var g := GraphOf(f.basicBlocks);
    forall b | 0 <= b < |g| ensures Ascending(g[b]) {
      assert g[b] == f.basicBlocks[b].successors;
    }
  }

  // ---------- the versions of the analysed function along paths ----------

  /** A function's outgoing versions reproduce themselves, and its incoming ones are the merged versions. */
  lemma VersionsAreFixpoint(f: Function, r: nat)
    requires f.VersionsDone() && r < f.registers
    ensures f.FlowOf(r).Valid() && VersionTheory.Linked(GraphOf(f.basicBlocks), f.FlowOf(r))
    ensures VersionPaths.Fixpoint(f.FlowOf(r), f.OutgoingVersions(r)) && f.FlowOf(r).GroupsSealed(f.OutgoingVersions(r))
    ensures forall b :: 0 <= b < |f.basicBlocks| ==>
      |f.versions.incoming[b]| == f.registers && f.versions.incoming[b][r] == f.FlowOf(r).Merge(f.OutgoingVersions(r), b)
  {
    var g, preds := GraphOf(f.basicBlocks), f.predecessors;
    var flows := Propagation.FlowsFor(f.code, f.basicBlocks, preds, f.registers);
    var incoming, outgoing := f.versions.incoming, f.versions.outgoing;
    assert Versions.FlowOk(g, preds, flows[r]);
    assert flows[r].GroupsSealed(Versions.Column(outgoing, |flows|, r));
    forall b | 0 <= b < |g|
      ensures |incoming[b]| == |flows| && incoming[b][r] == flows[r].Merge(f.OutgoingVersions(r), b)
      ensures f.OutgoingVersions(r)[b] == flows[r].Through(b, incoming[b][r])
    {
      assert Versions.MergedRow(g, preds, flows, outgoing, b, incoming[b]);
      assert Versions.ThroughRow(flows, b, incoming[b], outgoing[b]);
    }
  }

  /**
   Along every entry path that does not come back to the entry, the computed incoming version is the replayed one, and a
   version that is no phi names the last definition executed on the path.
   */
  lemma VersionsFollowPaths(f: Function, r: nat, p: seq<nat>)
    requires f.VersionsDone() && r < f.registers && Path(GraphOf(f.basicBlocks), p) && p[0] == 0 && 0 !in p[1..]
    ensures var b := p[|p| - 1]; var flow, outs := f.FlowOf(r), f.OutgoingVersions(r);
      && b < |f.basicBlocks| && |f.versions.incoming[b]| == f.registers && flow.Valid() && VersionPaths.InFlow(flow, p)
      && var v := f.versions.incoming[b][r];
         && 0 <= v == VersionPaths.ReplayIn(flow, outs, p)
         && ((forall x :: 0 <= x < |f.basicBlocks| ==> v != flow.phi[x]) ==> v == VersionPaths.LastWritten(flow, p))
  {
    var g, flow, outs := GraphOf(f.basicBlocks), f.FlowOf(r), f.OutgoingVersions(r);
    VersionsAreFixpoint(f, r);
    PathInBounds(g, p, |p| - 1);
    VersionPaths.ReplayIsComputed(g, flow, outs, p);
    VersionPaths.ReplayNonNegative(flow, outs, p);
    if forall x :: 0 <= x < |g| ==> f.versions.incoming[p[|p| - 1]][r] != flow.phi[x] {
      VersionPaths.NonPhiIsLastWritten(g, flow, outs, p);
    }
  }

  // ---------- which phis the analysed function reports ----------

  /** In some visit of block `b` during the propagation, two of its predecessors held different versions of `r`. */
  ghost predicate PredecessorsClashed(f: Function, b: nat, r: nat)
    reads f
  {
    && |f.run| > 0
    && PhiHistory.Clashed(GraphOf(f.basicBlocks), f.predecessors, f.run, |f.run| - 1, b, r)
  }

  /** A phi is recorded for a block and a register exactly if the block is not the entry and its predecessors clashed. */
  lemma PhiIff(f: Function, b: nat, r: nat)
    requires f.VersionsDone() && b < |f.basicBlocks| && r < f.registers
    ensures |f.versions.phi| == |f.basicBlocks| && |f.versions.phi[b]| == f.registers
    ensures HasNode(f.phiNodes, b, r) <==> PredecessorsClashed(f, b, r)
    ensures f.versions.phi[b][r] == if PredecessorsClashed(f, b, r) then Versions.PhiVersion(|f.code|, f.registers, b, r) else -1
  {
    var g := GraphOf(f.basicBlocks);
    var flows := Propagation.FlowsFor(f.code, f.basicBlocks, f.predecessors, f.registers);
    PhiHistory.RunRecords(g, f.predecessors, flows, |f.code|, f.run, |f.run| - 1, b, r);
    if HasNode(f.phiNodes, b, r) {
      var n :| n in f.phiNodes && n.block == b && n.reg == r;
      assert PhiNodeOk(f.predecessors, f.registers, f.versions.outgoing, f.versions.phi, n);
    }
  }

  lemma NodeIsCell(f: Function, n: PhiNode)
    requires f.VersionsDone() && n in f.phiNodes
    ensures n.block < |f.basicBlocks| == |f.predecessors| && n.reg < f.registers && n.incoming.Keys == f.predecessors[n.block]
    ensures IsPredecessorTable(GraphOf(f.basicBlocks), f.predecessors)
  {
    assert PhiNodeOk(f.predecessors, f.registers, f.versions.outgoing, f.versions.phi, n);
  }

  lemma TwoEdges(f: Function, b: nat, r: nat) returns (p: nat, q: nat)
    requires IsPredecessorTable(GraphOf(f.basicBlocks), f.predecessors) && PredecessorsClashed(f, b, r) && b < |f.basicBlocks|
    ensures b != 0 && p != q && Edge(GraphOf(f.basicBlocks), p, b) && Edge(GraphOf(f.basicBlocks), q, b)
    ensures b < |f.predecessors| && p in f.predecessors[b] && q in f.predecessors[b]
  {
    p, q := PhiHistory.ClashedNeedsTwo(GraphOf(f.basicBlocks), f.predecessors, f.run, |f.run| - 1, b, r);
  }

  /** The block of every phi node is not the entry, and has two different predecessors. */
  lemma PhiJoins(f: Function, n: PhiNode) returns (p: nat, q: nat)
    requires f.VersionsDone() && n in f.phiNodes
    ensures 0 < n.block < |f.basicBlocks| && p != q && {p, q} <= n.incoming.Keys
    ensures Edge(GraphOf(f.basicBlocks), p, n.block) && Edge(GraphOf(f.basicBlocks), q, n.block)
  {
    NodeIsCell(f, n);
    assert HasNode(f.phiNodes, n.block, n.reg);
    PhiIff(f, n.block, n.reg);
    p, q := TwoEdges(f, n.block, n.reg);
  }

  // ---------- functions whose entry is a loop ----------

  ghost predicate Defines(f: Function, b: nat, r: nat)
    requires b < |f.basicBlocks|
    reads f
  {
    exists k :: k in f.basicBlocks[b].instructions && k < |f.code| && r in f.code[k].definitions
  }

  /** A block forces a version exactly if one of its instructions defines the register. */
  lemma DefinesIff(f: Function, b: nat, r: nat)
    requires f.VersionsDone() && r < f.registers && b < |f.basicBlocks|
    ensures b < |f.FlowOf(r).fixed| && (f.FlowOf(r).fixed[b] >= 0 <==> Defines(f, b, r))
  {
    var block := f.basicBlocks[b];
    assert Versions.BlockShape(f.code, block);
    var k := Versions.LastDef(f.code, First(block), Last(block) + 1, r);
    Versions.FixedBelowPhi(f.code, block, f.registers, r, b);
    if k >= 0 {
      assert block.instructions[k - First(block)] == k;
    }
    if Defines(f, b, r) {
      var j :| j in block.instructions && j < |f.code| && r in f.code[j].definitions;
      var n :| 0 <= n < |block.instructions| && block.instructions[n] == j;
    }
  }

  /** From the entry to `q` nothing defines the register, no block without predecessors joins in, and there is no cycle. */
  ghost predicate Untouched(f: Function, r: nat, q: nat)
    requires |f.basicBlocks| > 0
    reads f
  {
    var g := GraphOf(f.basicBlocks);
    !Defines(f, 0, r) && forall x: nat {:trigger ReachesAvoiding(g, x, q, 0)} :: ReachesAvoiding(g, x, q, 0) ==>
      x < |g| && !Defines(f, x, r) && (exists p: nat :: Edge(g, p, x)) && !VersionEntry.OnCycle(g, x)
  }

  ghost predicate ComesBackUntouched(f: Function, r: nat)
    requires |f.basicBlocks| > 0
    reads f
  {
    var g := GraphOf(f.basicBlocks);
    forall q: nat {:trigger Edge(g, q, 0)} :: Edge(g, q, 0) && Reaches(g, 0, q) ==> Untouched(f, r, q)
  }

  lemma UntouchedInFlow(f: Function, r: nat, q: nat)
    requires f.VersionsDone() && r < f.registers && |f.basicBlocks| > 0 && q < |f.basicBlocks|
    ensures f.FlowOf(r).Valid() && (Untouched(f, r, q) <==> VersionEntry.Untouched(GraphOf(f.basicBlocks), f.FlowOf(r), q))
  {
    var g, flow := GraphOf(f.basicBlocks), f.FlowOf(r);
    VersionsAreFixpoint(f, r);
    DefinesIff(f, 0, r);
    forall x: nat | ReachesAvoiding(g, x, q, 0)
      ensures x < |g| && (VersionEntry.PassesOn(g, flow, x) <==>
        !Defines(f, x, r) && (exists p: nat :: Edge(g, p, x)) && !VersionEntry.OnCycle(g, x))
    {
      VersionEntry.AvoidingBounds(g, x, q);
      DefinesIff(f, x, r);
      HasPredecessorIff(g, flow, x);
    }
  }

  lemma HasPredecessorIff(g: Graph, flow: VersionTheory.Flow, x: nat)
    requires flow.Valid() && VersionTheory.Linked(g, flow) && x < |g|
    ensures flow.preds[x] != {} <==> exists p: nat :: Edge(g, p, x)
  {
    if flow.preds[x] != {} {
      var p :| p in flow.preds[x];
      assert Edge(g, p, x);
    }
  }

  /** A register's versions are exact on all entry paths exactly if whatever comes back to the entry has left it untouched. */
  lemma VersionsExactIff(f: Function, r: nat)
    requires f.VersionsDone() && r < f.registers && |f.basicBlocks| > 0
    ensures f.FlowOf(r).Valid()
    ensures VersionPaths.ReplayExact(GraphOf(f.basicBlocks), f.FlowOf(r), f.OutgoingVersions(r)) <==> ComesBackUntouched(f, r)
  {
    var g, flow := GraphOf(f.basicBlocks), f.FlowOf(r);
    VersionsAreFixpoint(f, r);
    VersionEntry.ReplayExactIff(g, flow, f.OutgoingVersions(r));
    forall q: nat ensures q in flow.preds[0] <==> Edge(g, q, 0) {
    }
    forall q: nat | Edge(g, q, 0) ensures Untouched(f, r, q) <==> VersionEntry.Untouched(g, flow, q) {
      UntouchedInFlow(f, r, q);
    }
  }
}
