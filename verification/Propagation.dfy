/** The version propagation loop: its sweeps, its runs and the fixpoint it ends in. */
module Propagation {
  import opened Graphs
  import opened Cfg
  import opened VersionTheory
  import opened Versions
  import MustPass

  /** The flows of all registers of a function. */
  ghost function FlowsFor(code: seq<Instruction>, blocks: seq<BasicBlock>, preds: seq<set<nat>>, registers: nat): (flows: seq<Flow>)
    requires Blocks(code, blocks, preds)
    ensures |flows| == registers
    ensures forall r :: 0 <= r < registers ==> flows[r] == FlowOf(code, blocks, preds, registers, r)
  {
    seq(registers, r requires 0 <= r < registers => FlowOf(code, blocks, preds, registers, r))
  }

  lemma FlowsForOk(code: seq<Instruction>, blocks: seq<BasicBlock>, preds: seq<set<nat>>, registers: nat)
    requires Blocks(code, blocks, preds)
    ensures Flows(GraphOf(blocks), preds, FlowsFor(code, blocks, preds, registers))
  {
    forall r: nat | r < registers ensures FlowOk(GraphOf(blocks), preds, FlowOf(code, blocks, preds, registers, r)) {
      FlowValid(code, blocks, preds, registers, r);
    }
  }

  /** Reserved phi numbers of block `b`. */
  ghost predicate PhiNumbers(flows: seq<Flow>, count: nat, b: nat)
    requires forall r :: 0 <= r < |flows| ==> b < |flows[r].phi|
  {
    forall r :: 0 <= r < |flows| ==> flows[r].phi[b] == PhiVersion(count, |flows|, b, r)
  }

  /** The phi cells of one block: those of the registers whose predecessors disagree are set, the others are left alone. */
  ghost predicate RecordedRow(g: Graph, preds: seq<set<nat>>, flows: seq<Flow>, count: nat, outgoing: seq<seq<int>>, b: nat,
                              before: seq<int>, row: seq<int>)
    requires Flows(g, preds, flows) && Table(outgoing, |g|, |flows|) && b < |g|
  {
    |row| == |before| == |flows| && forall r :: 0 <= r < |flows| ==> row[r] == PhiCell(g, preds, flows, count, outgoing, b, before[r], r)
  }

  ghost function PhiCell(g: Graph, preds: seq<set<nat>>, flows: seq<Flow>, count: nat, outgoing: seq<seq<int>>, b: nat, before: int, r: nat): int
    requires Flows(g, preds, flows) && Table(outgoing, |g|, |flows|) && b < |g| && r < |flows|
  {
    if b != 0 && !flows[r].Agree(Column(outgoing, |flows|, r), b) then PhiVersion(count, |flows|, b, r) else before
  }

  /** The merged versions of one block; a phi is recorded for every register whose predecessors disagree. */
  method MergeRow(ghost g: Graph, preds: seq<set<nat>>, ghost flows: seq<Flow>, registers: nat, count: nat,
                  outgoing: seq<seq<int>>, block: nat, phi: seq<int>)
    returns (next: seq<int>, phi': seq<int>)
    requires Flows(g, preds, flows) && |flows| == registers && Table(outgoing, |g|, registers) && block < |g| == |outgoing|
    requires PhiNumbers(flows, count, block) && |phi| == registers
    ensures MergedRow(g, preds, flows, outgoing, block, next)
    ensures RecordedRow(g, preds, flows, count, outgoing, block, phi, phi')
  {
    next, phi' := seq(registers, _ => -1), phi;
    if block == 0 {
      next := seq(registers, _ => 0);
    } else if preds[block] != {} {
      var reg := 0;
      while reg < registers
        invariant 0 <= reg <= registers && |next| == registers && |phi'| == registers
        invariant forall r :: 0 <= r < reg ==> next[r] == flows[r].Merge(Column(outgoing, registers, r), block)
        invariant forall r :: 0 <= r < registers ==>
          phi'[r] == if r < reg then PhiCell(g, preds, flows, count, outgoing, block, phi[r], r) else phi[r]
      {
        assert FlowOk(g, preds, flows[reg]);
        var value, differs := MergeRegister(preds[block], outgoing, registers, reg);
        ghost var p :| p in preds[block];
        MergeOf(flows[reg], Column(outgoing, registers, reg), block, p);
        if differs {
          var phiBase := 1 + (count + 1) * registers;
          var version := phiBase + block * registers + reg;
          phi', next := phi'[reg := version], next[reg := version];
        } else {
          next := next[reg := value];
        }
        reg := reg + 1;
      }
    }
  }

  ghost predicate Consistent(g: Graph, preds: seq<set<nat>>, flows: seq<Flow>, incoming: seq<seq<int>>, outgoing: seq<seq<int>>, to: nat)
    requires Flows(g, preds, flows) && Table(outgoing, |g|, |flows|) && to <= |g| == |incoming|
  {
    forall b :: 0 <= b < to ==> MergedRow(g, preds, flows, outgoing, b, incoming[b])
  }

  ghost predicate PassedOn(flows: seq<Flow>, incoming: seq<seq<int>>, outgoing: seq<seq<int>>, to: nat)
    requires to <= |incoming| == |outgoing| && forall r :: 0 <= r < |flows| ==> |flows[r].fixed| == |incoming|
  {
    forall b :: 0 <= b < to ==> ThroughRow(flows, b, incoming[b], outgoing[b])
  }

  lemma MergedRowUnique(g: Graph, preds: seq<set<nat>>, flows: seq<Flow>, outgoing: seq<seq<int>>, b: nat, x: seq<int>, y: seq<int>)
    requires Flows(g, preds, flows) && Table(outgoing, |g|, |flows|) && b < |g|
    requires MergedRow(g, preds, flows, outgoing, b, x) && MergedRow(g, preds, flows, outgoing, b, y)
    ensures x == y
  {
  }

  /** The flows' forced versions are those of the blocks. */
  ghost predicate FixedNumbers(code: seq<Instruction>, block: BasicBlock, flows: seq<Flow>, b: nat)
    requires BlockShape(code, block)
  {
    forall r :: 0 <= r < |flows| ==> b < |flows[r].fixed| && flows[r].fixed[b] == FixedVersion(code, block, |flows|, r)
  }

  /** The tables of a run: merged versions, outgoing versions and recorded phis. */
  datatype Tables = Tables(incoming: seq<seq<int>>, outgoing: seq<seq<int>>, phi: seq<seq<int>>)

  /** No cell that holds a version in `a` is back at -1 in `b`. */
  ghost predicate Grows(a: Tables, b: Tables) {
    NoneLost(a.incoming, b.incoming) && NoneLost(a.outgoing, b.outgoing) && NoneLost(a.phi, b.phi)
  }

  lemma GrowsOnward(a: Tables, b: Tables, c: Tables)
    requires Grows(a, b) && Grows(b, c)
    ensures Grows(a, c)
  {
    NoneLostOnward(a.incoming, b.incoming, c.incoming);
    NoneLostOnward(a.outgoing, b.outgoing, c.outgoing);
    NoneLostOnward(a.phi, b.phi, c.phi);
  }

  /** Nothing is lost since `start`, and nothing will be. */
  ghost predicate Growing(g: Graph, preds: seq<set<nat>>, flows: seq<Flow>, start: Tables, t: Tables)
    requires Flows(g, preds, flows)
  {
    CellsSupported(g, preds, flows, t.incoming, t.outgoing) && Grows(start, t)
  }

  /** One block of a sweep: nothing is lost since the sweep began. */
  lemma GrowsByBlock(g: Graph, preds: seq<set<nat>>, flows: seq<Flow>, start: Tables, t: Tables, b: nat,
                     next: seq<int>, out: seq<int>, row: seq<int>)
    requires Flows(g, preds, flows) && Growing(g, preds, flows, start, t) && b < |g| == |t.phi|
    requires MergedRow(g, preds, flows, t.outgoing, b, next) && ThroughRow(flows, b, next, out) && Keeps(t.phi[b], row)
    ensures Growing(g, preds, flows, start, Tables(t.incoming[b := next], t.outgoing[b := out], t.phi[b := row]))
  {
    RowLosesNothing(g, preds, flows, t.incoming, t.outgoing, b, next, out);
    GrowsOnward(start, t, Tables(t.incoming[b := next], t.outgoing[b := out], t.phi[b := row]));
  }

  /** What holds after a sweep has passed block `i`, having started from `in0` and `out0`. */
  ghost predicate Swept(g: Graph, preds: seq<set<nat>>, flows: seq<Flow>, settled: seq<set<nat>>, in0: seq<seq<int>>, out0: seq<seq<int>>,
                        incoming: seq<seq<int>>, outgoing: seq<seq<int>>, changed: bool, i: nat)
    requires Flows(g, preds, flows) && |settled| == |flows| && |in0| == |g| && Table(out0, |g|, |flows|) && i <= |g|
  {
    && |incoming| == |g| && Table(outgoing, |g|, |flows|)
    && AllSweeping(g, preds, flows, outgoing, settled, i)
    && (!changed ==> incoming == in0 && outgoing == out0
                     && Consistent(g, preds, flows, incoming, outgoing, i) && PassedOn(flows, incoming, outgoing, i))
    && (Done(flows, settled) ==> outgoing == out0 && Consistent(g, preds, flows, incoming, outgoing, i))
    && (Done(flows, settled) && Consistent(g, preds, flows, in0, out0, |g|) ==> !changed)
  }

  lemma SweptStep(g: Graph, preds: seq<set<nat>>, flows: seq<Flow>, settled: seq<set<nat>>, in0: seq<seq<int>>, out0: seq<seq<int>>,
                  incoming: seq<seq<int>>, outgoing: seq<seq<int>>, changed: bool, i: nat, next: seq<int>, out: seq<int>)
    requires Flows(g, preds, flows) && |settled| == |flows| && |in0| == |g| && Table(out0, |g|, |flows|) && i < |g|
    requires Swept(g, preds, flows, settled, in0, out0, incoming, outgoing, changed, i)
    requires MergedRow(g, preds, flows, outgoing, i, next) && ThroughRow(flows, i, next, out)
    ensures Swept(g, preds, flows, settled, in0, out0, incoming[i := next], outgoing[i := out],
                  changed || next != incoming[i] || out != outgoing[i], i + 1)
  {
    RowKeepsSweeping(g, preds, flows, outgoing, settled, i, next, out);
    if Done(flows, settled) {
      DoneRowUnchanged(g, preds, flows, outgoing, settled, i, next, out);
      if Consistent(g, preds, flows, in0, out0, |g|) {
        MergedRowUnique(g, preds, flows, outgoing, i, next, in0[i]);
      }
    }
  }

  /** What the numbers of one block have to be. */
  ghost predicate BlockNumbers(code: seq<Instruction>, blocks: seq<BasicBlock>, flows: seq<Flow>, b: nat) {
    && b < |blocks| && BlockShape(code, blocks[b])
    && FixedNumbers(code, blocks[b], flows, b)
    && (forall r :: 0 <= r < |flows| ==> b < |flows[r].phi|)
    && PhiNumbers(flows, |code|, b)
  }

  /** A phi cell is empty or holds the number reserved for it. */
  ghost predicate PhiCells(count: nat, registers: nat, b: nat, row: seq<int>) {
    |row| == registers && forall r :: 0 <= r < registers ==> row[r] == -1 || row[r] == PhiVersion(count, registers, b, r)
  }

  /** Wherever the predecessors of `b` disagree a phi is recorded. */
  ghost predicate DisagreeingRecorded(g: Graph, preds: seq<set<nat>>, flows: seq<Flow>, count: nat, outgoing: seq<seq<int>>,
                                      b: nat, row: seq<int>)
    requires Flows(g, preds, flows) && Table(outgoing, |g|, |flows|) && b < |g| && |row| == |flows|
  {
    forall r {:trigger row[r]} :: 0 <= r < |flows| && b != 0 && !flows[r].Agree(Column(outgoing, |flows|, r), b) ==>
      row[r] == PhiVersion(count, |flows|, b, r)
  }

  /** The merged and the outgoing versions of one block. */
  method NewRow(code: seq<Instruction>, blocks: seq<BasicBlock>, preds: seq<set<nat>>, registers: nat,
                ghost g: Graph, ghost flows: seq<Flow>, outgoing: seq<seq<int>>, block: nat, phi: seq<int>)
    returns (next: seq<int>, out: seq<int>, row: seq<int>)
    requires Flows(g, preds, flows) && |flows| == registers == |phi| && Table(outgoing, |g|, registers) && block < |g|
    requires BlockNumbers(code, blocks, flows, block)
    ensures MergedRow(g, preds, flows, outgoing, block, next) && ThroughRow(flows, block, next, out)
    ensures RecordedRow(g, preds, flows, |code|, outgoing, block, phi, row)
  {
    next, row := MergeRow(g, preds, flows, registers, |code|, outgoing, block, phi);
    out := Transfer(code, blocks[block], registers, next);
  }

  ghost predicate PhiTable(count: nat, registers: nat, phi: seq<seq<int>>) {
    forall b :: 0 <= b < |phi| ==> PhiCells(count, registers, b, phi[b])
  }

  ghost predicate RecordedUpTo(g: Graph, preds: seq<set<nat>>, flows: seq<Flow>, count: nat, outgoing: seq<seq<int>>, phi: seq<seq<int>>, i: nat)
    requires Flows(g, preds, flows) && Table(outgoing, |g|, |flows|) && Table(phi, |g|, |flows|) && i <= |g|
  {
    forall b :: 0 <= b < i ==> DisagreeingRecorded(g, preds, flows, count, outgoing, b, phi[b])
  }

  /** A sweep that started from `start` has passed block `i`. */
  ghost predicate Midway(g: Graph, preds: seq<set<nat>>, flows: seq<Flow>, count: nat, settled: seq<set<nat>>,
                         start: Tables, t: Tables, changed: bool, i: nat)
    requires Flows(g, preds, flows) && |settled| == |flows| && |start.incoming| == |g| && Table(start.outgoing, |g|, |flows|) && i <= |g|
  {
    && Swept(g, preds, flows, settled, start.incoming, start.outgoing, t.incoming, t.outgoing, changed, i)
    && Growing(g, preds, flows, start, t)
    && Table(t.phi, |g|, |flows|) && PhiTable(count, |flows|, t.phi)
    && (!changed ==> RecordedUpTo(g, preds, flows, count, start.outgoing, t.phi, i))
  }

  /** What `NewRow` has computed for block `i`. */
  ghost predicate RowsOk(g: Graph, preds: seq<set<nat>>, flows: seq<Flow>, count: nat, t: Tables, i: nat,
                         next: seq<int>, out: seq<int>, row: seq<int>)
    requires Flows(g, preds, flows) && Table(t.outgoing, |g|, |flows|) && i < |g| == |t.phi|
  {
    && MergedRow(g, preds, flows, t.outgoing, i, next) && ThroughRow(flows, i, next, out)
    && RecordedRow(g, preds, flows, count, t.outgoing, i, t.phi[i], row)
  }

  /** A recorded phi is never erased, and what disagrees is recorded. */
  lemma RecordedMeans(g: Graph, preds: seq<set<nat>>, flows: seq<Flow>, count: nat, outgoing: seq<seq<int>>, b: nat,
                      before: seq<int>, row: seq<int>)
    requires Flows(g, preds, flows) && Table(outgoing, |g|, |flows|) && b < |g|
    requires RecordedRow(g, preds, flows, count, outgoing, b, before, row)
    ensures Keeps(before, row) && DisagreeingRecorded(g, preds, flows, count, outgoing, b, row)
    ensures PhiCells(count, |flows|, b, before) ==> PhiCells(count, |flows|, b, row)
  {
  }

  function Stored(t: Tables, i: nat, next: seq<int>, out: seq<int>, row: seq<int>): Tables
    requires i < |t.incoming| && i < |t.outgoing| && i < |t.phi|
  {
    Tables(t.incoming[i := next], t.outgoing[i := out], t.phi[i := row])
  }

  lemma MidwayStep(g: Graph, preds: seq<set<nat>>, flows: seq<Flow>, count: nat, settled: seq<set<nat>>,
                   start: Tables, t: Tables, changed: bool, i: nat, next: seq<int>, out: seq<int>, row: seq<int>)
    requires Flows(g, preds, flows) && |settled| == |flows| && |start.incoming| == |g| && Table(start.outgoing, |g|, |flows|) && i < |g|
    requires Midway(g, preds, flows, count, settled, start, t, changed, i) && RowsOk(g, preds, flows, count, t, i, next, out, row)
    ensures Midway(g, preds, flows, count, settled, start, Stored(t, i, next, out, row),
                   changed || next != t.incoming[i] || out != t.outgoing[i], i + 1)
  {
    RecordedMeans(g, preds, flows, count, t.outgoing, i, t.phi[i], row);
    SweptStep(g, preds, flows, settled, start.incoming, start.outgoing, t.incoming, t.outgoing, changed, i, next, out);
    GrowsByBlock(g, preds, flows, start, t, i, next, out, row);
    PhiStep(g, preds, flows, count, start, t, changed, i, row);
  }

  lemma PhiStep(g: Graph, preds: seq<set<nat>>, flows: seq<Flow>, count: nat, start: Tables, t: Tables, changed: bool, i: nat, row: seq<int>)
    requires Flows(g, preds, flows) && Table(start.outgoing, |g|, |flows|) && Table(t.outgoing, |g|, |flows|) && i < |g|
    requires Table(t.phi, |g|, |flows|) && PhiTable(count, |flows|, t.phi) && PhiCells(count, |flows|, i, row)
    requires !changed ==> t.outgoing == start.outgoing && RecordedUpTo(g, preds, flows, count, start.outgoing, t.phi, i)
    requires DisagreeingRecorded(g, preds, flows, count, t.outgoing, i, row)
    ensures Table(t.phi[i := row], |g|, |flows|) && PhiTable(count, |flows|, t.phi[i := row])
    ensures !changed ==> RecordedUpTo(g, preds, flows, count, start.outgoing, t.phi[i := row], i + 1)
  {
  }

  // ---------- runs ----------

  /** One block is recomputed, from the tables as they are at that moment. */
  ghost predicate BlockStep(g: Graph, preds: seq<set<nat>>, flows: seq<Flow>, count: nat, a: Tables, b: Tables, i: nat)
    requires Flows(g, preds, flows)
  {
    && |a.incoming| == |g| && Table(a.outgoing, |g|, |flows|) && Table(a.phi, |g|, |flows|) && i < |g|
    && exists next, out, row :: RowsOk(g, preds, flows, count, a, i, next, out, row) && b == Stored(a, i, next, out, row)
  }

  /** The block visited in step `i`: one after another, from the first again after the last. */
  function Turn(blocks: nat, i: nat): nat {
    if i == 0 then 0 else InTurn(blocks, Turn(blocks, i - 1) + 1)
  }

  function InTurn(blocks: nat, b: nat): nat {
    if b < blocks then b else 0
  }

  /** A run of the propagation, block by block: it starts with no version anywhere and visits the blocks in turn. */
  ghost predicate IsRun(g: Graph, preds: seq<set<nat>>, flows: seq<Flow>, count: nat, run: seq<Tables>)
    requires Flows(g, preds, flows)
  {
    && |run| > 0
    && AllUnset(run[0].incoming, |g|, |flows|) && AllUnset(run[0].outgoing, |g|, |flows|) && AllUnset(run[0].phi, |g|, |flows|)
    && forall i: nat {:trigger RunStep(g, preds, flows, count, run, i)} :: i + 1 < |run| ==> RunStep(g, preds, flows, count, run, i)
  }

  ghost predicate RunStep(g: Graph, preds: seq<set<nat>>, flows: seq<Flow>, count: nat, run: seq<Tables>, i: nat)
    requires Flows(g, preds, flows) && i + 1 < |run|
  {
    BlockStep(g, preds, flows, count, run[i], run[i + 1], Turn(|g|, i))
  }

  ghost predicate AllUnset(m: seq<seq<int>>, count: nat, registers: nat) {
    Table(m, count, registers) && forall b, r :: 0 <= b < count && 0 <= r < registers ==> m[b][r] == -1
  }

  /** The run so far has come to `t`, with `block` next in turn. */
  ghost predicate RunsTo(g: Graph, preds: seq<set<nat>>, flows: seq<Flow>, count: nat, run: seq<Tables>, t: Tables, block: nat)
    requires Flows(g, preds, flows)
  {
    IsRun(g, preds, flows, count, run) && run[|run| - 1] == t && Turn(|g|, |run| - 1) == block
  }

  lemma RunGoesOn(g: Graph, preds: seq<set<nat>>, flows: seq<Flow>, count: nat, run: seq<Tables>, t: Tables, t': Tables, block: nat)
    requires Flows(g, preds, flows) && RunsTo(g, preds, flows, count, run, t, block)
    requires BlockStep(g, preds, flows, count, t, t', block)
    ensures RunsTo(g, preds, flows, count, run + [t'], t', InTurn(|g|, block + 1))
  {
    var more := run + [t'];
    forall i: nat | i + 1 < |more| ensures RunStep(g, preds, flows, count, more, i) {
      if i + 1 < |run| {
        assert RunStep(g, preds, flows, count, run, i);
      }
    }
  }

  lemma StepGrows(g: Graph, preds: seq<set<nat>>, flows: seq<Flow>, count: nat, start: Tables, a: Tables, b: Tables, i: nat)
    requires Flows(g, preds, flows) && BlockStep(g, preds, flows, count, a, b, i) && Growing(g, preds, flows, start, a)
    ensures Growing(g, preds, flows, start, b)
  {
    var next, out, row :| RowsOk(g, preds, flows, count, a, i, next, out, row) && b == Stored(a, i, next, out, row);
    RecordedMeans(g, preds, flows, count, a.outgoing, i, a.phi[i], row);
    GrowsByBlock(g, preds, flows, start, a, i, next, out, row);
  }

  lemma RunStepGrows(g: Graph, preds: seq<set<nat>>, flows: seq<Flow>, count: nat, run: seq<Tables>, start: Tables, k: nat)
    requires Flows(g, preds, flows) && IsRun(g, preds, flows, count, run) && k < |run| - 1 && Growing(g, preds, flows, start, run[k])
    ensures Growing(g, preds, flows, start, run[k + 1])
  {
    assert RunStep(g, preds, flows, count, run, k);
    StepGrows(g, preds, flows, count, start, run[k], run[k + 1], Turn(|g|, k));
  }

  lemma {:induction false} RunIsSupported(g: Graph, preds: seq<set<nat>>, flows: seq<Flow>, count: nat, run: seq<Tables>, i: nat)
    requires Flows(g, preds, flows) && IsRun(g, preds, flows, count, run) && i < |run|
    ensures Growing(g, preds, flows, run[i], run[i])
    decreases i
  {
    if i == 0 {
      UnsetIsSupported(g, preds, flows, run[0]);
    } else {
      RunIsSupported(g, preds, flows, count, run, i - 1);
      RunStepGrows(g, preds, flows, count, run, run[i - 1], i - 1);
    }
  }

  /** Whatever the code, between any two points of a run no cell loses its version. */
  lemma {:induction false} NeverReturns(g: Graph, preds: seq<set<nat>>, flows: seq<Flow>, count: nat, run: seq<Tables>, i: nat, j: nat)
    requires Flows(g, preds, flows) && IsRun(g, preds, flows, count, run) && i <= j < |run|
    ensures Growing(g, preds, flows, run[i], run[j])
    decreases j
  {
    if i == j {
      RunIsSupported(g, preds, flows, count, run, i);
    } else {
      NeverReturns(g, preds, flows, count, run, i, j - 1);
      RunStepGrows(g, preds, flows, count, run, run[i], j - 1);
    }
  }

  lemma UnsetIsSupported(g: Graph, preds: seq<set<nat>>, flows: seq<Flow>, t: Tables)
    requires Flows(g, preds, flows) && AllUnset(t.incoming, |g|, |flows|) && AllUnset(t.outgoing, |g|, |flows|)
    ensures CellsSupported(g, preds, flows, t.incoming, t.outgoing)
  {
    forall r | 0 <= r < |flows|
      ensures RegisterSupported(flows[r], Column(t.incoming, |flows|, r), Column(t.outgoing, |flows|, r))
    {
      assert FlowOk(g, preds, flows[r]);
    }
  }

  // ---------- sweeps ----------

  /** Recomputes one block, and stores what is new; `run` records every step. */
  method VisitBlock(code: seq<Instruction>, blocks: seq<BasicBlock>, preds: seq<set<nat>>, registers: nat,
                    ghost g: Graph, ghost flows: seq<Flow>, ghost settled: seq<set<nat>>, ghost start: Tables, ghost run: seq<Tables>,
                    t: Tables, changed: bool, block: nat)
    returns (t': Tables, changed': bool, ghost run': seq<Tables>)
    requires Flows(g, preds, flows) && |flows| == registers == |settled| && |g| == |blocks| == |start.incoming|
    requires Table(start.outgoing, |g|, registers) && block < |g| && BlockNumbers(code, blocks, flows, block)
    requires Midway(g, preds, flows, |code|, settled, start, t, changed, block) && RunsTo(g, preds, flows, |code|, run, t, InTurn(|g|, block))
    ensures Midway(g, preds, flows, |code|, settled, start, t', changed', block + 1)
    ensures RunsTo(g, preds, flows, |code|, run', t', InTurn(|g|, block + 1))
  {
    var next, out, row := NewRow(code, blocks, preds, registers, g, flows, t.outgoing, block, t.phi[block]);
    MidwayStep(g, preds, flows, |code|, settled, start, t, changed, block, next, out, row);
    t', changed' := Store(t, changed, block, next, out, row);
    RunGoesOn(g, preds, flows, |code|, run, t, t', block);
    run' := run + [t'];
  }

  method Store(t: Tables, changed: bool, block: nat, next: seq<int>, out: seq<int>, row: seq<int>) returns (t': Tables, changed': bool)
    requires block < |t.incoming| == |t.outgoing| == |t.phi|
    ensures t' == Stored(t, block, next, out, row)
    ensures changed' == (changed || next != t.incoming[block] || out != t.outgoing[block])
  {
    t', changed' := t.(phi := t.phi[block := row]), changed;
    if next != t.incoming[block] {
      t', changed' := t'.(incoming := t.incoming[block := next]), true;
    }
    if out != t.outgoing[block] {
      t', changed' := t'.(outgoing := t.outgoing[block := out]), true;
    }
  }

  /** One pass over all blocks, updating in place. */
  method Sweep(code: seq<Instruction>, blocks: seq<BasicBlock>, preds: seq<set<nat>>, registers: nat,
               ghost g: Graph, ghost flows: seq<Flow>, ghost settled: seq<set<nat>>, ghost before: seq<Tables>, start: Tables)
    returns (t: Tables, changed: bool, ghost run: seq<Tables>)
    requires Flows(g, preds, flows) && |flows| == registers == |settled| && |g| == |blocks| == |start.incoming|
    requires Table(start.outgoing, |g|, registers)
    requires forall b :: 0 <= b < |blocks| ==> BlockNumbers(code, blocks, flows, b)
    requires Midway(g, preds, flows, |code|, settled, start, start, false, 0) && RunsTo(g, preds, flows, |code|, before, start, 0)
    ensures Midway(g, preds, flows, |code|, settled, start, t, changed, |g|)
    ensures RunsTo(g, preds, flows, |code|, run, t, 0)
  {
    t, changed, run := start, false, before;
    var block := 0;
    while block < |blocks|
      invariant 0 <= block <= |g| && Midway(g, preds, flows, |code|, settled, start, t, changed, block)
      invariant RunsTo(g, preds, flows, |code|, run, t, InTurn(|g|, block))
    {
      t, changed, run := VisitBlock(code, blocks, preds, registers, g, flows, settled, start, run, t, changed, block);
      block := block + 1;
    }
  }

  // ---------- the whole propagation ----------

  /** The result: a fixpoint of merging and passing on, with a phi recorded wherever predecessors disagree. */
  ghost predicate Propagated(g: Graph, preds: seq<set<nat>>, flows: seq<Flow>, count: nat,
                             incoming: seq<seq<int>>, outgoing: seq<seq<int>>, phi: seq<seq<int>>)
    requires Flows(g, preds, flows)
  {
    && |incoming| == |g| && Table(outgoing, |g|, |flows|) && Table(phi, |g|, |flows|)
    && Consistent(g, preds, flows, incoming, outgoing, |g|)
    && PassedOn(flows, incoming, outgoing, |g|)
    && (forall b :: 0 <= b < |g| ==> PhiCells(count, |flows|, b, phi[b]))
    && (forall b :: 0 <= b < |g| ==> DisagreeingRecorded(g, preds, flows, count, outgoing, b, phi[b]))
  }

  /** No group of pass-on blocks holds a version made outside it. */
  ghost predicate AllGroupsSealed(g: Graph, preds: seq<set<nat>>, flows: seq<Flow>, outgoing: seq<seq<int>>)
    requires Flows(g, preds, flows) && Table(outgoing, |g|, |flows|)
  {
    forall r :: 0 <= r < |flows| ==> flows[r].GroupsSealed(Column(outgoing, |flows|, r))
  }

  ghost function Dead(g: Graph, flows: seq<Flow>): seq<set<nat>>
    requires forall r :: 0 <= r < |flows| ==> flows[r].Valid()
  {
    seq(|flows|, r requires 0 <= r < |flows| && flows[r].Valid() => set b: nat | b < |g| && b !in LiveSet(g, flows[r]))
  }

  lemma StartAllSettled(g: Graph, preds: seq<set<nat>>, flows: seq<Flow>, outgoing: seq<seq<int>>)
    requires Flows(g, preds, flows) && Table(outgoing, |g|, |flows|)
    requires forall b, r :: 0 <= b < |g| && 0 <= r < |flows| ==> outgoing[b][r] == -1
    ensures AllSettled(g, preds, flows, outgoing, Dead(g, flows))
  {
    forall r: nat | r < |flows| ensures RegisterSettled(g, flows[r], Column(outgoing, |flows|, r), Dead(g, flows)[r]) {
      assert FlowOk(g, preds, flows[r]);
      LiveSetIsLive(g, flows[r]);
      StartIsSettled(g, flows[r], Column(outgoing, |flows|, r), LiveSet(g, flows[r]));
    }
  }

  lemma SettledStartsSweep(g: Graph, preds: seq<set<nat>>, flows: seq<Flow>, outgoing: seq<seq<int>>, settled: seq<set<nat>>)
    requires Flows(g, preds, flows) && Table(outgoing, |g|, |flows|) && |settled| == |flows|
    requires AllSettled(g, preds, flows, outgoing, settled)
    ensures AllSweeping(g, preds, flows, outgoing, settled, 0)
  {
    forall r: nat | r < |flows| ensures RegisterSweeping(g, flows[r], Column(outgoing, |flows|, r), settled[r], 0) {
      SweepBegins(flows[r], Column(outgoing, |flows|, r), settled[r], LiveSet(g, flows[r]));
    }
  }

  lemma SettledIsSealed(g: Graph, preds: seq<set<nat>>, flows: seq<Flow>, outgoing: seq<seq<int>>, settled: seq<set<nat>>)
    requires Flows(g, preds, flows) && Table(outgoing, |g|, |flows|) && |settled| == |flows|
    requires AllSettled(g, preds, flows, outgoing, settled)
    ensures AllGroupsSealed(g, preds, flows, outgoing)
  {
    forall r | 0 <= r < |flows| ensures flows[r].GroupsSealed(Column(outgoing, |flows|, r)) {
      assert RegisterSettled(g, flows[r], Column(outgoing, |flows|, r), settled[r]);
    }
  }

  /** Between two sweeps. */
  ghost predicate BetweenSweeps(g: Graph, preds: seq<set<nat>>, flows: seq<Flow>, count: nat, settled: seq<set<nat>>, t: Tables)
    requires Flows(g, preds, flows)
  {
    && |settled| == |flows| && Table(t.outgoing, |g|, |flows|) && Table(t.phi, |g|, |flows|) && PhiTable(count, |flows|, t.phi)
    && CellsSupported(g, preds, flows, t.incoming, t.outgoing) && AllSettled(g, preds, flows, t.outgoing, settled)
  }

  lemma SweepMayStart(g: Graph, preds: seq<set<nat>>, flows: seq<Flow>, count: nat, settled: seq<set<nat>>, t: Tables)
    requires Flows(g, preds, flows) && BetweenSweeps(g, preds, flows, count, settled, t)
    ensures Midway(g, preds, flows, count, settled, t, t, false, 0)
  {
    SettledStartsSweep(g, preds, flows, t.outgoing, settled);
  }

  /** Runs sweeps until one changes nothing; `run` records the tables after every block. */
  method ComputeVersions(code: seq<Instruction>, blocks: seq<BasicBlock>, preds: seq<set<nat>>, registers: nat,
                         ghost g: Graph, ghost flows: seq<Flow>)
    returns (t: Tables, ghost run: seq<Tables>)
    requires Flows(g, preds, flows) && |flows| == registers && |g| == |blocks|
    requires forall b :: 0 <= b < |blocks| ==> BlockNumbers(code, blocks, flows, b)
    ensures Propagated(g, preds, flows, |code|, t.incoming, t.outgoing, t.phi)
    ensures AllGroupsSealed(g, preds, flows, t.outgoing)
    ensures IsRun(g, preds, flows, |code|, run) && run[|run| - 1] == t
  {
    var none := seq(registers, _ => -1);
    var unset := seq(|blocks|, _ => none);
    t := Tables(unset, unset, unset);
    ghost var settled := Dead(g, flows);
    StartAllSettled(g, preds, flows, unset);
    UnsetIsSupported(g, preds, flows, t);
    run := [t];
    var changed := true;
    while changed
      invariant BetweenSweeps(g, preds, flows, |code|, settled, t)
      invariant RunsTo(g, preds, flows, |code|, run, t, 0)
      invariant !changed ==> Propagated(g, preds, flows, |code|, t.incoming, t.outgoing, t.phi)
      decreases MustPass.TotalSize(Pending(flows, settled)), !Consistent(g, preds, flows, t.incoming, t.outgoing, |g|), changed
    {
      SweepMayStart(g, preds, flows, |code|, settled, t);
      ghost var before := t;
      t, changed, run := Sweep(code, blocks, preds, registers, g, flows, settled, run, t);
      SweepSettlesMore(g, preds, flows, before.outgoing, settled, t.outgoing);
      settled := NextSettled(g, flows, settled);
    }
    SettledIsSealed(g, preds, flows, t.outgoing, settled);
  }
}
