/** Register versions: numbering of definitions, and the propagation that inserts phi versions at joins. */
module Versions {
  import opened Graphs
  import opened Cfg
  import opened VersionTheory
  import MustPass

  // ---------- version numbers ----------

  function DefVersion(registers: nat, k: nat, r: nat): nat {
    1 + k * registers + r
  }

  function PhiVersion(count: nat, registers: nat, b: nat, r: nat): nat {
    1 + (count + 1) * registers + b * registers + r
  }

  lemma MulMonotone(a: nat, b: nat, c: nat)
    requires a <= b
    ensures a * c <= b * c
  {
  }

  lemma CellInjective(registers: nat, k: nat, r: nat, k': nat, r': nat)
    requires r < registers && r' < registers && k * registers + r == k' * registers + r'
    ensures k == k' && r == r'
  {
    if k < k' {
      MulMonotone(k + 1, k', registers);
    } else if k' < k {
      MulMonotone(k' + 1, k, registers);
    }
  }

  /** Definitions come before all phi versions. */
  lemma DefBelowPhi(count: nat, registers: nat, k: nat, r: nat, b: nat, r': nat)
    requires k < count && r < registers
    ensures 0 < DefVersion(registers, k, r) < PhiVersion(count, registers, b, r')
  {
    MulMonotone(k + 1, count + 1, registers);
  }

  lemma PhiInjective(count: nat, registers: nat, b: nat, r: nat, b': nat, r': nat)
    requires r < registers && r' < registers && PhiVersion(count, registers, b, r) == PhiVersion(count, registers, b', r')
    ensures b == b' && r == r'
  {
    CellInjective(registers, b, r, b', r');
  }

  /** Under the validator's limits every version fits a signed 32-bit integer. */
  lemma PhiFits(count: nat, registers: nat, b: nat, r: nat)
    requires count <= 1000000 && registers <= 255 && b < count && r < registers
    ensures PhiVersion(count, registers, b, r) < 0x8000_0000
  {
    MulMonotone(b, 1000000, registers);
    MulMonotone(count + 1, 1000001, registers);
  }

  /** Two definitions, two phi cells, or one of each never share a number, and numbers fit a signed 32-bit integer. */
  lemma VersionsDistinctAndBounded(count: nat, registers: nat, k: nat, r: nat, k': nat, r': nat, b: nat, b': nat)
    requires count <= 1000000 && registers <= 255
    requires k < count && k' < count && b < count && b' < count && r < registers && r' < registers
    ensures DefVersion(registers, k, r) == DefVersion(registers, k', r') ==> k == k' && r == r'
    ensures PhiVersion(count, registers, b, r) == PhiVersion(count, registers, b', r') ==> b == b' && r == r'
    ensures DefVersion(registers, k, r) < PhiVersion(count, registers, b, r') < 0x8000_0000
  {
    if DefVersion(registers, k, r) == DefVersion(registers, k', r') {
      CellInjective(registers, k, r, k', r');
    }
    if PhiVersion(count, registers, b, r) == PhiVersion(count, registers, b', r') {
      PhiInjective(count, registers, b, r, b', r');
    }
    DefBelowPhi(count, registers, k, r, b, r');
    PhiFits(count, registers, b, r');
  }

  // ---------- the flow of one register ----------

  /** The last instruction in `lo..hi` that defines `r`, or -1. */
  function LastDef(code: seq<Instruction>, lo: nat, hi: nat, r: nat): (k: int)
    requires lo <= hi <= |code|
    ensures k == -1 || (lo <= k < hi && r in code[k].definitions)
    ensures forall j :: lo <= j < hi && j > k ==> r !in code[j].definitions
    decreases hi
  {
    if lo == hi then -1
    else if r in code[hi - 1].definitions then hi - 1
    else LastDef(code, lo, hi - 1, r)
  }

  /** The outgoing version a block forces for `r`, or -1 when it passes its incoming version on. */
  function FixedVersion(code: seq<Instruction>, b: BasicBlock, registers: nat, r: nat): int
    requires b.instructions != [] && First(b) <= Last(b) < |code|
  {
    var k := LastDef(code, First(b), Last(b) + 1, r);
    if k < 0 then -1 else DefVersion(registers, k, r)
  }

  /** What the propagation needs of the blocks: where their instructions lie, and who their predecessors are. */
  ghost predicate Blocks(code: seq<Instruction>, blocks: seq<BasicBlock>, preds: seq<set<nat>>) {
    && (forall b :: 0 <= b < |blocks| ==> BlockShape(code, blocks[b]))
    && Wf(GraphOf(blocks))
    && IsPredecessorTable(GraphOf(blocks), preds)
  }

  ghost predicate BlockShape(code: seq<Instruction>, b: BasicBlock) {
    && b.instructions != [] && First(b) <= Last(b) < |code|
    && IsRange(b.instructions, First(b), Last(b) + 1)
  }

  ghost function Fixed(code: seq<Instruction>, blocks: seq<BasicBlock>, registers: nat, r: nat): seq<int>
    requires forall b :: 0 <= b < |blocks| ==> BlockShape(code, blocks[b])
  {
    seq(|blocks|, b requires 0 <= b < |blocks| && BlockShape(code, blocks[b]) => FixedVersion(code, blocks[b], registers, r))
  }

  ghost function Phis(count: nat, blocks: nat, registers: nat, r: nat): seq<int> {
    seq(blocks, b requires 0 <= b < blocks => PhiVersion(count, registers, b, r))
  }

  ghost function FlowOf(code: seq<Instruction>, blocks: seq<BasicBlock>, preds: seq<set<nat>>, registers: nat, r: nat): Flow
    requires Blocks(code, blocks, preds)
  {
    Flow(preds, Fixed(code, blocks, registers, r), Phis(|code|, |blocks|, registers, r))
  }

  lemma FixedBelowPhi(code: seq<Instruction>, b: BasicBlock, registers: nat, r: nat, c: nat)
    requires BlockShape(code, b) && r < registers
    ensures -1 <= FixedVersion(code, b, registers, r) < PhiVersion(|code|, registers, c, r)
    ensures FixedVersion(code, b, registers, r) != 0
  {
    var k := LastDef(code, First(b), Last(b) + 1, r);
    if k >= 0 {
      DefBelowPhi(|code|, registers, k, r, c, r);
    }
  }

  /** A valid flow, from its parts. */
  lemma PartsMakeFlow(g: Graph, f: Flow)
    requires |f.preds| == |f.fixed| == |f.phi| && Wf(g) && IsPredecessorTable(g, f.preds)
    requires forall b: nat :: b < |f.fixed| ==> f.fixed[b] == -1 || f.fixed[b] > 0
    requires forall b: nat :: b < |f.phi| ==> f.phi[b] > 0
    requires forall b: nat, c: nat :: b < |f.phi| && c < |f.phi| && f.phi[b] == f.phi[c] ==> b == c
    requires forall b: nat, c: nat :: b < |f.phi| && c < |f.fixed| ==> f.phi[b] != f.fixed[c]
    ensures f.Valid() && Linked(g, f)
  {
    forall b, p | 0 <= b < |f.preds| && p in f.preds[b] ensures p < |f.preds| {
      assert Edge(g, p, b);
    }
  }

  lemma FlowValid(code: seq<Instruction>, blocks: seq<BasicBlock>, preds: seq<set<nat>>, registers: nat, r: nat)
    requires Blocks(code, blocks, preds) && r < registers
    ensures FlowOf(code, blocks, preds, registers, r).Valid()
    ensures Linked(GraphOf(blocks), FlowOf(code, blocks, preds, registers, r))
  {
    var fixed, phi := Fixed(code, blocks, registers, r), Phis(|code|, |blocks|, registers, r);
    forall b: nat, c: nat | b < |phi| && c < |phi| && phi[b] == phi[c] ensures b == c {
      PhiInjective(|code|, registers, b, r, c, r);
    }
    forall b: nat, c: nat | b < |phi| && c < |fixed| ensures phi[b] != fixed[c] {
      FixedBelowPhi(code, blocks[c], registers, r, b);
    }
    forall c: nat | c < |fixed| ensures fixed[c] == -1 || fixed[c] > 0 {
      FixedBelowPhi(code, blocks[c], registers, r, c);
    }
    PartsMakeFlow(GraphOf(blocks), Flow(preds, fixed, phi));
  }

  /** Some constant version can flow to `b`. */
  ghost predicate Reached(g: Graph, f: Flow, b: nat)
    requires f.Valid()
  {
    exists a: nat :: a < |f.preds| && f.IsConst(a) && Reaches(g, a, b)
  }

  ghost function LiveSet(g: Graph, f: Flow): set<nat>
    requires f.Valid()
  {
    set b: nat | b < |f.preds| && Reached(g, f, b)
  }

  lemma LiveSetIsLive(g: Graph, f: Flow)
    requires f.Valid() && Linked(g, f)
    ensures IsLive(g, f, LiveSet(g, f))
  {
    forall b: nat ensures b in LiveSet(g, f) <==> Reached(g, f, b) {
      if a: nat :| a < |f.preds| && f.IsConst(a) && Reaches(g, a, b) {
        ReachesBounds(g, a, b);
      }
    }
  }

  // ---------- version tables ----------

  ghost predicate Table(m: seq<seq<int>>, count: nat, registers: nat) {
    |m| == count && forall b :: 0 <= b < count ==> |m[b]| == registers
  }

  ghost function Column(m: seq<seq<int>>, registers: nat, r: nat): (c: seq<int>)
    requires Table(m, |m|, registers) && r < registers
    ensures |c| == |m| && forall b :: 0 <= b < |c| ==> c[b] == m[b][r]
  {
    seq(|m|, b requires 0 <= b < |m| => m[b][r])
  }

  /** The versions after a block, from those before it: the instructions in order, each definition overriding. */
  method Transfer(code: seq<Instruction>, block: BasicBlock, registers: nat, next: seq<int>) returns (out: seq<int>)
    requires block.instructions != [] && First(block) <= Last(block) < |code| && |next| == registers
    requires IsRange(block.instructions, First(block), Last(block) + 1)
    ensures |out| == registers
    ensures forall r :: 0 <= r < registers ==>
      out[r] == if FixedVersion(code, block, registers, r) >= 0 then FixedVersion(code, block, registers, r) else next[r]
  {
    out := next;
    var k := 0;
    while k < |block.instructions|
      invariant 0 <= k <= |block.instructions| && |out| == registers
      invariant forall r :: 0 <= r < registers ==>
        out[r] == AfterDefs(code, First(block), First(block) + k, registers, r, next[r])
    {
      ghost var before := out;
      var at := block.instructions[k];
      var d := 0;
      while d < |code[at].definitions|
        invariant 0 <= d <= |code[at].definitions| && |out| == registers
        invariant forall r :: 0 <= r < registers ==>
          out[r] == if r in code[at].definitions[..d] then DefVersion(registers, at, r) else before[r]
      {
        var r := code[at].definitions[d];
        if r < registers {
          out := out[r := 1 + at * registers + r];
        }
        d := d + 1;
      }
      assert code[at].definitions[..d] == code[at].definitions;
      k := k + 1;
    }
  }

  ghost function AfterDefs(code: seq<Instruction>, lo: nat, hi: nat, registers: nat, r: nat, incoming: int): int
    requires lo <= hi <= |code|
  {
    var k := LastDef(code, lo, hi, r);
    if k >= 0 then DefVersion(registers, k, r) else incoming
  }

  /** Compares the versions of one register over all predecessors. */
  method MergeRegister(preds: set<nat>, outgoing: seq<seq<int>>, registers: nat, r: nat) returns (value: int, differs: bool)
    requires preds != {} && r < registers && Table(outgoing, |outgoing|, registers) && forall p :: p in preds ==> p < |outgoing|
    ensures !differs ==> forall p :: p in preds ==> outgoing[p][r] == value
    ensures differs ==> exists p, q :: p in preds && q in preds && outgoing[p][r] != outgoing[q][r]
  {
    value, differs := -1, false;
    var first := true;
    var rest := preds;
    ghost var leader := 0;
    while rest != {}
      invariant rest <= preds
      invariant first ==> rest == preds && !differs
      invariant !first ==> leader in preds && value == outgoing[leader][r]
      invariant !first && !differs ==> forall p :: p in preds - rest ==> outgoing[p][r] == value
      invariant differs ==> !first && exists p :: p in preds && outgoing[p][r] != value
      decreases |rest|
    {
      var p :| p in rest;
      rest := rest - {p};
      var candidate := outgoing[p][r];
      if first {
        value, first := candidate, false;
        leader := p;
      } else if candidate != value {
        differs := true;
      }
    }
  }

  // ---------- the propagation ----------

  /** One flow per register, all over the same predecessors. */
  ghost predicate Flows(g: Graph, preds: seq<set<nat>>, flows: seq<Flow>) {
    |preds| == |g| && forall r :: 0 <= r < |flows| ==> FlowOk(g, preds, flows[r])
  }

  ghost predicate FlowOk(g: Graph, preds: seq<set<nat>>, f: Flow) {
    f.Valid() && Linked(g, f) && f.preds == preds
  }

  /** Everything a sweep keeps about one register once it has passed block `i`. */
  ghost predicate RegisterSweeping(g: Graph, f: Flow, outs: seq<int>, settled: set<nat>, i: nat)
    requires f.Valid() && |outs| == |f.preds|
  {
    Sweeping(f, outs, settled, Due(f, settled, LiveSet(g, f)), LiveSet(g, f), i)
  }

  ghost predicate RegisterSettled(g: Graph, f: Flow, outs: seq<int>, settled: set<nat>)
    requires f.Valid() && |outs| == |f.preds|
  {
    Settled(f, outs, settled, LiveSet(g, f))
  }

  ghost predicate AllSettled(g: Graph, preds: seq<set<nat>>, flows: seq<Flow>, outgoing: seq<seq<int>>, settled: seq<set<nat>>)
    requires Flows(g, preds, flows) && Table(outgoing, |g|, |flows|) && |settled| == |flows|
  {
    forall r :: 0 <= r < |flows| ==> RegisterSettled(g, flows[r], Column(outgoing, |flows|, r), settled[r])
  }

  ghost predicate AllSweeping(g: Graph, preds: seq<set<nat>>, flows: seq<Flow>, outgoing: seq<seq<int>>, settled: seq<set<nat>>, i: nat)
    requires Flows(g, preds, flows) && Table(outgoing, |g|, |flows|) && |settled| == |flows|
  {
    forall r :: 0 <= r < |flows| ==> RegisterSweeping(g, flows[r], Column(outgoing, |flows|, r), settled[r], i)
  }

  /** `next` holds the merged versions of block `b`. */
  ghost predicate MergedRow(g: Graph, preds: seq<set<nat>>, flows: seq<Flow>, outgoing: seq<seq<int>>, b: nat, next: seq<int>)
    requires Flows(g, preds, flows) && Table(outgoing, |g|, |flows|) && b < |g|
  {
    |next| == |flows| && forall r :: 0 <= r < |flows| ==> next[r] == flows[r].Merge(Column(outgoing, |flows|, r), b)
  }

  ghost predicate ThroughRow(flows: seq<Flow>, b: nat, next: seq<int>, out: seq<int>)
    requires forall r :: 0 <= r < |flows| ==> b < |flows[r].fixed|
  {
    |next| == |out| == |flows| && forall r :: 0 <= r < |flows| ==> out[r] == flows[r].Through(b, next[r])
  }

  /** Storing the new row is one update in every register's flow. */
  lemma RowIsUpdate(g: Graph, preds: seq<set<nat>>, flows: seq<Flow>, outgoing: seq<seq<int>>, b: nat, next: seq<int>, out: seq<int>, r: nat)
    requires Flows(g, preds, flows) && Table(outgoing, |g|, |flows|) && b < |g| && r < |flows|
    requires MergedRow(g, preds, flows, outgoing, b, next) && ThroughRow(flows, b, next, out)
    ensures Column(outgoing[b := out], |flows|, r) == flows[r].Update(Column(outgoing, |flows|, r), b)
  {
  }

  lemma RowKeepsSweeping(g: Graph, preds: seq<set<nat>>, flows: seq<Flow>, outgoing: seq<seq<int>>, settled: seq<set<nat>>,
                         b: nat, next: seq<int>, out: seq<int>)
    requires Flows(g, preds, flows) && Table(outgoing, |g|, |flows|) && |settled| == |flows| && b < |g|
    requires AllSweeping(g, preds, flows, outgoing, settled, b)
    requires MergedRow(g, preds, flows, outgoing, b, next) && ThroughRow(flows, b, next, out)
    ensures AllSweeping(g, preds, flows, outgoing[b := out], settled, b + 1)
  {
    forall r: nat | r < |flows|
      ensures RegisterSweeping(g, flows[r], Column(outgoing[b := out], |flows|, r), settled[r], b + 1)
    {
      RowIsUpdate(g, preds, flows, outgoing, b, next, out, r);
      LiveSetIsLive(g, flows[r]);
      SweepStep(g, flows[r], Column(outgoing, |flows|, r), settled[r], LiveSet(g, flows[r]), b);
    }
  }

  // ---------- no cell loses its version ----------

  /** Every cell that has a version in `before` has one in `after`. */
  ghost predicate NoneLost(before: seq<seq<int>>, after: seq<seq<int>>) {
    |before| == |after| && forall b {:trigger after[b]} {:trigger before[b]} :: 0 <= b < |before| ==> Keeps(before[b], after[b])
  }

  lemma NoneLostOnward(a: seq<seq<int>>, b: seq<seq<int>>, c: seq<seq<int>>)
    requires NoneLost(a, b) && NoneLost(b, c)
    ensures NoneLost(a, c)
  {
    forall k | 0 <= k < |a| ensures Keeps(a[k], c[k]) {
      assert Keeps(a[k], b[k]) && Keeps(b[k], c[k]);
    }
  }

  ghost predicate CellsSupported(g: Graph, preds: seq<set<nat>>, flows: seq<Flow>, incoming: seq<seq<int>>, outgoing: seq<seq<int>>)
    requires Flows(g, preds, flows)
  {
    && Table(incoming, |g|, |flows|) && Table(outgoing, |g|, |flows|)
    && forall r :: 0 <= r < |flows| ==> RegisterSupported(flows[r], Column(incoming, |flows|, r), Column(outgoing, |flows|, r))
  }

  ghost predicate RegisterSupported(f: Flow, ins: seq<int>, outs: seq<int>) {
    f.Valid() && |ins| == |outs| == |f.preds| && BothSupported(f, ins, outs)
  }

  lemma RowKeepsRegister(g: Graph, preds: seq<set<nat>>, flows: seq<Flow>, incoming: seq<seq<int>>, outgoing: seq<seq<int>>,
                         b: nat, next: seq<int>, out: seq<int>, r: nat)
    requires Flows(g, preds, flows) && CellsSupported(g, preds, flows, incoming, outgoing) && b < |g| && r < |flows|
    requires MergedRow(g, preds, flows, outgoing, b, next) && ThroughRow(flows, b, next, out)
    ensures RegisterSupported(flows[r], Column(incoming[b := next], |flows|, r), Column(outgoing[b := out], |flows|, r))
    ensures (incoming[b][r] != -1 ==> next[r] != -1) && (outgoing[b][r] != -1 ==> out[r] != -1)
  {
    var ins, outs := Column(incoming, |flows|, r), Column(outgoing, |flows|, r);
    assert RegisterSupported(flows[r], ins, outs);
    RowIsUpdate(g, preds, flows, outgoing, b, next, out, r);
    BlockKeepsVersions(flows[r], ins, outs, b);
    assert Column(incoming[b := next], |flows|, r) == ins[b := next[r]];
  }

  /** Storing the new rows takes no version away. */
  lemma RowLosesNothing(g: Graph, preds: seq<set<nat>>, flows: seq<Flow>, incoming: seq<seq<int>>, outgoing: seq<seq<int>>,
                        b: nat, next: seq<int>, out: seq<int>)
    requires Flows(g, preds, flows) && CellsSupported(g, preds, flows, incoming, outgoing) && b < |g|
    requires MergedRow(g, preds, flows, outgoing, b, next) && ThroughRow(flows, b, next, out)
    ensures CellsSupported(g, preds, flows, incoming[b := next], outgoing[b := out])
    ensures NoneLost(incoming, incoming[b := next]) && NoneLost(outgoing, outgoing[b := out])
  {
    forall r: nat | r < |flows|
      ensures RegisterSupported(flows[r], Column(incoming[b := next], |flows|, r), Column(outgoing[b := out], |flows|, r))
      ensures (incoming[b][r] != -1 ==> next[r] != -1) && (outgoing[b][r] != -1 ==> out[r] != -1)
    {
      RowKeepsRegister(g, preds, flows, incoming, outgoing, b, next, out, r);
    }
  }

  // ---------- termination ----------

  ghost function NextSettled(g: Graph, flows: seq<Flow>, settled: seq<set<nat>>): seq<set<nat>>
    requires |settled| == |flows| && forall r :: 0 <= r < |flows| ==> flows[r].Valid()
  {
    seq(|flows|, r requires 0 <= r < |flows| && flows[r].Valid() => settled[r] + Due(flows[r], settled[r], LiveSet(g, flows[r])))
  }

  ghost function Pending(flows: seq<Flow>, settled: seq<set<nat>>): seq<set<nat>>
    requires |settled| == |flows| && forall r :: 0 <= r < |flows| ==> flows[r].Valid()
  {
    seq(|flows|, r requires 0 <= r < |flows| && flows[r].Valid() => Unsettled(flows[r], settled[r]))
  }

  ghost predicate Done(flows: seq<Flow>, settled: seq<set<nat>>)
    requires |settled| == |flows| && forall r :: 0 <= r < |flows| ==> flows[r].Valid()
  {
    forall r :: 0 <= r < |flows| ==> Unsettled(flows[r], settled[r]) == {}
  }

  lemma {:induction false} TotalSizeMonotone(a: seq<set<nat>>, b: seq<set<nat>>)
    requires |a| == |b| && forall r :: 0 <= r < |a| ==> a[r] <= b[r]
    ensures MustPass.TotalSize(a) <= MustPass.TotalSize(b)
    ensures a != b ==> MustPass.TotalSize(a) < MustPass.TotalSize(b)
  {
    if a != [] {
      TotalSizeMonotone(a[1..], b[1..]);
      MustPass.SubsetSize(a[0], b[0]);
      assert a == [a[0]] + a[1..] && b == [b[0]] + b[1..];
    }
  }

  /** A sweep settles at least one more block of every register that is not done. */
  lemma SweepSettlesMore(g: Graph, preds: seq<set<nat>>, flows: seq<Flow>, outgoing: seq<seq<int>>, settled: seq<set<nat>>,
                         after: seq<seq<int>>)
    requires Flows(g, preds, flows) && Table(outgoing, |g|, |flows|) && Table(after, |g|, |flows|) && |settled| == |flows|
    requires AllSettled(g, preds, flows, outgoing, settled) && AllSweeping(g, preds, flows, after, settled, |g|)
    ensures AllSettled(g, preds, flows, after, NextSettled(g, flows, settled))
    ensures MustPass.TotalSize(Pending(flows, NextSettled(g, flows, settled))) <= MustPass.TotalSize(Pending(flows, settled))
    ensures !Done(flows, settled)
        ==> MustPass.TotalSize(Pending(flows, NextSettled(g, flows, settled))) < MustPass.TotalSize(Pending(flows, settled))
    ensures Done(flows, settled) ==> Done(flows, NextSettled(g, flows, settled))
  {
    var more := NextSettled(g, flows, settled);
    forall r: nat | r < |flows|
      ensures RegisterSettled(g, flows[r], Column(after, |flows|, r), more[r])
      ensures Unsettled(flows[r], more[r]) <= Unsettled(flows[r], settled[r])
      ensures Unsettled(flows[r], settled[r]) != {} ==> Unsettled(flows[r], more[r]) != Unsettled(flows[r], settled[r])
    {
      RegisterSettlesMore(g, preds, flows[r], Column(outgoing, |flows|, r), Column(after, |flows|, r), settled[r]);
    }
    TotalSizeMonotone(Pending(flows, more), Pending(flows, settled));
    if !Done(flows, settled) {
      var r :| 0 <= r < |flows| && Unsettled(flows[r], settled[r]) != {};
      assert Pending(flows, more)[r] != Pending(flows, settled)[r];
    }
  }

  lemma RegisterSettlesMore(g: Graph, preds: seq<set<nat>>, f: Flow, outs: seq<int>, after: seq<int>, settled: set<nat>)
    requires FlowOk(g, preds, f) && |outs| == |after| == |f.preds|
    requires RegisterSettled(g, f, outs, settled) && RegisterSweeping(g, f, after, settled, |after|)
    ensures var more := settled + Due(f, settled, LiveSet(g, f));
      && RegisterSettled(g, f, after, more)
      && Unsettled(f, more) <= Unsettled(f, settled)
      && (Unsettled(f, settled) != {} ==> Unsettled(f, more) != Unsettled(f, settled))
  {
    LiveSetIsLive(g, f);
    SweepEnds(f, after, settled, Due(f, settled, LiveSet(g, f)), LiveSet(g, f));
    UnsettledShrinks(g, f, settled, LiveSet(g, f));
  }

  /** When every register is done, storing the new row changes nothing. */
  lemma DoneRowUnchanged(g: Graph, preds: seq<set<nat>>, flows: seq<Flow>, outgoing: seq<seq<int>>, settled: seq<set<nat>>,
                         b: nat, next: seq<int>, out: seq<int>)
    requires Flows(g, preds, flows) && Table(outgoing, |g|, |flows|) && |settled| == |flows| && b < |g|
    requires AllSweeping(g, preds, flows, outgoing, settled, b) && Done(flows, settled)
    requires MergedRow(g, preds, flows, outgoing, b, next) && ThroughRow(flows, b, next, out)
    ensures out == outgoing[b]
  {
    forall r: nat | r < |flows| ensures out[r] == outgoing[b][r] {
      var c := Column(outgoing, |flows|, r);
      RowIsUpdate(g, preds, flows, outgoing, b, next, out, r);
      assert RegisterSweeping(g, flows[r], c, settled[r], b);
      AllSettledStays(flows[r], c, settled[r], LiveSet(g, flows[r]), b);
      assert Column(outgoing[b := out], |flows|, r)[b] == c[b];
    }
  }
}
