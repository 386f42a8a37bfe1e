/** Which phis a run of the version propagation records: exactly those its own steps had to. */
module PhiHistory {
  import opened Graphs
  import opened VersionTheory
  import opened Versions
  import opened Propagation

  /** Two predecessors of `b` hold different versions of register `r`. */
  ghost predicate Clash(preds: seq<set<nat>>, outgoing: seq<seq<int>>, b: nat, r: nat) {
    b < |preds| && exists p, q :: p in preds[b] && q in preds[b] && Differ(outgoing, p, q, r)
  }

  predicate Differ(outgoing: seq<seq<int>>, p: nat, q: nat, r: nat) {
    p < |outgoing| && q < |outgoing| && r < |outgoing[p]| && r < |outgoing[q]| && outgoing[p][r] != outgoing[q][r]
  }

  lemma ClashIff(g: Graph, preds: seq<set<nat>>, flows: seq<Flow>, outgoing: seq<seq<int>>, b: nat, r: nat)
    requires Flows(g, preds, flows) && Table(outgoing, |g|, |flows|) && b < |g| && r < |flows|
    ensures Clash(preds, outgoing, b, r) <==> !flows[r].Agree(Column(outgoing, |flows|, r), b)
  {
    assert FlowOk(g, preds, flows[r]);
    var column := Column(outgoing, |flows|, r);
    forall p, q | p in preds[b] && q in preds[b] ensures Differ(outgoing, p, q, r) <==> column[p] != column[q] {
    }
  }

  /** Step `k` of the run visits block `b` while its predecessors hold different versions of `r`. */
  ghost predicate ClashAt(g: Graph, preds: seq<set<nat>>, run: seq<Tables>, k: nat, b: nat, r: nat) {
    k < |run| && Turn(|g|, k) == b && Clash(preds, run[k].outgoing, b, r)
  }

  /** One of the first `k` steps of the run does. */
  ghost predicate Clashed(g: Graph, preds: seq<set<nat>>, run: seq<Tables>, k: nat, b: nat, r: nat) {
    b != 0 && exists j: nat :: j < k && ClashAt(g, preds, run, j, b, r)
  }

  lemma ClashedNext(g: Graph, preds: seq<set<nat>>, run: seq<Tables>, k: nat, b: nat, r: nat)
    ensures Clashed(g, preds, run, k + 1, b, r) <==> Clashed(g, preds, run, k, b, r) || (b != 0 && ClashAt(g, preds, run, k, b, r))
  {
  }

  lemma StepRecords(g: Graph, preds: seq<set<nat>>, flows: seq<Flow>, count: nat, a: Tables, t: Tables, i: nat, b: nat, r: nat)
    requires Flows(g, preds, flows) && BlockStep(g, preds, flows, count, a, t, i) && b < |g| && r < |flows|
    ensures Table(a.phi, |g|, |flows|) && Table(t.phi, |g|, |flows|) && Table(a.outgoing, |g|, |flows|)
    ensures t.phi[b][r] == if b == i && b != 0 && Clash(preds, a.outgoing, b, r) then PhiVersion(count, |flows|, b, r) else a.phi[b][r]
  {
    var next, out, row :| RowsOk(g, preds, flows, count, a, i, next, out, row) && t == Stored(a, i, next, out, row);
    ClashIff(g, preds, flows, a.outgoing, i, r);
    assert row[r] == PhiCell(g, preds, flows, count, a.outgoing, i, a.phi[i][r], r);
  }

  /** A phi cell holds its number exactly if an earlier step met a clash there, and nothing otherwise. */
  lemma {:induction false} RunRecords(g: Graph, preds: seq<set<nat>>, flows: seq<Flow>, count: nat, run: seq<Tables>, k: nat, b: nat, r: nat)
    requires Flows(g, preds, flows) && IsRun(g, preds, flows, count, run) && k < |run| && b < |g| && r < |flows|
    ensures Table(run[k].phi, |g|, |flows|)
    ensures run[k].phi[b][r] == if Clashed(g, preds, run, k, b, r) then PhiVersion(count, |flows|, b, r) else -1
    decreases k
  {
    if k > 0 {
      RunRecords(g, preds, flows, count, run, k - 1, b, r);
      assert RunStep(g, preds, flows, count, run, k - 1);
      StepRecords(g, preds, flows, count, run[k - 1], run[k], Turn(|g|, k - 1), b, r);
      ClashedNext(g, preds, run, k - 1, b, r);
    }
  }

  /** A block where predecessors once clashed is not the entry, and has two different predecessors. */
  lemma ClashedNeedsTwo(g: Graph, preds: seq<set<nat>>, run: seq<Tables>, k: nat, b: nat, r: nat) returns (p: nat, q: nat)
    requires IsPredecessorTable(g, preds) && Clashed(g, preds, run, k, b, r)
    ensures b != 0 && p != q && Edge(g, p, b) && Edge(g, q, b)
  {
    var j: nat :| j < k && ClashAt(g, preds, run, j, b, r);
    p, q :| p in preds[b] && q in preds[b] && Differ(run[j].outgoing, p, q, r);
  }
}
