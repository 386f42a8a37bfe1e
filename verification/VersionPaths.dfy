/** What the propagated versions of one register mean along control-flow paths. */
module VersionPaths {
  import opened Graphs
  import opened VersionTheory

  /** The outgoing versions reproduce themselves. */
  ghost predicate Fixpoint(f: Flow, outs: seq<int>)
    requires f.Valid()
  {
    |outs| == |f.preds| && forall b {:trigger f.Merge(outs, b)} :: 0 <= b < |outs| ==>
      outs[b] == f.Through(b, f.Merge(outs, b))
  }

  /** A phi node takes effect where the predecessors' versions differ; the entry has none. */
  ghost predicate PhiActs(f: Flow, outs: seq<int>, b: nat)
    requires f.Valid() && b < |f.preds| == |outs|
  {
    b != 0 && !f.Agree(outs, b)
  }

  ghost predicate InFlow(f: Flow, p: seq<nat>) {
    |p| > 0 && |f.fixed| == |f.preds| && forall i :: 0 <= i < |p| ==> p[i] < |f.preds|
  }

  /** The version on arrival at the end of `p`: definitions and phi nodes replayed block by block from the entry. */
  ghost function ReplayIn(f: Flow, outs: seq<int>, p: seq<nat>): int
    requires f.Valid() && |outs| == |f.preds| && InFlow(f, p)
    decreases |p|, 0
  {
    if |p| == 1 then 0
    else if PhiActs(f, outs, p[|p| - 1]) then f.phi[p[|p| - 1]]
    else ReplayOut(f, outs, p[..|p| - 1])
  }

  ghost function ReplayOut(f: Flow, outs: seq<int>, p: seq<nat>): int
    requires f.Valid() && |outs| == |f.preds| && InFlow(f, p)
    decreases |p|, 1
  {
    f.Through(p[|p| - 1], ReplayIn(f, outs, p))
  }

  /** The version of the last definition on `p` before its final block, or 0 when there is none: phi nodes ignored. */
  ghost function LastWritten(f: Flow, p: seq<nat>): int
    requires InFlow(f, p)
    decreases |p|
  {
    if |p| == 1 then 0 else f.Through(p[|p| - 2], LastWritten(f, p[..|p| - 1]))
  }

  lemma InFlowInit(f: Flow, p: seq<nat>)
    requires InFlow(f, p) && |p| > 1
    ensures InFlow(f, p[..|p| - 1])
  {
    var q := p[..|p| - 1];
    forall i | 0 <= i < |q| ensures q[i] < |f.preds| {
      assert q[i] == p[i];
    }
    assert InFlow(f, q);
  }

  lemma PathInFlow(g: Graph, f: Flow, p: seq<nat>)
    requires f.Valid() && Linked(g, f) && Path(g, p)
    ensures InFlow(f, p)
  {
    forall i | 0 <= i < |p| ensures p[i] < |f.preds| {
      PathInBounds(g, p, i);
    }
  }

  /** The last step of a path, and the path without it. */
  lemma PathInit(g: Graph, f: Flow, p: seq<nat>)
    requires f.Valid() && Linked(g, f) && Path(g, p) && |p| > 1
    ensures InFlow(f, p) && Path(g, p[..|p| - 1]) && InFlow(f, p[..|p| - 1])
    ensures p[|p| - 2] in f.preds[p[|p| - 1]]
  {
    PathInFlow(g, f, p);
    PathPrefix(g, p, |p| - 2);
    PathInFlow(g, f, p[..|p| - 1]);
    assert StepAt(g, p, |p| - 2);
  }

  lemma OutIsComputed(f: Flow, outs: seq<int>, p: seq<nat>)
    requires f.Valid() && Fixpoint(f, outs) && InFlow(f, p) && ReplayIn(f, outs, p) == f.Merge(outs, p[|p| - 1])
    ensures ReplayOut(f, outs, p) == outs[p[|p| - 1]]
  {
  }

  /** One step: if the replay was right at the previous block, it is right at this one, provided that is not the entry. */
  lemma ReplayStep(g: Graph, f: Flow, outs: seq<int>, p: seq<nat>)
    requires f.Valid() && Linked(g, f) && Fixpoint(f, outs) && Path(g, p) && |p| > 1 && p[|p| - 1] != 0
    requires InFlow(f, p[..|p| - 1]) && InFlow(f, p)
    requires ReplayIn(f, outs, p[..|p| - 1]) == f.Merge(outs, p[|p| - 2])
    ensures ReplayIn(f, outs, p) == f.Merge(outs, p[|p| - 1])
  {
    PathInit(g, f, p);
    ReplayStepInFlow(f, outs, p);
  }

  lemma ReplayStepInFlow(f: Flow, outs: seq<int>, p: seq<nat>)
    requires f.Valid() && Fixpoint(f, outs) && |p| > 1 && InFlow(f, p) && InFlow(f, p[..|p| - 1]) && p[|p| - 1] != 0
    requires p[|p| - 2] in f.preds[p[|p| - 1]]
    requires ReplayIn(f, outs, p[..|p| - 1]) == f.Merge(outs, p[|p| - 2])
    ensures ReplayIn(f, outs, p) == f.Merge(outs, p[|p| - 1])
  {
    OutIsComputed(f, outs, p[..|p| - 1]);
    MergeOf(f, outs, p[|p| - 1], p[|p| - 2]);
  }

  /** Along every entry path that does not come back to the entry, the replay gives exactly the computed versions. */
  lemma {:induction false} ReplayIsComputed(g: Graph, f: Flow, outs: seq<int>, p: seq<nat>)
    requires f.Valid() && Linked(g, f) && Fixpoint(f, outs) && Path(g, p) && p[0] == 0 && 0 !in p[1..]
    ensures InFlow(f, p)
    ensures ReplayIn(f, outs, p) == f.Merge(outs, p[|p| - 1]) && ReplayOut(f, outs, p) == outs[p[|p| - 1]]
    decreases |p|
  {
    PathInFlow(g, f, p);
    if |p| > 1 {
      PathInit(g, f, p);
      var q := p[..|p| - 1];
      assert q[1..] == p[1..|p| - 1];
      ReplayIsComputed(g, f, outs, q);
      assert p[|p| - 1] in p[1..];
      ReplayStep(g, f, outs, p);
    }
  }

  /** No reachable block passes a version other than 0 back to the entry. */
  ghost predicate EntryUndisturbed(g: Graph, f: Flow, outs: seq<int>)
    requires f.Valid() && |outs| == |f.preds| && |outs| > 0
  {
    forall q :: q in f.preds[0] && Reaches(g, 0, q) ==> q < |outs| && outs[q] == 0
  }

  ghost predicate ReplayExact(g: Graph, f: Flow, outs: seq<int>)
    requires f.Valid() && |outs| == |f.preds|
  {
    forall p {:trigger ReplayIn(f, outs, p)} :: Path(g, p) && p[0] == 0 && InFlow(f, p) ==> ReplayIn(f, outs, p) == f.Merge(outs, p[|p| - 1])
  }

  lemma {:induction false} ReplayOnAnyPath(g: Graph, f: Flow, outs: seq<int>, p: seq<nat>)
    requires f.Valid() && Linked(g, f) && |outs| > 0 && Fixpoint(f, outs) && EntryUndisturbed(g, f, outs)
    requires Path(g, p) && p[0] == 0
    ensures InFlow(f, p) && ReplayIn(f, outs, p) == f.Merge(outs, p[|p| - 1])
    decreases |p|
  {
    PathInFlow(g, f, p);
    if |p| > 1 {
      PathInit(g, f, p);
      var q := p[..|p| - 1];
      ReplayOnAnyPath(g, f, outs, q);
      if p[|p| - 1] != 0 {
        ReplayStep(g, f, outs, p);
      } else {
        assert PathFromTo(g, q, 0, p[|p| - 2]);
        assert outs[p[|p| - 2]] == 0;
      }
    }
  }

  /** The versions are exact on all paths exactly when no reachable predecessor of the entry carries another version than 0. */
  lemma ReplayExactIffUndisturbed(g: Graph, f: Flow, outs: seq<int>)
    requires f.Valid() && Linked(g, f) && |outs| > 0 && Fixpoint(f, outs)
    ensures ReplayExact(g, f, outs) <==> EntryUndisturbed(g, f, outs)
  {
    if EntryUndisturbed(g, f, outs) {
      forall p | Path(g, p) && p[0] == 0 && InFlow(f, p) ensures ReplayIn(f, outs, p) == f.Merge(outs, p[|p| - 1]) {
        ReplayOnAnyPath(g, f, outs, p);
      }
    }
    if ReplayExact(g, f, outs) {
      forall q | q in f.preds[0] && Reaches(g, 0, q) ensures q < |outs| && outs[q] == 0 {
        DisturbancePath(g, f, outs, q);
      }
    }
  }

  lemma DisturbancePath(g: Graph, f: Flow, outs: seq<int>, q: nat)
    requires f.Valid() && Linked(g, f) && |outs| > 0 && Fixpoint(f, outs) && ReplayExact(g, f, outs)
    requires q in f.preds[0] && Reaches(g, 0, q)
    ensures q < |outs| && outs[q] == 0
  {
    var p :| PathFromTo(g, p, 0, q);
    PathSnoc(g, p, 0, q, 0);
    var r := p + [0];
    PathInFlow(g, f, p);
    PathInFlow(g, f, r);
    assert r[..|r| - 1] == p && r[|r| - 1] == 0;
    assert ReplayIn(f, outs, p) == f.Merge(outs, q);
    assert ReplayOut(f, outs, p) == outs[q];
    assert ReplayIn(f, outs, r) == ReplayOut(f, outs, p);
  }

  /** A version that is no phi names the last writer on every entry path. */
  lemma {:induction false} NonPhiIsLastWritten(g: Graph, f: Flow, outs: seq<int>, p: seq<nat>)
    requires f.Valid() && Linked(g, f) && Fixpoint(f, outs) && Path(g, p) && p[0] == 0 && 0 !in p[1..]
    requires InFlow(f, p) && forall x :: 0 <= x < |f.phi| ==> f.Merge(outs, p[|p| - 1]) != f.phi[x]
    ensures LastWritten(f, p) == f.Merge(outs, p[|p| - 1])
    decreases |p|
  {
    if |p| > 1 {
      PathInit(g, f, p);
      var q := p[..|p| - 1];
      assert q[1..] == p[1..|p| - 1];
      assert p[|p| - 1] in p[1..];
      MergeOf(f, outs, p[|p| - 1], p[|p| - 2]);
      assert outs[p[|p| - 2]] == f.Through(p[|p| - 2], f.Merge(outs, p[|p| - 2]));
      if f.fixed[p[|p| - 2]] < 0 {
        NonPhiIsLastWritten(g, f, outs, q);
      }
    }
  }

  /** Block number `i` of `p` defines the register, and no later one before the final block does. */
  ghost predicate LastDefiner(f: Flow, p: seq<nat>, i: nat)
    requires InFlow(f, p)
  {
    i < |p| - 1 && f.fixed[p[i]] >= 0 && forall j :: i < j < |p| - 1 ==> f.fixed[p[j]] < 0
  }

  /** The last written version is that of the last defining block. */
  lemma {:induction false} LastWrittenIsLastDefiner(f: Flow, p: seq<nat>, i: nat)
    requires InFlow(f, p) && LastDefiner(f, p, i)
    ensures LastWritten(f, p) == f.fixed[p[i]]
    decreases |p|
  {
    InFlowInit(f, p);
    if i < |p| - 2 {
      var q := p[..|p| - 1];
      assert LastDefiner(f, q, i) by {
        assert forall j :: i < j < |q| - 1 ==> q[j] == p[j];
      }
      LastWrittenIsLastDefiner(f, q, i);
    }
  }

  /** Without a defining block it is the version at the entry. */
  lemma {:induction false} NothingWritten(f: Flow, p: seq<nat>)
    requires InFlow(f, p) && forall i :: 0 <= i < |p| - 1 ==> f.fixed[p[i]] < 0
    ensures LastWritten(f, p) == 0
    decreases |p|
  {
    if |p| > 1 {
      InFlowInit(f, p);
      var q := p[..|p| - 1];
      assert forall j :: 0 <= j < |q| - 1 ==> q[j] == p[j];
      NothingWritten(f, q);
    }
  }

  // ---------- groups ----------

  /** An entry block of a group whose outside predecessor carries a foreign version holds its own phi. */
  lemma GroupEntryHoldsOwnPhi(f: Flow, outs: seq<int>, s: set<nat>, b: nat, p: nat)
    requires f.Valid() && Fixpoint(f, outs) && f.GroupsSealed(outs) && f.Group(s) && b in s
    requires p in f.preds[b] && !f.MadeIn(s, outs[p])
    ensures f.Merge(outs, b) == f.phi[b] && outs[b] == f.phi[b]
  {
    var q :| q in f.preds[b] * s;
    assert PinnedBy(f, outs, {p}, b, s, p, q);
    PinnedMerges(f, outs, {p}, b, s, p, q);
  }

  /** Every block control reaches carries a real version. */
  lemma ReachableHasVersion(g: Graph, f: Flow, outs: seq<int>, p: seq<nat>)
    requires f.Valid() && Linked(g, f) && Fixpoint(f, outs) && Path(g, p) && p[0] == 0 && 0 !in p[1..]
    ensures p[|p| - 1] < |outs| && f.Merge(outs, p[|p| - 1]) >= 0 && outs[p[|p| - 1]] >= 0
    decreases |p|
  {
    ReplayIsComputed(g, f, outs, p);
    ReplayNonNegative(f, outs, p);
  }

  lemma {:induction false} ReplayNonNegative(f: Flow, outs: seq<int>, p: seq<nat>)
    requires f.Valid() && |outs| == |f.preds| && InFlow(f, p)
    ensures ReplayIn(f, outs, p) >= 0
    decreases |p|
  {
    if |p| > 1 {
      InFlowInit(f, p);
      ReplayNonNegative(f, outs, p[..|p| - 1]);
    }
  }
}
