/** When the versions are exact even on paths that come back to the entry: a condition on the code alone. */
module VersionEntry {
  import opened Graphs
  import opened VersionTheory
  import opened VersionPaths
  import MustPass

  /** Some cycle that leaves out the entry passes through `x`. */
  ghost predicate OnCycle(g: Graph, x: nat) {
    exists p: nat :: Edge(g, p, x) && ReachesAvoiding(g, x, p, 0)
  }

  /** A block that passes on what its predecessors agree on: it defines nothing, something enters it, and no cycle feeds it. */
  ghost predicate PassesOn(g: Graph, f: Flow, x: nat)
    requires f.Valid() && |g| == |f.preds|
  {
    x < |g| && f.fixed[x] < 0 && f.preds[x] != {} && !OnCycle(g, x)
  }

  /** The entry's version 0 arrives at the end of `q`: neither the entry nor any block between it and `q` makes another. */
  ghost predicate Untouched(g: Graph, f: Flow, q: nat)
    requires f.Valid() && |g| == |f.preds| && |g| > 0
  {
    f.fixed[0] < 0 && forall x: nat {:trigger ReachesAvoiding(g, x, q, 0)} :: ReachesAvoiding(g, x, q, 0) ==> PassesOn(g, f, x)
  }

  // ---------- from the versions to the code ----------

  /** Version 0 is never made: a block other than the entry that holds it got it from all of its predecessors. */
  lemma ZeroComesFromBefore(f: Flow, outs: seq<int>, b: nat)
    requires f.Valid() && Fixpoint(f, outs) && 0 < b < |outs| && outs[b] == 0
    ensures f.fixed[b] < 0 && f.preds[b] != {}
    ensures forall p :: p in f.preds[b] ==> outs[p] == 0
  {
    assert outs[b] == f.Through(b, f.Merge(outs, b));
    forall p | p in f.preds[b] ensures outs[p] == 0 {
      MergeOf(f, outs, b, p);
    }
  }

  lemma AvoidingBounds(g: Graph, a: nat, b: nat)
    requires Wf(g) && ReachesAvoiding(g, a, b, 0)
    ensures 0 < a < |g| && 0 < b < |g|
  {
    var p :| PathFromTo(g, p, a, b) && 0 !in p;
    PathInBounds(g, p, |p| - 1);
  }

  lemma {:induction false} ZeroAlongPath(g: Graph, f: Flow, outs: seq<int>, p: seq<nat>)
    requires f.Valid() && Linked(g, f) && Fixpoint(f, outs) && Path(g, p) && 0 !in p
    requires p[|p| - 1] < |outs| && outs[p[|p| - 1]] == 0
    ensures p[0] < |outs| && outs[p[0]] == 0
    decreases |p|
  {
    if |p| > 1 {
      PathInit(g, f, p);
      ZeroComesFromBefore(f, outs, p[|p| - 1]);
      ZeroAlongPath(g, f, outs, p[..|p| - 1]);
    }
  }

  /** Every block from which a holder of 0 is reached, not passing the entry, holds 0. */
  lemma ZeroUpstream(g: Graph, f: Flow, outs: seq<int>, x: nat, q: nat)
    requires f.Valid() && Linked(g, f) && Fixpoint(f, outs) && q < |outs| && outs[q] == 0 && ReachesAvoiding(g, x, q, 0)
    ensures 0 < x < |outs| && outs[x] == 0 && f.fixed[x] < 0 && f.preds[x] != {}
  {
    AvoidingBounds(g, x, q);
    var p :| PathFromTo(g, p, x, q) && 0 !in p;
    ZeroAlongPath(g, f, outs, p);
    ZeroComesFromBefore(f, outs, x);
  }

  /** The blocks on cycles through `x` that leave out the entry. */
  ghost function CycleOf(g: Graph, x: nat): set<nat> {
    set y: nat | y < |g| && ReachesAvoiding(g, x, y, 0) && ReachesAvoiding(g, y, x, 0)
  }

  lemma AvoidingSelf(g: Graph, x: nat)
    requires 0 < x < |g|
    ensures ReachesAvoiding(g, x, x, 0)
  {
    assert PathFromTo(g, [x], x, x) && 0 !in [x];
  }

  lemma AvoidingTrans(g: Graph, a: nat, b: nat, c: nat)
    requires ReachesAvoiding(g, a, b, 0) && ReachesAvoiding(g, b, c, 0)
    ensures ReachesAvoiding(g, a, c, 0)
  {
    var p :| PathFromTo(g, p, a, b) && 0 !in p;
    var q :| PathFromTo(g, q, b, c) && 0 !in q;
    PathConcat(g, p, q, a, b, c);
    assert 0 !in p + q[1..];
  }

  lemma AvoidingEdge(g: Graph, a: nat, b: nat)
    requires Wf(g) && Edge(g, a, b) && a != 0 && b != 0
    ensures ReachesAvoiding(g, a, b, 0)
  {
    assert StepAt(g, [a, b], 0);
    assert PathFromTo(g, [a, b], a, b) && 0 !in [a, b];
  }

  /** A block on a cycle has a predecessor on it. */
  lemma CycleHasPredecessor(g: Graph, f: Flow, x: nat, y: nat)
    requires f.Valid() && Linked(g, f) && 0 < x < |g| && OnCycle(g, x) && y in CycleOf(g, x)
    ensures f.preds[y] * CycleOf(g, x) != {}
  {
    var z: nat;
    if y == x {
      z :| Edge(g, z, x) && ReachesAvoiding(g, x, z, 0);
      AvoidingBounds(g, x, z);
    } else {
      var p :| PathFromTo(g, p, x, y) && 0 !in p;
      assert StepAt(g, p, |p| - 2);
      z := p[|p| - 2];
      PathPrefix(g, p, |p| - 2);
      assert PathFromTo(g, p[..|p| - 1], x, z) && 0 !in p[..|p| - 1];
    }
    AvoidingBounds(g, x, z);
    AvoidingBounds(g, y, x);
    AvoidingEdge(g, z, y);
    AvoidingTrans(g, z, y, x);
    assert z in f.preds[y] * CycleOf(g, x);
  }

  /** A cycle of blocks that define nothing holds no version made outside it, so not 0. */
  lemma ZeroIsOnNoCycle(g: Graph, f: Flow, outs: seq<int>, x: nat)
    requires f.Valid() && Linked(g, f) && Fixpoint(f, outs) && f.GroupsSealed(outs) && 0 < x < |outs| && outs[x] == 0
    ensures !OnCycle(g, x)
  {
    if OnCycle(g, x) {
      var s := CycleOf(g, x);
      forall y | y in s ensures y < |f.preds| && !f.IsConst(y) && f.preds[y] * s != {} {
        ZeroUpstream(g, f, outs, y, x);
        CycleHasPredecessor(g, f, x, y);
      }
      assert f.Group(s);
      AvoidingSelf(g, x);
      SealedHoldsNoZero(f, outs, s, x);
    }
  }

  lemma SealedHoldsNoZero(f: Flow, outs: seq<int>, s: set<nat>, x: nat)
    requires f.Valid() && |outs| == |f.preds| && f.GroupsSealed(outs) && f.Group(s) && x in s
    ensures x < |outs| && outs[x] != 0
  {
    assert f.MadeIn(s, outs[x]);
  }

  /** The entry itself passes 0 on if a reachable block holds it. */
  lemma ZeroFromEntry(g: Graph, f: Flow, outs: seq<int>, q: nat)
    requires f.Valid() && Linked(g, f) && Fixpoint(f, outs) && |outs| > 0 && q < |outs| && outs[q] == 0 && Reaches(g, 0, q)
    ensures f.fixed[0] < 0
  {
    var p :| PathFromTo(g, p, 0, q);
    assert f.Merge(outs, 0) == 0;
    ZeroBackToEntry(g, f, outs, p);
  }

  lemma {:induction false} ZeroBackToEntry(g: Graph, f: Flow, outs: seq<int>, p: seq<nat>)
    requires f.Valid() && Linked(g, f) && Fixpoint(f, outs) && |outs| > 0 && Path(g, p) && p[0] == 0
    requires p[|p| - 1] < |outs| && outs[p[|p| - 1]] == 0
    ensures outs[0] == 0
    decreases |p|
  {
    if p[|p| - 1] != 0 {
      PathInit(g, f, p);
      ZeroComesFromBefore(f, outs, p[|p| - 1]);
      ZeroBackToEntry(g, f, outs, p[..|p| - 1]);
    }
  }

  lemma ZeroIsUntouched(g: Graph, f: Flow, outs: seq<int>, q: nat)
    requires f.Valid() && Linked(g, f) && Fixpoint(f, outs) && f.GroupsSealed(outs) && |outs| > 0
    requires q < |outs| && outs[q] == 0 && Reaches(g, 0, q)
    ensures Untouched(g, f, q)
  {
    ZeroFromEntry(g, f, outs, q);
    forall x: nat | ReachesAvoiding(g, x, q, 0) ensures PassesOn(g, f, x) {
      ZeroUpstream(g, f, outs, x, q);
      ZeroIsOnNoCycle(g, f, outs, x);
    }
  }

  // ---------- from the code to the versions ----------

  /** The blocks from which `x` is reached without passing the entry. */
  ghost function Upstream(g: Graph, x: nat): set<nat> {
    set y: nat | y < |g| && ReachesAvoiding(g, y, x, 0)
  }

  lemma UpstreamShrinks(g: Graph, f: Flow, x: nat, p: nat)
    requires f.Valid() && Linked(g, f) && 0 < x < |g| && p in f.preds[x] && p != 0 && !OnCycle(g, x)
    ensures |Upstream(g, p)| < |Upstream(g, x)|
    ensures forall y: nat :: ReachesAvoiding(g, y, p, 0) ==> ReachesAvoiding(g, y, x, 0)
  {
    AvoidingEdge(g, p, x);
    forall y: nat | ReachesAvoiding(g, y, p, 0) ensures ReachesAvoiding(g, y, x, 0) {
      AvoidingTrans(g, y, p, x);
    }
    AvoidingSelf(g, x);
    assert x in Upstream(g, x) && x !in Upstream(g, p);
    MustPass.SubsetSize(Upstream(g, p), Upstream(g, x));
  }

  lemma {:induction false} UntouchedIsZero(g: Graph, f: Flow, outs: seq<int>, q: nat)
    requires f.Valid() && Linked(g, f) && Fixpoint(f, outs) && q < |outs| && Untouched(g, f, q)
    ensures outs[q] == 0
    decreases |Upstream(g, q)|
  {
    assert outs[q] == f.Through(q, f.Merge(outs, q));
    assert outs[0] == f.Through(0, f.Merge(outs, 0));
    if q != 0 {
      AvoidingSelf(g, q);
      assert PassesOn(g, f, q);
      forall p | p in f.preds[q] ensures p < |outs| && outs[p] == 0 {
        if p != 0 {
          UpstreamShrinks(g, f, q, p);
          UntouchedIsZero(g, f, outs, p);
        }
      }
      var p :| p in f.preds[q];
      MergeOf(f, outs, q, p);
    }
  }

  // ---------- the exact condition ----------

  /** Whatever comes back to the entry has been left untouched since the entry. */
  ghost predicate ComesBackUntouched(g: Graph, f: Flow)
    requires f.Valid() && |g| == |f.preds| && |g| > 0
  {
    forall q :: q in f.preds[0] && Reaches(g, 0, q) ==> Untouched(g, f, q)
  }

  /**
   The replay gives the computed versions on all entry paths exactly when the blocks between the entry and its reachable
   predecessors, the entry included, define nothing, are all entered from somewhere and form no cycle of their own.
   */
  lemma ReplayExactIff(g: Graph, f: Flow, outs: seq<int>)
    requires f.Valid() && Linked(g, f) && |outs| > 0 && Fixpoint(f, outs) && f.GroupsSealed(outs)
    ensures ReplayExact(g, f, outs) <==> ComesBackUntouched(g, f)
  {
    ReplayExactIffUndisturbed(g, f, outs);
    forall q | q in f.preds[0] && Reaches(g, 0, q) ensures Untouched(g, f, q) <==> q < |outs| && outs[q] == 0 {
      ReachesBounds(g, 0, q);
      if outs[q] == 0 {
        ZeroIsUntouched(g, f, outs, q);
      }
      if Untouched(g, f, q) {
        UntouchedIsZero(g, f, outs, q);
      }
    }
  }

  /** The smallest failing case: one block that defines the register and jumps back to itself. */
  lemma EntryLoopIsInexact() returns (g: Graph, f: Flow, outs: seq<int>)
    ensures f.Valid() && Linked(g, f) && |outs| > 0 && Fixpoint(f, outs) && f.GroupsSealed(outs)
    ensures !ReplayExact(g, f, outs) && !ComesBackUntouched(g, f)
  {
    g, f, outs := [[0]], Flow([{0}], [1], [2]), [1];
    EdgeReaches(g, 0, 0);
    assert 0 in f.preds[0] && !Untouched(g, f, 0);
    ReplayExactIff(g, f, outs);
  }
}
