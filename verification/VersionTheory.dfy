/**
 Version propagation for one register. Every block has a merged incoming version and an outgoing one; `fixed[b]` is the
 version of the last definition in block `b`, or -1 when the block passes its incoming version on.
 */
module VersionTheory {
  import opened Graphs

  /** The flow of one register: predecessors, definitions, and the phi version reserved for each block. */
  datatype Flow = Flow(preds: seq<set<nat>>, fixed: seq<int>, phi: seq<int>)
  {
    ghost predicate Valid() {
      && |preds| == |fixed| == |phi|
      && (forall b, p :: 0 <= b < |preds| && p in preds[b] ==> p < |preds|)
      && (forall b :: 0 <= b < |fixed| ==> fixed[b] == -1 || fixed[b] > 0)
      && (forall b :: 0 <= b < |phi| ==> phi[b] > 0)
      && (forall b, c :: 0 <= b < |phi| && 0 <= c < |phi| && phi[b] == phi[c] ==> b == c)
      && (forall b, c :: 0 <= b < |phi| && 0 <= c < |fixed| ==> phi[b] != fixed[c])
    }

    predicate IsConst(b: nat)
      requires b < |fixed|
    {
      b == 0 || fixed[b] >= 0
    }

    function Through(b: nat, incoming: int): int
      requires b < |fixed|
    {
      if fixed[b] >= 0 then fixed[b] else incoming
    }

    /** All predecessors carry the same version. */
    ghost predicate Agree(outs: seq<int>, b: nat)
      requires Valid() && b < |preds| == |outs|
    {
      forall p, q :: p in preds[b] && q in preds[b] ==> outs[p] == outs[q]
    }

    /** The incoming version: 0 at the entry, the common version of the predecessors, or the block's own phi. */
    ghost function Merge(outs: seq<int>, b: nat): (v: int)
      requires Valid() && b < |preds| == |outs|
    {
      if b == 0 then 0
      else if preds[b] == {} then -1
      else if Agree(outs, b) then var p :| p in preds[b]; outs[p]
      else phi[b]
    }

    ghost function Update(outs: seq<int>, b: nat): seq<int>
      requires Valid() && b < |preds| == |outs|
    {
      outs[b := Through(b, Merge(outs, b))]
    }

    /** Blocks that pass their version on, each fed by some member. */
    ghost predicate Group(s: set<nat>)
      requires Valid()
    {
      forall b :: b in s ==> b < |preds| && !IsConst(b) && preds[b] * s != {}
    }

    /** `v` is -1 or the phi version of a member of `s`. */
    ghost predicate MadeIn(s: set<nat>, v: int) {
      v == -1 || exists x :: x in s && x < |phi| && v == phi[x]
    }

    /** No group ever holds a version made outside it. */
    ghost predicate GroupsSealed(outs: seq<int>)
      requires Valid() && |outs| == |preds|
    {
      forall s, b {:trigger MadeIn(s, outs[b])} :: Group(s) && b in s ==> MadeIn(s, outs[b])
    }
  }

  lemma MergeOf(f: Flow, outs: seq<int>, b: nat, p: nat)
    requires f.Valid() && |outs| == |f.preds| && 0 < b < |f.preds| && p in f.preds[b]
    ensures f.Merge(outs, b) == if f.Agree(outs, b) then outs[p] else f.phi[b]
  {
  }

  lemma UpdateKeepsSealed(f: Flow, outs: seq<int>, c: nat)
    requires f.Valid() && |outs| == |f.preds| && c < |f.preds| && f.GroupsSealed(outs)
    ensures f.GroupsSealed(f.Update(outs, c))
  {
    var outs' := f.Update(outs, c);
    forall s, b | f.Group(s) && b in s ensures f.MadeIn(s, outs'[b]) {
      if b == c {
        var q :| q in f.preds[b] * s;
        assert f.MadeIn(s, outs[q]);
        MergeOf(f, outs, b, q);
        assert f.MadeIn(s, f.phi[b]);
      } else {
        assert f.MadeIn(s, outs[b]);
      }
    }
  }

  // ---------- a version is never lost ----------

  /** Every block that holds a version would get one again. */
  ghost predicate Supported(f: Flow, outs: seq<int>)
    requires f.Valid() && |outs| == |f.preds|
  {
    forall b {:trigger outs[b]} :: 0 <= b < |outs| && outs[b] != -1 ==> f.Through(b, f.Merge(outs, b)) != -1
  }

  /** Blocks that hold a version in `before` hold one in `after`. */
  ghost predicate Keeps(before: seq<int>, after: seq<int>) {
    |before| == |after| && forall b {:trigger after[b]} {:trigger before[b]} :: 0 <= b < |before| && before[b] != -1 ==> after[b] != -1
  }

  /** Merging yields a version exactly at the entry and behind a predecessor that holds one. */
  lemma MergeHasVersionIff(f: Flow, outs: seq<int>, b: nat)
    requires f.Valid() && b < |f.preds| == |outs|
    ensures f.Merge(outs, b) != -1 <==> b == 0 || exists p :: p in f.preds[b] && outs[p] != -1
  {
    if b != 0 && f.preds[b] != {} {
      var p :| p in f.preds[b];
      MergeOf(f, outs, b, p);
    }
  }

  lemma MergeKeeps(f: Flow, outs: seq<int>, outs': seq<int>, b: nat)
    requires f.Valid() && b < |f.preds| == |outs| && Keeps(outs, outs') && f.Merge(outs, b) != -1
    ensures f.Merge(outs', b) != -1
  {
    MergeHasVersionIff(f, outs, b);
    MergeHasVersionIff(f, outs', b);
  }

  /** No update takes a version away, so none ever returns to -1. */
  lemma UpdateKeepsVersions(f: Flow, outs: seq<int>, c: nat)
    requires f.Valid() && c < |f.preds| == |outs| && Supported(f, outs)
    ensures Keeps(outs, f.Update(outs, c)) && Supported(f, f.Update(outs, c))
  {
    var outs' := f.Update(outs, c);
    forall b | 0 <= b < |outs'| && outs'[b] != -1 ensures f.Through(b, f.Merge(outs', b)) != -1 {
      if f.fixed[b] < 0 {
        assert f.Merge(outs, b) != -1;
        MergeKeeps(f, outs, outs', b);
      }
    }
  }

  /** The merged versions too would be there again. */
  ghost predicate BothSupported(f: Flow, ins: seq<int>, outs: seq<int>)
    requires f.Valid() && |ins| == |outs| == |f.preds|
  {
    Supported(f, outs) && forall b {:trigger ins[b]} :: 0 <= b < |ins| && ins[b] != -1 ==> f.Merge(outs, b) != -1
  }

  lemma BlockKeepsVersions(f: Flow, ins: seq<int>, outs: seq<int>, c: nat)
    requires f.Valid() && c < |f.preds| == |outs| == |ins| && BothSupported(f, ins, outs)
    ensures var ins' := ins[c := f.Merge(outs, c)];
      Keeps(ins, ins') && Keeps(outs, f.Update(outs, c)) && BothSupported(f, ins', f.Update(outs, c))
  {
    var ins', outs' := ins[c := f.Merge(outs, c)], f.Update(outs, c);
    UpdateKeepsVersions(f, outs, c);
    forall b | 0 <= b < |ins'| && ins'[b] != -1 ensures f.Merge(outs', b) != -1 {
      assert b != c ==> ins'[b] == ins[b];
      MergeKeeps(f, outs, outs', b);
    }
  }

  // ---------- settled blocks ----------

  /** The live blocks: those a constant version can flow to. */
  ghost predicate IsLive(g: Graph, f: Flow, live: set<nat>)
    requires f.Valid()
  {
    forall b: nat :: b in live <==> exists a: nat :: a < |f.preds| && f.IsConst(a) && Reaches(g, a, b)
  }

  /** One predecessor is settled on a version that a second one, inside a group, can never hold. */
  ghost predicate Pinned(f: Flow, outs: seq<int>, settled: set<nat>, b: nat)
    requires f.Valid() && |outs| == |f.preds| && b < |outs|
  {
    exists s: set<nat>, p: nat, q: nat :: PinnedBy(f, outs, settled, b, s, p, q)
  }

  ghost predicate PinnedBy(f: Flow, outs: seq<int>, settled: set<nat>, b: nat, s: set<nat>, p: nat, q: nat)
    requires f.Valid() && |outs| == |f.preds| && b < |outs|
  {
    f.Group(s) && p in settled && p in f.preds[b] && q in s && q in f.preds[b] && !f.MadeIn(s, outs[p])
  }

  /** The outgoing version of `b` can no longer change. */
  ghost predicate Stable(f: Flow, outs: seq<int>, settled: set<nat>, b: nat)
    requires f.Valid() && |outs| == |f.preds| && b < |outs|
  {
    if f.IsConst(b) then outs[b] == f.Through(b, 0)
    else || (f.preds[b] <= settled && outs[b] == f.Merge(outs, b))
         || (outs[b] == f.phi[b] && Pinned(f, outs, settled, b))
  }

  /** Outside the settled blocks nothing has made a settled version, and live settled blocks hold one. */
  ghost predicate CleanAt(f: Flow, outs: seq<int>, settled: set<nat>, live: set<nat>, b: nat)
    requires |outs| == |f.phi| && b < |outs|
  {
    && (forall x :: 0 <= x < |f.phi| && x !in settled ==> outs[b] != f.phi[x])
    && (b in live ==> outs[b] != -1)
  }

  ghost predicate Settled(f: Flow, outs: seq<int>, settled: set<nat>, live: set<nat>)
    requires f.Valid() && |outs| == |f.preds|
  {
    && f.GroupsSealed(outs)
    && (forall b :: b in settled ==> b < |outs|)
    && (forall b {:trigger Stable(f, outs, settled, b)} {:trigger CleanAt(f, outs, settled, live, b)} :: b in settled ==>
          Stable(f, outs, settled, b) && CleanAt(f, outs, settled, live, b))
    && (forall b {:trigger b in live} :: 0 <= b < |outs| && b !in settled ==> b in live)
  }

  /** Recomputing a stable block reproduces it. */
  lemma StableStays(f: Flow, outs: seq<int>, settled: set<nat>, b: nat)
    requires f.Valid() && |outs| == |f.preds| && b < |outs| && f.GroupsSealed(outs) && Stable(f, outs, settled, b)
    ensures f.Update(outs, b) == outs
  {
    if !f.IsConst(b) && outs[b] == f.phi[b] && Pinned(f, outs, settled, b) {
      var s: set<nat>, p: nat, q: nat :| PinnedBy(f, outs, settled, b, s, p, q);
      assert f.MadeIn(s, outs[q]);
      assert outs[p] != outs[q];
    }
  }

  /** Stability of `b` only depends on settled blocks. */
  lemma StableFrame(f: Flow, outs: seq<int>, outs': seq<int>, settled: set<nat>, b: nat)
    requires f.Valid() && |outs| == |outs'| == |f.preds| && b < |outs| && Stable(f, outs, settled, b)
    requires outs'[b] == outs[b] && forall x :: x in settled && x < |outs| ==> outs'[x] == outs[x]
    ensures Stable(f, outs', settled, b)
  {
    if f.IsConst(b) {
    } else if f.preds[b] <= settled && outs[b] == f.Merge(outs, b) {
      assert f.Agree(outs, b) <==> f.Agree(outs', b);
      if p :| p in f.preds[b] {
        MergeOf(f, outs, b, p);
        MergeOf(f, outs', b, p);
      }
    } else {
      var s: set<nat>, p: nat, q: nat :| PinnedBy(f, outs, settled, b, s, p, q);
      assert PinnedBy(f, outs', settled, b, s, p, q);
    }
  }

  lemma UpdateKeepsSettled(f: Flow, outs: seq<int>, settled: set<nat>, live: set<nat>, c: nat)
    requires f.Valid() && |outs| == |f.preds| && c < |outs| && Settled(f, outs, settled, live)
    ensures Settled(f, f.Update(outs, c), settled, live)
    ensures forall b :: b in settled ==> b < |outs| && f.Update(outs, c)[b] == outs[b]
  {
    var outs' := f.Update(outs, c);
    UpdateKeepsSealed(f, outs, c);
    if c in settled {
      StableStays(f, outs, settled, c);
    }
    forall b | b in settled ensures b < |outs| && Stable(f, outs', settled, b) && CleanAt(f, outs', settled, live, b) {
      assert Stable(f, outs, settled, b) && CleanAt(f, outs, settled, live, b);
      StableFrame(f, outs, outs', settled, b);
    }
  }

  // ---------- progress ----------

  /** Blocks whose version is determined by settled predecessors alone. */
  ghost function Ready(f: Flow, settled: set<nat>): set<nat>
    requires f.Valid()
  {
    set b: nat | b < |f.preds| && b !in settled && (f.IsConst(b) || f.preds[b] <= settled)
  }

  /** Unsettled blocks with a live settled predecessor. */
  ghost function Entries(f: Flow, settled: set<nat>, live: set<nat>): set<nat>
    requires f.Valid()
  {
    set b: nat | b < |f.preds| && b !in settled && f.preds[b] * settled * live != {}
  }

  /** The blocks one more sweep settles. */
  ghost function Due(f: Flow, settled: set<nat>, live: set<nat>): set<nat>
    requires f.Valid()
  {
    if Ready(f, settled) != {} then Ready(f, settled) else Entries(f, settled, live)
  }

  ghost function Unsettled(f: Flow, settled: set<nat>): set<nat>
    requires f.Valid()
  {
    set b: nat | b < |f.preds| && b !in settled
  }

  ghost predicate Linked(g: Graph, f: Flow)
    requires f.Valid()
  {
    Wf(g) && IsPredecessorTable(g, f.preds)
  }

  /** As long as some block is unsettled, the next sweep settles another one. */
  lemma SomethingIsDue(g: Graph, f: Flow, settled: set<nat>, live: set<nat>)
    requires f.Valid() && Linked(g, f) && IsLive(g, f, live)
    requires Unsettled(f, settled) != {} && Unsettled(f, settled) <= live
    ensures Due(f, settled, live) != {}
  {
    if Ready(f, settled) == {} && Entries(f, settled, live) == {} {
      var b :| b in Unsettled(f, settled);
      var a: nat :| a < |f.preds| && f.IsConst(a) && Reaches(g, a, b);
      assert a !in Ready(f, settled);
      ReachesSelf(g, a);
      var inner := settled * live;
      forall x: nat, y: nat | x in inner && Edge(g, x, y) ensures y in inner {
        StaysInside(g, f, settled, live, x, y);
      }
      ClosedReaches(g, inner, a, b);
    }
  }

  lemma StaysInside(g: Graph, f: Flow, settled: set<nat>, live: set<nat>, x: nat, y: nat)
    requires f.Valid() && Linked(g, f) && IsLive(g, f, live)
    requires Entries(f, settled, live) == {} && x in settled * live && Edge(g, x, y)
    ensures y in settled * live
  {
    var a: nat :| a < |f.preds| && f.IsConst(a) && Reaches(g, a, x);
    ReachesEdge(g, a, x, y);
    EdgeReaches(g, x, y);
    ReachesBounds(g, x, y);
    assert x in f.preds[y] * settled * live;
    assert y !in Entries(f, settled, live);
  }

  /** When no block is ready, the unsettled blocks form a group. */
  lemma UnsettledIsGroup(f: Flow, settled: set<nat>)
    requires f.Valid() && Ready(f, settled) == {}
    ensures f.Group(Unsettled(f, settled))
  {
    var u := Unsettled(f, settled);
    forall b | b in u ensures !f.IsConst(b) && f.preds[b] * u != {} {
      assert b !in Ready(f, settled);
      var p :| p in f.preds[b] && p !in settled;
      assert p in f.preds[b] * u;
    }
  }

  /** Recomputing a due block gives it its final version. */
  lemma DueBecomesStable(g: Graph, f: Flow, outs: seq<int>, settled: set<nat>, live: set<nat>, b: nat)
    requires f.Valid() && |outs| == |f.preds| && Settled(f, outs, settled, live) && Linked(g, f) && IsLive(g, f, live)
    requires b in Due(f, settled, live)
    ensures Stable(f, f.Update(outs, b), settled, b)
    ensures CleanAt(f, f.Update(outs, b), settled + {b}, live, b)
  {
    if b in Ready(f, settled) {
      ReadyBecomesStable(g, f, outs, settled, live, b);
    } else {
      EntryBecomesStable(f, outs, settled, live, b);
    }
  }

  lemma ReadyBecomesStable(g: Graph, f: Flow, outs: seq<int>, settled: set<nat>, live: set<nat>, b: nat)
    requires f.Valid() && |outs| == |f.preds| && Settled(f, outs, settled, live) && Linked(g, f) && IsLive(g, f, live)
    requires b in Ready(f, settled)
    ensures Stable(f, f.Update(outs, b), settled, b)
    ensures CleanAt(f, f.Update(outs, b), settled + {b}, live, b)
  {
    var outs' := f.Update(outs, b);
    if !f.IsConst(b) {
      MergeUnchanged(f, outs, b);
      assert b in live;
      HasLivePredecessor(g, f, live, b);
      var p :| p in f.preds[b] * live;
      MergeOf(f, outs, b, p);
      assert CleanAt(f, outs, settled, live, p);
      assert Stable(f, outs, settled, p);
    }
  }

  lemma MergeUnchanged(f: Flow, outs: seq<int>, b: nat)
    requires f.Valid() && |outs| == |f.preds| && b < |outs| && !f.IsConst(b) && b !in f.preds[b]
    ensures f.Merge(f.Update(outs, b), b) == f.Merge(outs, b)
  {
    var outs' := f.Update(outs, b);
    assert f.Agree(outs, b) <==> f.Agree(outs', b);
    if p :| p in f.preds[b] {
      MergeOf(f, outs, b, p);
      MergeOf(f, outs', b, p);
    }
  }

  lemma HasLivePredecessor(g: Graph, f: Flow, live: set<nat>, b: nat)
    requires f.Valid() && Linked(g, f) && IsLive(g, f, live) && b in live && b < |f.preds| && !f.IsConst(b)
    ensures f.preds[b] * live != {}
  {
    var a: nat :| a < |f.preds| && f.IsConst(a) && Reaches(g, a, b);
    var path :| PathFromTo(g, path, a, b);
    assert |path| > 1;
    var k := |path| - 2;
    assert StepAt(g, path, k);
    PathPrefix(g, path, k);
    assert Reaches(g, a, path[k]);
    assert path[k] in f.preds[b] * live;
  }

  /** A live settled version is none an unsettled group can make. */
  lemma SettledIsForeign(f: Flow, outs: seq<int>, settled: set<nat>, live: set<nat>, p: nat)
    requires f.Valid() && |outs| == |f.preds| && Settled(f, outs, settled, live) && p in settled * live
    ensures p < |outs| && !f.MadeIn(Unsettled(f, settled), outs[p])
  {
    assert Stable(f, outs, settled, p) && CleanAt(f, outs, settled, live, p);
  }

  lemma PinnedMerges(f: Flow, outs: seq<int>, settled: set<nat>, b: nat, s: set<nat>, p: nat, q: nat)
    requires f.Valid() && |outs| == |f.preds| && 0 < b < |outs| && f.GroupsSealed(outs) && PinnedBy(f, outs, settled, b, s, p, q)
    ensures f.Merge(outs, b) == f.phi[b]
  {
    assert f.MadeIn(s, outs[q]);
    MergeOf(f, outs, b, p);
    assert outs[p] != outs[q];
  }

  lemma PinnedIsStable(f: Flow, outs: seq<int>, settled: set<nat>, live: set<nat>, b: nat, s: set<nat>, p: nat, q: nat)
    requires f.Valid() && |outs| == |f.preds| && b < |outs| && !f.IsConst(b) && b !in settled && f.GroupsSealed(outs)
    requires PinnedBy(f, outs, settled, b, s, p, q)
    ensures Stable(f, f.Update(outs, b), settled, b)
    ensures CleanAt(f, f.Update(outs, b), settled + {b}, live, b)
  {
    PinnedMerges(f, outs, settled, b, s, p, q);
    assert PinnedBy(f, f.Update(outs, b), settled, b, s, p, q);
  }

  lemma EntryBecomesStable(f: Flow, outs: seq<int>, settled: set<nat>, live: set<nat>, b: nat)
    requires f.Valid() && |outs| == |f.preds| && Settled(f, outs, settled, live)
    requires Ready(f, settled) == {} && b in Entries(f, settled, live)
    ensures Stable(f, f.Update(outs, b), settled, b)
    ensures CleanAt(f, f.Update(outs, b), settled + {b}, live, b)
  {
    var u := Unsettled(f, settled);
    UnsettledIsGroup(f, settled);
    assert b in u && !f.IsConst(b) && f.preds[b] * u != {};
    var p :| p in f.preds[b] * settled * live;
    var q :| q in f.preds[b] * u;
    SettledIsForeign(f, outs, settled, live, p);
    assert PinnedBy(f, outs, settled, b, u, p, q);
    PinnedIsStable(f, outs, settled, live, b, u, p, q);
  }

  // ---------- a sweep over all blocks ----------

  /** Midway through a sweep: the due blocks below `i` have their final versions. */
  ghost predicate Sweeping(f: Flow, outs: seq<int>, settled: set<nat>, due: set<nat>, live: set<nat>, i: nat)
    requires f.Valid() && |outs| == |f.preds|
  {
    && Settled(f, outs, settled, live)
    && (forall b :: b in due ==> b < |outs|)
    && (forall b {:trigger Stable(f, outs, settled, b)} {:trigger CleanAt(f, outs, settled + due, live, b)} ::
          b in due && b < i ==> Stable(f, outs, settled, b) && CleanAt(f, outs, settled + due, live, b))
  }

  lemma SweepBegins(f: Flow, outs: seq<int>, settled: set<nat>, live: set<nat>)
    requires f.Valid() && |outs| == |f.preds| && Settled(f, outs, settled, live)
    ensures Sweeping(f, outs, settled, Due(f, settled, live), live, 0)
  {
  }

  lemma SweepStep(g: Graph, f: Flow, outs: seq<int>, settled: set<nat>, live: set<nat>, i: nat)
    requires f.Valid() && |outs| == |f.preds| && i < |outs| && Linked(g, f) && IsLive(g, f, live)
    requires Sweeping(f, outs, settled, Due(f, settled, live), live, i)
    ensures Sweeping(f, f.Update(outs, i), settled, Due(f, settled, live), live, i + 1)
  {
    var due, outs' := Due(f, settled, live), f.Update(outs, i);
    UpdateKeepsSettled(f, outs, settled, live, i);
    forall b | b in due && b < i + 1 ensures Stable(f, outs', settled, b) && CleanAt(f, outs', settled + due, live, b) {
      if b < i {
        assert Stable(f, outs, settled, b) && CleanAt(f, outs, settled + due, live, b);
        StableFrame(f, outs, outs', settled, b);
      } else {
        DueBecomesStable(g, f, outs, settled, live, b);
        assert CleanAt(f, outs', settled + {b}, live, b);
      }
    }
  }

  lemma StableMonotone(f: Flow, outs: seq<int>, settled: set<nat>, more: set<nat>, b: nat)
    requires f.Valid() && |outs| == |f.preds| && b < |outs| && Stable(f, outs, settled, b) && settled <= more
    ensures Stable(f, outs, more, b)
  {
    if !f.IsConst(b) && !(f.preds[b] <= settled && outs[b] == f.Merge(outs, b)) {
      var s: set<nat>, p: nat, q: nat :| PinnedBy(f, outs, settled, b, s, p, q);
      assert PinnedBy(f, outs, more, b, s, p, q);
    }
  }

  lemma SweepEnds(f: Flow, outs: seq<int>, settled: set<nat>, due: set<nat>, live: set<nat>)
    requires f.Valid() && |outs| == |f.preds| && Sweeping(f, outs, settled, due, live, |outs|)
    ensures Settled(f, outs, settled + due, live)
  {
    forall b | b in settled + due ensures Stable(f, outs, settled + due, b) && CleanAt(f, outs, settled + due, live, b) {
      if b in settled {
        assert Stable(f, outs, settled, b) && CleanAt(f, outs, settled, live, b);
      } else {
        assert Stable(f, outs, settled, b) && CleanAt(f, outs, settled + due, live, b);
      }
      StableMonotone(f, outs, settled, settled + due, b);
    }
  }

  /** At the start nothing has a version, and exactly the blocks no version can flow to are settled. */
  lemma StartIsSettled(g: Graph, f: Flow, outs: seq<int>, live: set<nat>)
    requires f.Valid() && |outs| == |f.preds| && Linked(g, f) && IsLive(g, f, live)
    requires forall b :: 0 <= b < |outs| ==> outs[b] == -1
    ensures Settled(f, outs, (set b: nat | b < |outs| && b !in live), live)
  {
    var dead := set b: nat | b < |outs| && b !in live;
    forall b | b in dead ensures Stable(f, outs, dead, b) && CleanAt(f, outs, dead, live, b) {
      DeadBlock(g, f, live, b);
      if p :| p in f.preds[b] {
        MergeOf(f, outs, b, p);
      }
    }
  }

  lemma DeadBlock(g: Graph, f: Flow, live: set<nat>, b: nat)
    requires f.Valid() && Linked(g, f) && IsLive(g, f, live) && b < |f.preds| && b !in live
    ensures !f.IsConst(b) && f.preds[b] !! live
  {
    ReachesSelf(g, b);
    forall p | p in f.preds[b] ensures p !in live {
      if p in live {
        var a: nat :| a < |f.preds| && f.IsConst(a) && Reaches(g, a, p);
        ReachesEdge(g, a, p, b);
      }
    }
  }

  /** Once everything is settled no update changes anything. */
  lemma AllSettledStays(f: Flow, outs: seq<int>, settled: set<nat>, live: set<nat>, b: nat)
    requires f.Valid() && |outs| == |f.preds| && Settled(f, outs, settled, live) && Unsettled(f, settled) == {} && b < |outs|
    ensures f.Update(outs, b) == outs
  {
    assert b !in Unsettled(f, settled);
    UpdateKeepsSettled(f, outs, settled, live, b);
  }

  lemma UnsettledShrinks(g: Graph, f: Flow, settled: set<nat>, live: set<nat>)
    requires f.Valid() && Linked(g, f) && IsLive(g, f, live) && Unsettled(f, settled) <= live
    ensures Unsettled(f, settled + Due(f, settled, live)) <= Unsettled(f, settled)
    ensures Unsettled(f, settled) != {} ==> Unsettled(f, settled + Due(f, settled, live)) != Unsettled(f, settled)
  {
    if Unsettled(f, settled) != {} {
      SomethingIsDue(g, f, settled, live);
      var b :| b in Due(f, settled, live);
      assert b in Unsettled(f, settled);
      assert b !in Unsettled(f, settled + Due(f, settled, live));
    }
  }
}
