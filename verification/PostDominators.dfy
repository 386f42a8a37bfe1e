/** Post-dominators: the same theory, walking forward to the blocks without successors. */
module PostDominators {
  import opened Graphs
  import MustPass

  /** `d` lies on every path from `x` to a block without successors. */
  ghost predicate PostDominates(g: Graph, d: nat, x: nat) {
    forall p, e: nat :: PathFromTo(g, p, x, e) && e < |g| && g[e] == [] ==> d in p
  }

  /**
   For every reachable block: the reachable blocks on all its paths to an exit. A block that reaches no exit keeps all of
   them, and unreachable blocks keep nothing.
   */
  ghost predicate IsPostDominatorTable(g: Graph, r: set<nat>, pdom: seq<set<nat>>) {
    && |pdom| == |g|
    && forall x: nat, d: nat :: x < |g| ==> (d in pdom[x] <==> x in r && d in r && PostDominates(g, d, x))
  }

  function Forward(g: Graph): seq<set<nat>> {
    seq(|g|, b requires 0 <= b < |g| => set s | s in g[b])
  }

  function Exits(g: Graph, r: set<nat>): set<nat> {
    set b | b in r && b < |g| && g[b] == []
  }

  lemma PathIsWalk(g: Graph, r: set<nat>, p: seq<nat>, x: nat, e: nat)
    requires Closed(g, r) && x in r && PathFromTo(g, p, x, e) && e < |g| && g[e] == []
    ensures MustPass.Walk(Forward(g), Exits(g, r), p, x)
  {
    ClosedUnderEdges(g, r, p);
    forall i | 0 <= i < |p| - 1 ensures MustPass.StepAt(Forward(g), p, i) {
      assert Graphs.StepAt(g, p, i);
    }
  }

  lemma WalkIsPath(g: Graph, r: set<nat>, p: seq<nat>, x: nat)
    requires Closed(g, r) && x in r && MustPass.Walk(Forward(g), Exits(g, r), p, x)
    ensures PathFromTo(g, p, x, p[|p| - 1])
  {
    forall i | 0 <= i < |p| - 1 ensures Graphs.StepAt(g, p, i) {
      assert MustPass.StepAt(Forward(g), p, i);
    }
  }

  lemma PostDominatesIsMustPass(g: Graph, r: set<nat>, x: nat, d: nat)
    requires Closed(g, r) && x in r
    ensures PostDominates(g, d, x) <==> MustPass.OnEveryWalk(Forward(g), Exits(g, r), x, d)
  {
    if PostDominates(g, d, x) {
      forall p | MustPass.Walk(Forward(g), Exits(g, r), p, x) ensures d in p {
        WalkIsPath(g, r, p, x);
      }
    }
    if MustPass.OnEveryWalk(Forward(g), Exits(g, r), x, d) {
      forall p, e: nat | PathFromTo(g, p, x, e) && e < |g| && g[e] == [] ensures d in p {
        PathIsWalk(g, r, p, x, e);
      }
    }
  }

  /** Lies above the exact answer, and says nothing about blocks control never reaches. */
  ghost predicate Above(g: Graph, r: set<nat>, pdom: seq<set<nat>>) {
    && Closed(g, r)
    && MustPass.Approx(Forward(g), Exits(g, r), r, pdom)
    && forall x :: 0 <= x < |pdom| && x !in r ==> pdom[x] == {}
  }

  lemma FixpointIsPostDominatorTable(g: Graph, r: set<nat>, pdom: seq<set<nat>>)
    requires Above(g, r, pdom) && MustPass.Fixpoint(Forward(g), Exits(g, r), r, pdom)
    ensures IsPostDominatorTable(g, r, pdom)
  {
    forall x: nat, d: nat | x < |g| ensures d in pdom[x] <==> x in r && d in r && PostDominates(g, d, x) {
      if x in r {
        PostDominatesIsMustPass(g, r, x, d);
        MustPass.FixpointIsExact(Forward(g), Exits(g, r), r, pdom, x, d);
      }
    }
  }

  /** What all successors agree on. */
  method Intersect(successors: seq<nat>, r: set<nat>, pdom: seq<set<nat>>) returns (next: set<nat>)
    requires forall k :: 0 <= k < |successors| ==> successors[k] < |pdom|
    ensures next == set d | d in r && forall k :: 0 <= k < |successors| ==> d in pdom[successors[k]]
  {
    next := r;
    var i := 0;
    while i < |successors|
      invariant 0 <= i <= |successors|
      invariant next == set d | d in r && forall k :: 0 <= k < i ==> d in pdom[successors[k]]
    {
      next := next * pdom[successors[i]];
      i := i + 1;
    }
  }

  /** The blocks from `block` upward satisfy their equations. */
  ghost predicate SettledFrom(g: Graph, r: set<nat>, pdom: seq<set<nat>>, block: int)
    requires Above(g, r, pdom)
  {
    forall x {:trigger MustPass.Next(Forward(g), r, pdom, x)} ::
      x in r - Exits(g, r) && block <= x ==> pdom[x] == MustPass.Next(Forward(g), r, pdom, x)
  }

  lemma LowerEntry(g: Graph, r: set<nat>, pdom: seq<set<nat>>, b: nat)
    requires Above(g, r, pdom) && b in r - Exits(g, r)
    ensures Above(g, r, pdom[b := MustPass.Next(Forward(g), r, pdom, b)])
    ensures MustPass.Next(Forward(g), r, pdom, b) != pdom[b]
        ==> MustPass.TotalSize(pdom[b := MustPass.Next(Forward(g), r, pdom, b)]) < MustPass.TotalSize(pdom)
  {
    MustPass.UpdateIsApprox(Forward(g), Exits(g, r), r, pdom, b);
    if MustPass.Next(Forward(g), r, pdom, b) != pdom[b] {
      MustPass.TotalSizeDrops(pdom, b, MustPass.Next(Forward(g), r, pdom, b));
    }
  }

  /** One pass over the blocks in descending order, updating in place. */
  method Sweep(g: Graph, r: set<nat>, before: seq<set<nat>>) returns (pdom: seq<set<nat>>, changed: bool)
    requires Above(g, r, before)
    ensures Above(g, r, pdom)
    ensures if changed then MustPass.TotalSize(pdom) < MustPass.TotalSize(before) else pdom == before
    ensures !changed ==> SettledFrom(g, r, pdom, 0)
  {
    pdom, changed := before, false;
    var block := |g| - 1;
    while block >= 0
      invariant -1 <= block < |g|
      invariant Above(g, r, pdom)
      invariant if changed then MustPass.TotalSize(pdom) < MustPass.TotalSize(before) else pdom == before
      invariant !changed ==> SettledFrom(g, r, pdom, block + 1)
    {
      if block in r && g[block] != [] {
        var next := Intersect(g[block], r, pdom);
        next := next + {block};
        assert next == MustPass.Next(Forward(g), r, pdom, block) by {
          assert forall k :: 0 <= k < |g[block]| ==> g[block][k] in Forward(g)[block];
        }
        LowerEntry(g, r, pdom, block);
        if next != pdom[block] {
          pdom := pdom[block := next];
          changed := true;
        }
      }
      block := block - 1;
    }
  }

  method ComputePostDominators(g: Graph, r: set<nat>) returns (pdom: seq<set<nat>>)
    requires Closed(g, r)
    ensures IsPostDominatorTable(g, r, pdom)
  {
    pdom := seq(|g|, b requires 0 <= b < |g| => if b !in r then {} else if g[b] == [] then {b} else r);
    ForwardSetting(g, r);
    MustPass.StartIsApprox(Forward(g), Exits(g, r), r, pdom);
    var changed := true;
    while changed
      invariant Above(g, r, pdom)
      invariant !changed ==> SettledFrom(g, r, pdom, 0)
      decreases MustPass.TotalSize(pdom), changed
    {
      pdom, changed := Sweep(g, r, pdom);
    }
    FixpointIsPostDominatorTable(g, r, pdom);
  }

  lemma ForwardSetting(g: Graph, r: set<nat>)
    requires Closed(g, r)
    ensures MustPass.Setting(Forward(g), Exits(g, r), r)
  {
    forall b | b in r ensures Forward(g)[b] <= r {
      forall s | s in Forward(g)[b] ensures s in r {
        assert Edge(g, b, s);
      }
    }
  }
}
