/** The reachable blocks of a control-flow graph, and the dominators of each. */
module Dominators {
  import opened Graphs
  import MustPass

  /** The blocks marked in a bit vector. */
  function Marked(bits: seq<bool>): set<nat> {
    set b: nat | b < |bits| && bits[b]
  }

  /** Depth-first marking from `block`; blocks marked earlier are not entered again. */
  method MarkReachable(g: Graph, block: nat, bits: seq<bool>) returns (after: seq<bool>)
    requires Wf(g) && |bits| == |g| && block < |g|
    ensures |after| == |g| && Marked(bits) <= Marked(after) && block in Marked(after)
    ensures forall x, y :: x in Marked(after) - Marked(bits) && Edge(g, x, y) ==> y in Marked(after)
    ensures forall x :: x in Marked(after) - Marked(bits) ==> Reaches(g, block, x)
    decreases |g| - |Marked(bits)|
  {
    after := bits;
    if bits[block] {
      return;
    }
    after := after[block := true];
    MarkedGrows(bits, block);
    ReachesSelf(g, block);
    var i := 0;
    while i < |g[block]|
      invariant 0 <= i <= |g[block]| && |after| == |g|
      invariant Marked(bits) + {block} <= Marked(after)
      invariant forall j :: 0 <= j < i ==> g[block][j] in Marked(after)
      invariant forall x, y :: x in Marked(after) - Marked(bits) - {block} && Edge(g, x, y) ==> y in Marked(after)
      invariant forall x :: x in Marked(after) - Marked(bits) ==> Reaches(g, block, x)
      invariant |Marked(after)| > |Marked(bits)|
    {
      var w := g[block][i];
      ghost var mid := after;
      after := MarkReachable(g, w, after);
      MustPass.SubsetSize(Marked(mid), Marked(after));
      assert Edge(g, block, w);
      EdgeReaches(g, block, w);
      forall x | x in Marked(after) - Marked(bits) ensures Reaches(g, block, x) {
        if x !in Marked(mid) {
          ReachesTrans(g, block, w, x);
        }
      }
      i := i + 1;
    }
  }

  lemma MarkedGrows(bits: seq<bool>, b: nat)
    requires b < |bits| && !bits[b]
    ensures Marked(bits[b := true]) == Marked(bits) + {b}
    ensures |Marked(bits)| < |Marked(bits[b := true])| <= |bits|
  {
    MarkedBound(bits[b := true]);
  }

  lemma MarkedBound(bits: seq<bool>)
    ensures |Marked(bits)| <= |bits|
  {
    MustPass.SubsetSize(Marked(bits), Upto(|bits|));
  }

  ghost function Upto(n: nat): (s: set<nat>)
    ensures forall x: nat :: x in s <==> x < n
    ensures |s| == n
  {
    if n == 0 then {} else Upto(n - 1) + {n - 1}
  }

  /** The blocks control can reach from block 0. */
  method ReachableBlocks(g: Graph) returns (reachable: set<nat>)
    requires Wf(g) && |g| > 0
    ensures IsReachableSet(g, reachable)
    ensures 0 in reachable && forall x, y :: x in reachable && Edge(g, x, y) ==> y in reachable
  {
    var bits := MarkReachable(g, 0, seq(|g|, _ => false));
    reachable := Marked(bits);
    assert Marked(seq(|g|, _ => false)) == {};
    forall b: nat ensures b in reachable <==> Reaches(g, 0, b) {
      if Reaches(g, 0, b) {
        ClosedReaches(g, reachable, 0, b);
      }
    }
  }

  // ---------- dominators ----------

  /** `d` lies on every path from the entry to `x`. */
  ghost predicate Dominates(g: Graph, d: nat, x: nat) {
    forall p :: PathFromTo(g, p, 0, x) ==> d in p
  }

  /** For every block: the blocks on all entry paths to it, and nothing for blocks control never reaches. */
  ghost predicate IsDominatorTable(g: Graph, r: set<nat>, dom: seq<set<nat>>) {
    && |dom| == |g|
    && forall x: nat, d: nat :: x < |g| ==> (d in dom[x] <==> x in r && Dominates(g, d, x))
  }

  /** Predecessors restricted to reachable blocks: the neighbours of the backward walks. */
  ghost function Back(preds: seq<set<nat>>, r: set<nat>): seq<set<nat>> {
    seq(|preds|, b requires 0 <= b < |preds| => preds[b] * r)
  }

  ghost function Reversed(p: seq<nat>): (q: seq<nat>)
    ensures |q| == |p| && forall i :: 0 <= i < |p| ==> q[i] == p[|p| - 1 - i]
  {
    seq(|p|, i requires 0 <= i < |p| => p[|p| - 1 - i])
  }

  lemma PathToWalk(g: Graph, preds: seq<set<nat>>, r: set<nat>, p: seq<nat>, x: nat)
    requires Wf(g) && IsPredecessorTable(g, preds) && IsReachableSet(g, r) && PathFromTo(g, p, 0, x)
    ensures MustPass.Walk(Back(preds, r), {0}, Reversed(p), x)
  {
    var q := Reversed(p);
    forall i | 0 <= i < |q| - 1 ensures MustPass.StepAt(Back(preds, r), q, i) {
      var k := |p| - 2 - i;
      assert Graphs.StepAt(g, p, k);
      PathInBounds(g, p, k + 1);
      PathPrefix(g, p, k);
    }
  }

  lemma WalkToPath(g: Graph, preds: seq<set<nat>>, r: set<nat>, q: seq<nat>, x: nat)
    requires Wf(g) && |g| > 0 && IsPredecessorTable(g, preds) && MustPass.Walk(Back(preds, r), {0}, q, x)
    ensures PathFromTo(g, Reversed(q), 0, x)
  {
    var p := Reversed(q);
    forall k | 0 <= k < |p| - 1 ensures Graphs.StepAt(g, p, k) {
      assert MustPass.StepAt(Back(preds, r), q, |q| - 2 - k);
    }
  }

  /** Dominance is lying on every backward walk to the entry. */
  lemma DominatesIsMustPass(g: Graph, preds: seq<set<nat>>, r: set<nat>, x: nat, d: nat)
    requires Wf(g) && |g| > 0 && IsPredecessorTable(g, preds) && IsReachableSet(g, r)
    ensures Dominates(g, d, x) <==> MustPass.OnEveryWalk(Back(preds, r), {0}, x, d)
  {
    if Dominates(g, d, x) {
      forall q | MustPass.Walk(Back(preds, r), {0}, q, x) ensures d in q {
        WalkToPath(g, preds, r, q, x);
        assert d in Reversed(q);
      }
    }
    if MustPass.OnEveryWalk(Back(preds, r), {0}, x, d) {
      forall p | PathFromTo(g, p, 0, x) ensures d in p {
        PathToWalk(g, preds, r, p, x);
        assert d in Reversed(p);
      }
    }
  }

  lemma FixpointIsDominatorTable(g: Graph, preds: seq<set<nat>>, r: set<nat>, dom: seq<set<nat>>)
    requires Wf(g) && |g| > 0 && IsPredecessorTable(g, preds) && IsReachableSet(g, r)
    requires MustPass.Approx(Back(preds, r), {0}, r, dom) && MustPass.Fixpoint(Back(preds, r), {0}, r, dom)
    requires forall x :: 0 <= x < |g| && x !in r ==> dom[x] == {}
    ensures IsDominatorTable(g, r, dom)
  {
    forall x: nat, d: nat | x < |g| ensures d in dom[x] <==> x in r && Dominates(g, d, x) {
      if x in r {
        DominatesIsMustPass(g, preds, r, x, d);
        MustPass.FixpointIsExact(Back(preds, r), {0}, r, dom, x, d);
        if Dominates(g, d, x) {
          DominatorIsReachable(g, r, d, x);
        }
      }
    }
  }

  lemma DominatorIsReachable(g: Graph, r: set<nat>, d: nat, x: nat)
    requires IsReachableSet(g, r) && x in r && Dominates(g, d, x)
    ensures d in r
  {
    var p :| PathFromTo(g, p, 0, x);
    var i :| 0 <= i < |p| && p[i] == d;
    PathPrefix(g, p, i);
  }

  /** What all reachable predecessors agree on. */
  method Intersect(preds: set<nat>, r: set<nat>, dom: seq<set<nat>>) returns (next: set<nat>, any: bool)
    requires forall p :: p in preds ==> p < |dom|
    ensures next == set d | d in r && forall p :: p in preds * r ==> d in dom[p]
    ensures any <==> preds * r != {}
  {
    next, any := r, false;
    var rest := preds;
    while rest != {}
      invariant rest <= preds
      invariant next == set d | d in r && forall p :: p in (preds - rest) * r ==> d in dom[p]
      invariant any <==> (preds - rest) * r != {}
      decreases |rest|
    {
      var p :| p in rest;
      rest := rest - {p};
      if p in r {
        any := true;
        next := next * dom[p];
        assert p in (preds - rest) * r;
      }
    }
  }

  /** Lies above the exact answer, and says nothing about blocks control never reaches. */
  ghost predicate Above(nb: seq<set<nat>>, r: set<nat>, dom: seq<set<nat>>) {
    MustPass.Approx(nb, {0}, r, dom) && forall x :: 0 <= x < |dom| && x !in r ==> dom[x] == {}
  }

  /** The blocks below `block` satisfy their equations. */
  ghost predicate SettledBelow(nb: seq<set<nat>>, r: set<nat>, dom: seq<set<nat>>, block: nat)
    requires Above(nb, r, dom)
  {
    forall x {:trigger MustPass.Next(nb, r, dom, x)} :: x in r && 0 < x < block ==> dom[x] == MustPass.Next(nb, r, dom, x)
  }

  /** Every reachable block but the entry has a reachable predecessor. */
  ghost predicate Fed(preds: seq<set<nat>>, r: set<nat>) {
    && (forall b, n :: 0 <= b < |preds| && n in preds[b] ==> n < |preds|)
    && (forall b :: b in r && b != 0 && b < |preds| ==> preds[b] * r != {})
  }

  /** The in-place iteration down to the greatest fixpoint. */
  method ComputeDominators(g: Graph, preds: seq<set<nat>>, r: set<nat>) returns (dom: seq<set<nat>>)
    requires Wf(g) && |g| > 0 && IsPredecessorTable(g, preds) && IsReachableSet(g, r)
    ensures IsDominatorTable(g, r, dom)
  {
    ghost var nb := Back(preds, r);
    BackSetting(g, preds, r);
    dom := seq(|g|, b requires 0 <= b < |g| => if b == 0 then {0} else if b in r then r else {});
    MustPass.StartIsApprox(nb, {0}, r, dom);
    dom := Iterate(preds, r, dom);
    FixpointIsDominatorTable(g, preds, r, dom);
  }

  method Iterate(preds: seq<set<nat>>, r: set<nat>, start: seq<set<nat>>) returns (dom: seq<set<nat>>)
    requires Fed(preds, r) && Above(Back(preds, r), r, start)
    ensures Above(Back(preds, r), r, dom) && MustPass.Fixpoint(Back(preds, r), {0}, r, dom)
  {
    dom := start;
    var changed := true;
    while changed
      invariant Above(Back(preds, r), r, dom)
      invariant !changed ==> SettledBelow(Back(preds, r), r, dom, |preds|)
      decreases MustPass.TotalSize(dom), changed
    {
      dom, changed := Sweep(preds, r, dom);
    }
  }

  /** One pass over the blocks in ascending order, updating in place. */
  method Sweep(preds: seq<set<nat>>, r: set<nat>, before: seq<set<nat>>) returns (dom: seq<set<nat>>, changed: bool)
    requires Fed(preds, r) && Above(Back(preds, r), r, before)
    ensures Above(Back(preds, r), r, dom)
    ensures if changed then MustPass.TotalSize(dom) < MustPass.TotalSize(before) else dom == before
    ensures !changed ==> SettledBelow(Back(preds, r), r, dom, |preds|)
  {
    ghost var nb := Back(preds, r);
    dom, changed := before, false;
    var block := 1;
    while block < |preds|
      invariant 1 <= block
      invariant Above(nb, r, dom)
      invariant if changed then MustPass.TotalSize(dom) < MustPass.TotalSize(before) else dom == before
      invariant !changed ==> SettledBelow(nb, r, dom, block)
    {
      if block in r {
        var next, any := Intersect(preds[block], r, dom);
        if any {
          next := next + {block};
        }
        assert next == MustPass.Next(nb, r, dom, block);
        LowerEntry(nb, r, dom, block);
        if next != dom[block] {
          dom := dom[block := next];
          changed := true;
        }
      }
      block := block + 1;
    }
  }

  lemma LowerEntry(nb: seq<set<nat>>, r: set<nat>, dom: seq<set<nat>>, b: nat)
    requires Above(nb, r, dom) && b in r && b != 0
    ensures Above(nb, r, dom[b := MustPass.Next(nb, r, dom, b)])
    ensures MustPass.Next(nb, r, dom, b) != dom[b]
        ==> MustPass.TotalSize(dom[b := MustPass.Next(nb, r, dom, b)]) < MustPass.TotalSize(dom)
  {
    MustPass.UpdateIsApprox(nb, {0}, r, dom, b);
    if MustPass.Next(nb, r, dom, b) != dom[b] {
      MustPass.TotalSizeDrops(dom, b, MustPass.Next(nb, r, dom, b));
    }
  }

  lemma BackSetting(g: Graph, preds: seq<set<nat>>, r: set<nat>)
    requires Wf(g) && |g| > 0 && IsPredecessorTable(g, preds) && IsReachableSet(g, r)
    ensures MustPass.Setting(Back(preds, r), {0}, r) && Fed(preds, r)
  {
    ReachesSelf(g, 0);
    forall b | b in r ensures b < |preds| {
      ReachesBounds(g, 0, b);
    }
    forall b | b in r && b != 0 ensures preds[b] * r != {} {
      HasReachablePredecessor(g, preds, r, b);
    }
  }

  lemma HasReachablePredecessor(g: Graph, preds: seq<set<nat>>, r: set<nat>, b: nat)
    requires Wf(g) && IsPredecessorTable(g, preds) && IsReachableSet(g, r) && b in r && b != 0
    ensures b < |g| && preds[b] * r != {}
  {
    ReachesBounds(g, 0, b);
    var p :| PathFromTo(g, p, 0, b);
    assert Graphs.StepAt(g, p, |p| - 2);
    PathPrefix(g, p, |p| - 2);
    assert p[|p| - 2] in preds[b] * r;
  }
}
