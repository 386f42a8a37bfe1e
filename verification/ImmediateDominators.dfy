/** The dominator tree. */
module ImmediateDominators {
  import opened Graphs
  import opened Dominators
  import MustPass

  // ---------- the order on dominators ----------

  lemma DominatesTransitive(g: Graph, c: nat, b: nat, a: nat)
    requires Dominates(g, c, b) && Dominates(g, b, a)
    ensures Dominates(g, c, a)
  {
    forall p | PathFromTo(g, p, 0, a) ensures c in p {
      var i :| 0 <= i < |p| && p[i] == b;
      PathPrefix(g, p, i);
    }
  }

  /** Cutting a path to `a` at `b` and that at `a` again yields ever shorter paths, unless the two coincide. */
  lemma {:induction false} DominatesAntisymmetricOn(g: Graph, p: seq<nat>, a: nat, b: nat)
    requires Dominates(g, a, b) && Dominates(g, b, a) && PathFromTo(g, p, 0, a)
    ensures a == b
    decreases |p|
  {
    var i :| 0 <= i < |p| && p[i] == b;
    if i < |p| - 1 {
      PathPrefix(g, p, i);
      var q := p[..i + 1];
      var j :| 0 <= j < |q| && q[j] == a;
      PathPrefix(g, q, j);
      DominatesAntisymmetricOn(g, q[..j + 1], a, b);
    }
  }

  lemma DominatesAntisymmetric(g: Graph, r: set<nat>, a: nat, b: nat)
    requires IsReachableSet(g, r) && a in r && Dominates(g, a, b) && Dominates(g, b, a)
    ensures a == b
  {
    var p :| PathFromTo(g, p, 0, a);
    DominatesAntisymmetricOn(g, p, a, b);
  }

  lemma {:induction false} LastOfEither(p: seq<nat>, a: nat, b: nat) returns (i: nat)
    requires a in p
    ensures i < |p| && p[i] in {a, b} && a !in p[i + 1..] && b !in p[i + 1..]
  {
    i := |p| - 1;
    while p[i] !in {a, b}
      invariant 0 <= i < |p| && a !in p[i + 1..] && b !in p[i + 1..]
      decreases i
    {
      assert p[i..] == [p[i]] + p[i + 1..];
      assert p == p[..i] + p[i..];
      i := i - 1;
    }
  }

  /** Splicing an entry path that avoids `b` into `p` after its last visit of `a` or `b`. */
  lemma SpliceAvoids(g: Graph, p: seq<nat>, i: nat, q: seq<nat>, x: nat, b: nat)
    requires Wf(g) && PathFromTo(g, p, 0, x) && i < |p| && b !in p[i + 1..]
    requires PathFromTo(g, q, 0, p[i]) && b !in q
    ensures !Dominates(g, b, x)
  {
    PathSuffix(g, p, i);
    PathConcat(g, q, p[i..], 0, p[i], x);
    assert p[i..][1..] == p[i + 1..];
  }

  /** Two dominators of the same reachable block are ordered by dominance. */
  lemma DominatorsOrdered(g: Graph, r: set<nat>, a: nat, b: nat, x: nat)
    requires Wf(g) && IsReachableSet(g, r) && x in r && Dominates(g, a, x) && Dominates(g, b, x)
    ensures Dominates(g, a, b) || Dominates(g, b, a)
  {
    if !Dominates(g, a, b) && !Dominates(g, b, a) {
      var toB :| PathFromTo(g, toB, 0, b) && a !in toB;
      var toA :| PathFromTo(g, toA, 0, a) && b !in toA;
      var p :| PathFromTo(g, p, 0, x);
      var i := LastOfEither(p, a, b);
      if p[i] == a {
        SpliceAvoids(g, p, i, toA, x, b);
      } else {
        SpliceAvoids(g, p, i, toB, x, a);
      }
    }
  }

  // ---------- dominator sets ----------

  lemma DominatorSetIncluded(g: Graph, r: set<nat>, dom: seq<set<nat>>, a: nat, b: nat)
    requires Wf(g) && IsReachableSet(g, r) && IsDominatorTable(g, r, dom) && b < |g| && a in dom[b]
    ensures a in r && a < |g| && dom[a] <= dom[b]
  {
    DominatorIsReachable(g, r, a, b);
    ReachesBounds(g, 0, a);
    forall d | d in dom[a] ensures d in dom[b] {
      DominatesTransitive(g, d, a, b);
    }
  }

  /** A strict dominator has strictly fewer dominators. */
  lemma StrictDominatorSmaller(g: Graph, r: set<nat>, dom: seq<set<nat>>, a: nat, b: nat)
    requires Wf(g) && IsReachableSet(g, r) && IsDominatorTable(g, r, dom) && b < |g| && a in dom[b] && a != b
    ensures a < |g| && |dom[a]| < |dom[b]|
  {
    DominatorSetIncluded(g, r, dom, a, b);
    if b in dom[a] {
      DominatesAntisymmetric(g, r, a, b);
    }
    SelfDominates(g, r, dom, b);
    MustPass.SubsetSize(dom[a], dom[b]);
  }

  lemma SelfDominates(g: Graph, r: set<nat>, dom: seq<set<nat>>, b: nat)
    requires IsReachableSet(g, r) && IsDominatorTable(g, r, dom) && b < |g| && b in r
    ensures b in dom[b] && 0 in dom[b]
  {
  }

  /** `i` strictly dominates `x`, and every other strict dominator of `x` dominates `i`. */
  ghost predicate IsImmediateDominator(g: Graph, i: nat, x: nat) {
    i != x && Dominates(g, i, x) && forall d :: d != x && Dominates(g, d, x) ==> Dominates(g, d, i)
  }

  ghost predicate IsIdomTable(g: Graph, r: set<nat>, idom: seq<int>) {
    && |idom| == |g| && |g| > 0 && idom[0] == 0
    && (forall x :: 0 < x < |g| && x !in r ==> idom[x] == -1)
    && (forall x :: 0 < x < |g| && x in r ==> 0 <= idom[x] < |g| && IsImmediateDominator(g, idom[x], x))
  }

  lemma ImmediateDominatorUnique(g: Graph, r: set<nat>, i: nat, j: nat, x: nat)
    requires IsReachableSet(g, r) && x in r && IsImmediateDominator(g, i, x) && IsImmediateDominator(g, j, x)
    ensures i == j
  {
    DominatorIsReachable(g, r, i, x);
    DominatesAntisymmetric(g, r, i, j);
  }

  /** A strict dominator with the largest dominator set is the immediate dominator. */
  lemma DeepestIsImmediate(g: Graph, r: set<nat>, dom: seq<set<nat>>, i: nat, x: nat)
    requires Wf(g) && IsReachableSet(g, r) && IsDominatorTable(g, r, dom) && x < |g|
    requires i in dom[x] && i != x && i < |g|
    requires forall d :: d in dom[x] && d != x ==> d < |g| && |dom[d]| <= |dom[i]|
    ensures IsImmediateDominator(g, i, x)
  {
    forall d | d != x && Dominates(g, d, x) ensures Dominates(g, d, i) {
      assert d in dom[x];
      DominatorsOrdered(g, r, d, i, x);
      if Dominates(g, i, d) && d != i {
        DominatorSetIncluded(g, r, dom, d, x);
        StrictDominatorSmaller(g, r, dom, i, d);
      }
    }
  }

  /** The scan of the candidates for one block. */
  method Deepest(dom: seq<set<nat>>, block: nat) returns (best: int)
    requires block < |dom| && forall d :: d in dom[block] ==> d < |dom| && dom[d] != {}
    ensures best == -1 ==> dom[block] <= {block}
    ensures best != -1 ==> 0 <= best && best != block && best in dom[block]
    ensures best != -1 ==> forall d :: d in dom[block] && d != block ==> |dom[d]| <= |dom[best]|
  {
    best := -1;
    var bestDepth := 0;
    var rest := dom[block];
    while rest != {}
      invariant rest <= dom[block]
      invariant best == -1 ==> bestDepth == 0 && dom[block] - rest <= {block}
      invariant best != -1 ==> 0 <= best && best != block && best in dom[block] && bestDepth == |dom[best]|
      invariant forall d :: d in dom[block] - rest && d != block ==> |dom[d]| <= bestDepth
      decreases |rest|
    {
      var candidate :| candidate in rest;
      rest := rest - {candidate};
      if candidate != block {
        assert candidate in dom[block] && |dom[candidate]| > 0;
        if |dom[candidate]| > bestDepth {
          best, bestDepth := candidate, |dom[candidate]|;
        }
      }
    }
  }

  method ComputeImmediateDominators(g: Graph, r: set<nat>, dom: seq<set<nat>>) returns (idom: seq<int>)
    requires Wf(g) && |g| > 0 && IsReachableSet(g, r) && IsDominatorTable(g, r, dom)
    ensures IsIdomTable(g, r, idom)
  {
    idom := seq(|g|, _ => -1);
    idom := idom[0 := 0];
    var block := 1;
    while block < |g|
      invariant 1 <= block <= |g| && |idom| == |g| && idom[0] == 0
      invariant forall x :: 0 < x < |g| && (x !in r || x >= block) ==> idom[x] == -1
      invariant forall x :: 0 < x < block && x in r ==> 0 <= idom[x] < |g| && IsImmediateDominator(g, idom[x], x)
    {
      if block in r {
        CandidatesInBounds(g, r, dom, block);
        var best := Deepest(dom, block);
        assert best != -1;
        DeepestIsImmediate(g, r, dom, best, block);
        idom := idom[block := best];
      }
      block := block + 1;
    }
  }

  lemma CandidatesInBounds(g: Graph, r: set<nat>, dom: seq<set<nat>>, block: nat)
    requires Wf(g) && IsReachableSet(g, r) && IsDominatorTable(g, r, dom) && 0 < block < |g| && block in r
    ensures forall d :: d in dom[block] ==> d < |g| && dom[d] != {}
    ensures 0 in dom[block]
  {
    SelfDominates(g, r, dom, block);
    forall d | d in dom[block] ensures d < |g| && dom[d] != {} {
      DominatorSetIncluded(g, r, dom, d, block);
      SelfDominates(g, r, dom, d);
    }
  }

  // ---------- the tree ----------

  /** Following immediate dominators adds exactly one block at a time. */
  lemma DominatorsViaIdom(g: Graph, r: set<nat>, dom: seq<set<nat>>, i: nat, x: nat)
    requires Wf(g) && IsReachableSet(g, r) && IsDominatorTable(g, r, dom) && x in r && x < |g|
    requires IsImmediateDominator(g, i, x)
    ensures i < |g| && dom[x] == {x} + dom[i] && |dom[i]| < |dom[x]|
  {
    assert i in dom[x];
    StrictDominatorSmaller(g, r, dom, i, x);
    DominatorSetIncluded(g, r, dom, i, x);
    SelfDominates(g, r, dom, x);
  }

  /** Walks up the tree; `fuel` bounds the number of steps. */
  function Ancestors(idom: seq<int>, x: nat, fuel: nat): (up: seq<nat>)
    ensures |up| > 0
    decreases fuel
  {
    if fuel == 0 || x == 0 || x >= |idom| || idom[x] < 0 then [x] else [x] + Ancestors(idom, idom[x], fuel - 1)
  }

  ghost predicate ListsDominators(dom: seq<set<nat>>, x: nat, up: seq<nat>)
    requires x < |dom|
  {
    |up| > 0 && up[|up| - 1] == 0 && forall d :: d in up <==> d in dom[x]
  }

  lemma ListsOneMore(g: Graph, r: set<nat>, dom: seq<set<nat>>, i: nat, x: nat, up: seq<nat>)
    requires Wf(g) && IsReachableSet(g, r) && IsDominatorTable(g, r, dom) && x in r && x < |g|
    requires IsImmediateDominator(g, i, x) && i < |g| && ListsDominators(dom, i, up)
    ensures ListsDominators(dom, x, [x] + up)
  {
    DominatorsViaIdom(g, r, dom, i, x);
  }

  /** From any reachable block the walk up the tree visits exactly its dominators and ends at the entry. */
  lemma {:induction false} AncestorsAreDominators(g: Graph, r: set<nat>, dom: seq<set<nat>>, idom: seq<int>, x: nat, fuel: nat)
    requires Wf(g) && IsReachableSet(g, r) && IsDominatorTable(g, r, dom) && IsIdomTable(g, r, idom)
    requires x in r && x < |g| && fuel >= |dom[x]|
    ensures ListsDominators(dom, x, Ancestors(idom, x, fuel))
    decreases fuel
  {
    SelfDominates(g, r, dom, x);
    if x == 0 {
      assert PathFromTo(g, [0], 0, 0);
    } else {
      MustPass.SubsetSize({x}, dom[x]);
      var i := idom[x];
      DominatorsViaIdom(g, r, dom, i, x);
      DominatorSetIncluded(g, r, dom, i, x);
      AncestorsAreDominators(g, r, dom, idom, i, fuel - 1);
      ListsOneMore(g, r, dom, i, x, Ancestors(idom, i, fuel - 1));
    }
  }
}
