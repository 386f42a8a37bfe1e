/** Finite directed graphs given by successor lists, and the paths every flow analysis is stated against. */
module Graphs {

  /** `g[b]` lists the successors of block `b`. */
  type Graph = seq<seq<nat>>

  ghost predicate Wf(g: Graph) {
    forall b, k :: 0 <= b < |g| && 0 <= k < |g[b]| ==> g[b][k] < |g|
  }

  predicate Edge(g: Graph, a: nat, b: nat) {
    a < |g| && b in g[a]
  }

  ghost predicate StepAt(g: Graph, p: seq<nat>, i: int)
    requires 0 <= i < |p| - 1
  {
    Edge(g, p[i], p[i + 1])
  }

  /** A non-empty walk along edges, starting at a block of `g`. */
  ghost predicate Path(g: Graph, p: seq<nat>) {
    && |p| > 0
    && p[0] < |g|
    && forall i {:trigger StepAt(g, p, i)} :: 0 <= i < |p| - 1 ==> StepAt(g, p, i)
  }

  ghost predicate PathFromTo(g: Graph, p: seq<nat>, a: nat, b: nat) {
    Path(g, p) && p[0] == a && p[|p| - 1] == b
  }

  ghost predicate Reaches(g: Graph, a: nat, b: nat) {
    exists p :: PathFromTo(g, p, a, b)
  }

  /** `a` reaches `b` along a path none of whose blocks is `x`. */
  ghost predicate ReachesAvoiding(g: Graph, a: nat, b: nat, x: nat) {
    exists p :: PathFromTo(g, p, a, b) && x !in p
  }

  ghost predicate Mutual(g: Graph, a: nat, b: nat) {
    Reaches(g, a, b) && Reaches(g, b, a)
  }

  /** All blocks control can reach from block 0. */
  ghost predicate IsReachableSet(g: Graph, r: set<nat>) {
    forall b: nat :: b in r <==> Reaches(g, 0, b)
  }

  /** The set of blocks that `block` is a successor of. */
  ghost predicate IsPredecessorTable(g: Graph, preds: seq<set<nat>>) {
    && |preds| == |g|
    && forall a: nat, b: nat :: b < |g| ==> (a in preds[b] <==> Edge(g, a, b))
  }

  ghost predicate EdgesStayIn(g: Graph, from: set<nat>, to: set<nat>) {
    forall x: nat, y: nat {:trigger Edge(g, x, y)} :: x in from && Edge(g, x, y) ==> y in to
  }

  /** Blocks of a graph that no edge leaves. */
  ghost predicate Closed(g: Graph, r: set<nat>) {
    Wf(g) && EdgesStayIn(g, r, r) && forall v :: v in r ==> v < |g|
  }

  lemma PathInBounds(g: Graph, p: seq<nat>, i: nat)
    requires Wf(g) && Path(g, p) && i < |p|
    ensures p[i] < |g|
  {
    if i > 0 {
      assert StepAt(g, p, i - 1);
    }
  }

  lemma ReachesSelf(g: Graph, a: nat)
    requires a < |g|
    ensures Reaches(g, a, a)
  {
    assert PathFromTo(g, [a], a, a);
  }

  lemma ReachesBounds(g: Graph, a: nat, b: nat)
    requires Wf(g) && Reaches(g, a, b)
    ensures a < |g| && b < |g|
  {
    var p :| PathFromTo(g, p, a, b);
    PathInBounds(g, p, |p| - 1);
  }

  /** Appending an edge to a path. */
  lemma PathSnoc(g: Graph, p: seq<nat>, a: nat, b: nat, c: nat)
    requires PathFromTo(g, p, a, b) && Edge(g, b, c)
    ensures PathFromTo(g, p + [c], a, c)
  {
    var q := p + [c];
    forall i | 0 <= i < |q| - 1 ensures StepAt(g, q, i) {
      if i < |p| - 1 {
        assert StepAt(g, p, i);
      }
    }
  }

  lemma PathCons(g: Graph, a: nat, p: seq<nat>, b: nat, c: nat)
    requires Edge(g, a, b) && PathFromTo(g, p, b, c)
    ensures PathFromTo(g, [a] + p, a, c)
  {
    var q := [a] + p;
    forall i | 0 <= i < |q| - 1 ensures StepAt(g, q, i) {
      if i > 0 {
        assert StepAt(g, p, i - 1);
      }
    }
  }

  lemma PathPrefix(g: Graph, p: seq<nat>, k: nat)
    requires Path(g, p) && k < |p|
    ensures PathFromTo(g, p[..k + 1], p[0], p[k])
  {
    var q := p[..k + 1];
    forall i | 0 <= i < |q| - 1 ensures StepAt(g, q, i) {
      assert StepAt(g, p, i);
    }
  }

  lemma PathSuffix(g: Graph, p: seq<nat>, k: nat)
    requires Wf(g) && Path(g, p) && k < |p|
    ensures PathFromTo(g, p[k..], p[k], p[|p| - 1])
  {
    PathInBounds(g, p, k);
    var q := p[k..];
    forall i | 0 <= i < |q| - 1 ensures StepAt(g, q, i) {
      assert StepAt(g, p, k + i);
    }
  }

  lemma PathConcat(g: Graph, p: seq<nat>, q: seq<nat>, a: nat, b: nat, c: nat)
    requires PathFromTo(g, p, a, b) && PathFromTo(g, q, b, c)
    ensures PathFromTo(g, p + q[1..], a, c)
  {
    var r := p + q[1..];
    forall i | 0 <= i < |r| - 1 ensures StepAt(g, r, i) {
      if i < |p| - 1 {
        assert StepAt(g, p, i);
      } else {
        var j := i - |p| + 1;
        assert StepAt(g, q, j);
        assert r[i + 1] == q[j + 1];
        assert r[i] == q[j];
      }
    }
  }

  lemma ReachesTrans(g: Graph, a: nat, b: nat, c: nat)
    requires Reaches(g, a, b) && Reaches(g, b, c)
    ensures Reaches(g, a, c)
  {
    var p :| PathFromTo(g, p, a, b);
    var q :| PathFromTo(g, q, b, c);
    PathConcat(g, p, q, a, b, c);
  }

  lemma ReachesEdge(g: Graph, a: nat, b: nat, c: nat)
    requires Reaches(g, a, b) && Edge(g, b, c)
    ensures Reaches(g, a, c)
  {
    var p :| PathFromTo(g, p, a, b);
    PathSnoc(g, p, a, b, c);
  }

  lemma EdgeReaches(g: Graph, a: nat, b: nat)
    requires Edge(g, a, b)
    ensures Reaches(g, a, b)
  {
    ReachesSelf(g, a);
    ReachesEdge(g, a, a, b);
  }

  /** A set closed under edges contains everything its members reach. */
  lemma {:induction false} ClosedUnderEdges(g: Graph, s: set<nat>, p: seq<nat>)
    requires Path(g, p) && p[0] in s
    requires forall a: nat, b: nat :: a in s && Edge(g, a, b) ==> b in s
    ensures forall i :: 0 <= i < |p| ==> p[i] in s
    decreases |p|
  {
    if |p| > 1 {
      PathPrefix(g, p, |p| - 2);
      var q := p[..|p| - 1];
      ClosedUnderEdges(g, s, q);
      assert p[|p| - 2] == q[|p| - 2];
      assert StepAt(g, p, |p| - 2);
      forall i | 0 <= i < |p| ensures p[i] in s {
        if i < |p| - 1 {
          assert p[i] == q[i];
        }
      }
    }
  }

  lemma ClosedReaches(g: Graph, s: set<nat>, a: nat, b: nat)
    requires Reaches(g, a, b) && a in s
    requires forall x: nat, y: nat :: x in s && Edge(g, x, y) ==> y in s
    ensures b in s
  {
    var p :| PathFromTo(g, p, a, b);
    ClosedUnderEdges(g, s, p);
  }
}
