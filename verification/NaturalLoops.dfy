/** Back edges and their natural loops. */
module NaturalLoops {
  import opened Graphs
  import opened Dominators
  import opened Sorting
  import MustPass

  /** The header and the reachable blocks that reach the latch without passing the header. */
  ghost predicate IsNaturalLoop(g: Graph, r: set<nat>, latch: nat, header: nat, loop: set<nat>) {
    forall x: nat :: x in loop <==> x == header || (x in r && ReachesAvoiding(g, x, latch, header))
  }

  /** What the backward worklist can no longer extend. */
  ghost predicate Explored(preds: seq<set<nat>>, r: set<nat>, header: nat, loop: set<nat>, work: seq<nat>, selfEdge: bool)
    requires forall x :: x in loop ==> x < |preds|
  {
    forall x, p :: x in loop && (x != header || selfEdge) && x !in work && p in preds[x] && p in r ==> p in loop
  }

  /** Why a block is in the loop. */
  ghost predicate Member(g: Graph, r: set<nat>, latch: nat, header: nat, x: nat) {
    x in r && (if latch == header then Reaches(g, x, header) else x == header || ReachesAvoiding(g, x, latch, header))
  }

  method WorklistLoop(g: Graph, preds: seq<set<nat>>, r: set<nat>, latch: nat, header: nat) returns (loop: set<nat>)
    requires Wf(g) && IsPredecessorTable(g, preds) && IsReachableSet(g, r) && latch in r && header in r
    ensures forall x: nat :: x in loop <==> Member(g, r, latch, header, x)
  {
    ReachesBounds(g, 0, latch);
    ReachesBounds(g, 0, header);
    loop := {header, latch};
    var work := [latch];
    StartMembers(g, r, latch, header);
    while work != []
      invariant header in loop && latch in loop && loop <= r
      invariant forall x :: x in work ==> x in loop && (latch != header ==> x != header)
      invariant forall x :: x in loop ==> x < |g| && Member(g, r, latch, header, x)
      invariant Explored(preds, r, header, loop, work, latch == header)
      decreases |r - loop|, |work|
    {
      var current := work[|work| - 1];
      ghost var loop0, work0 := loop, work;
      work := work[..|work| - 1];
      assert work0 == work + [current];
      loop, work := AddPredecessors(preds[current], r, loop, work);
      forall x | x in loop - loop0 ensures x < |g| && Member(g, r, latch, header, x) {
        PredecessorIsMember(g, preds, r, latch, header, current, x);
      }
      MustPass.SubsetSize(r - loop, r - loop0);
    }
    forall x: nat | Member(g, r, latch, header, x) ensures x in loop {
      MemberFound(g, preds, r, latch, header, loop, x);
    }
  }

  /** Adds the reachable predecessors of `current` not seen yet. */
  method AddPredecessors(preds: set<nat>, r: set<nat>, loop: set<nat>, work: seq<nat>) returns (loop': set<nat>, work': seq<nat>)
    ensures loop' == loop + preds * r
    ensures forall x :: x in work' <==> x in work || x in loop' - loop
    ensures loop' == loop ==> work' == work
  {
    loop', work' := loop, work;
    var rest := preds;
    while rest != {}
      invariant rest <= preds && loop' == loop + (preds - rest) * r
      invariant forall x :: x in work' <==> x in work || x in loop' - loop
      invariant loop' == loop ==> work' == work
      decreases |rest|
    {
      var p :| p in rest;
      rest := rest - {p};
      if p in r && p !in loop' {
        loop', work' := loop' + {p}, work' + [p];
      }
    }
  }

  lemma StartMembers(g: Graph, r: set<nat>, latch: nat, header: nat)
    requires Wf(g) && IsReachableSet(g, r) && latch in r && header in r
    ensures Member(g, r, latch, header, latch) && Member(g, r, latch, header, header)
  {
    ReachesBounds(g, 0, latch);
    ReachesSelf(g, latch);
    if latch != header {
      assert PathFromTo(g, [latch], latch, latch) && header !in [latch];
    }
  }

  /** A reachable predecessor of a member other than the header is a member. */
  lemma PredecessorIsMember(g: Graph, preds: seq<set<nat>>, r: set<nat>, latch: nat, header: nat, x: nat, p: nat)
    requires Wf(g) && IsPredecessorTable(g, preds) && x < |g| && p in preds[x] && p in r
    requires Member(g, r, latch, header, x) && (latch != header ==> x != header)
    ensures Member(g, r, latch, header, p)
  {
    if latch == header {
      var q :| PathFromTo(g, q, x, header);
      PathCons(g, p, q, x, header);
    } else if p != header {
      var q :| PathFromTo(g, q, x, latch) && header !in q;
      PathCons(g, p, q, x, latch);
      assert header !in [p] + q;
    }
  }

  lemma {:induction false} PathIsFound(g: Graph, preds: seq<set<nat>>, r: set<nat>, latch: nat, header: nat, loop: set<nat>, p: seq<nat>)
    requires Wf(g) && IsPredecessorTable(g, preds) && IsReachableSet(g, r) && latch in loop
    requires forall x :: x in loop ==> x < |preds|
    requires Explored(preds, r, header, loop, [], latch == header)
    requires Path(g, p) && p[0] in r && p[|p| - 1] == latch && (latch != header ==> header !in p)
    ensures p[0] in loop
    decreases |p|
  {
    if |p| > 1 {
      assert StepAt(g, p, 0);
      PathSuffix(g, p, 1);
      ReachesEdge(g, 0, p[0], p[1]);
      PathIsFound(g, preds, r, latch, header, loop, p[1..]);
    }
  }

  lemma MemberFound(g: Graph, preds: seq<set<nat>>, r: set<nat>, latch: nat, header: nat, loop: set<nat>, x: nat)
    requires Wf(g) && IsPredecessorTable(g, preds) && IsReachableSet(g, r) && latch in loop && header in loop
    requires forall x :: x in loop ==> x < |preds|
    requires Explored(preds, r, header, loop, [], latch == header)
    requires Member(g, r, latch, header, x)
    ensures x in loop
  {
    if latch == header {
      var p :| PathFromTo(g, p, x, header);
      PathIsFound(g, preds, r, latch, header, loop, p);
    } else if x != header {
      var p :| PathFromTo(g, p, x, latch) && header !in p;
      PathIsFound(g, preds, r, latch, header, loop, p);
    }
  }

  // ---------- when the worklist yields the natural loop ----------

  lemma OnlySelfPredecessor(g: Graph, preds: seq<set<nat>>, r: set<nat>, h: nat, p: seq<nat>)
    requires Wf(g) && IsPredecessorTable(g, preds) && IsReachableSet(g, r) && h < |g| && preds[h] * r <= {h}
    requires Path(g, p) && p[0] in r && p[|p| - 1] == h
    ensures p[0] == h
    decreases |p|
  {
    if |p| > 1 {
      assert StepAt(g, p, 0);
      PathSuffix(g, p, 1);
      ReachesEdge(g, 0, p[0], p[1]);
      OnlySelfPredecessor(g, preds, r, h, p[1..]);
      assert p[0] in preds[h] * r;
    }
  }

  /** The result is the natural loop exactly when the edge is no self edge, or nothing else reachable enters its block. */
  lemma WorklistLoopIsNatural(g: Graph, preds: seq<set<nat>>, r: set<nat>, latch: nat, header: nat, loop: set<nat>)
    requires Wf(g) && IsPredecessorTable(g, preds) && IsReachableSet(g, r) && latch in r && header in r && header < |g|
    requires forall x: nat :: x in loop <==> Member(g, r, latch, header, x)
    ensures IsNaturalLoop(g, r, latch, header, loop) <==> latch != header || preds[header] * r <= {header}
  {
    if latch == header {
      forall x: nat ensures !ReachesAvoiding(g, x, latch, header) {
      }
      if preds[header] * r <= {header} {
        forall x: nat | x in loop ensures x == header {
          var p :| PathFromTo(g, p, x, header);
          OnlySelfPredecessor(g, preds, r, header, p);
        }
        ReachesSelf(g, header);
      } else {
        var p :| p in preds[header] * r && p != header;
        EdgeReaches(g, p, header);
        assert p in loop;
      }
    }
  }

  /** A block that jumps to itself behind the entry: the worklist takes in the entry, which is not in the natural loop. */
  lemma SelfEdgeTakesInEntry() returns (g: Graph, preds: seq<set<nat>>, r: set<nat>, loop: set<nat>)
    ensures Wf(g) && IsPredecessorTable(g, preds) && IsReachableSet(g, r) && IsBackEdge(g, r, (1, 1))
    ensures forall x: nat :: x in loop <==> Member(g, r, 1, 1, x)
    ensures 0 in loop && !IsNaturalLoop(g, r, 1, 1, loop)
  {
    g, preds, r, loop := [[1], [1]], [{}, {0, 1}], {0, 1}, {0, 1};
    ReachesSelf(g, 0);
    ReachesSelf(g, 1);
    EdgeReaches(g, 0, 1);
    forall b: nat | Reaches(g, 0, b) ensures b in r {
      ReachesBounds(g, 0, b);
    }
    WorklistLoopIsNatural(g, preds, r, 1, 1, loop);
  }

  /** The header of a back edge dominates its whole natural loop. */
  lemma HeaderDominatesLoop(g: Graph, r: set<nat>, latch: nat, header: nat, loop: set<nat>, x: nat)
    requires Wf(g) && Dominates(g, header, latch) && IsNaturalLoop(g, r, latch, header, loop) && x in loop
    ensures Dominates(g, header, x)
  {
    forall p | PathFromTo(g, p, 0, x) ensures header in p {
      if x != header {
        var q :| PathFromTo(g, q, x, latch) && header !in q;
        PathConcat(g, p, q, 0, x, latch);
        assert header in p + q[1..];
      }
    }
  }

  /** An edge whose target dominates its source. */
  ghost predicate IsBackEdge(g: Graph, r: set<nat>, e: (nat, nat)) {
    e.0 in r && Edge(g, e.0, e.1) && Dominates(g, e.1, e.0)
  }

  predicate EdgeBefore(e: (nat, nat), f: (nat, nat)) {
    e.0 < f.0 || (e.0 == f.0 && e.1 < f.1)
  }

  /** Each edge once, by source and then by target. */
  predicate EdgesInOrder(edges: seq<(nat, nat)>) {
    forall i, j {:trigger EdgeBefore(edges[i], edges[j])} :: 0 <= i < j < |edges| ==> EdgeBefore(edges[i], edges[j])
  }

  predicate SuccessorsAscending(g: Graph) {
    forall b :: 0 <= b < |g| ==> Ascending(g[b])
  }

  /** The next edge comes behind those of earlier blocks and of earlier successors of its own block. */
  lemma EdgeAppended(g: Graph, edges: seq<(nat, nat)>, block: nat, i: nat)
    requires SuccessorsAscending(g) && EdgesInOrder(edges) && block < |g| && i < |g[block]|
    requires forall e :: e in edges ==> e.0 < block || (e.0 == block && e.1 in g[block][..i])
    ensures EdgesInOrder(edges + [(block, g[block][i])])
  {
    var more := edges + [(block, g[block][i])];
    forall a, b | 0 <= a < b < |more| ensures EdgeBefore(more[a], more[b]) {
      if b < |edges| {
        assert EdgeBefore(edges[a], edges[b]);
      } else {
        assert edges[a] in edges;
      }
    }
  }

  /** Collects the back edges in block order, with the loop of each. */
  method FindLoops(g: Graph, preds: seq<set<nat>>, r: set<nat>, dom: seq<set<nat>>)
    returns (backEdges: seq<(nat, nat)>, loops: seq<set<nat>>)
    requires Wf(g) && IsPredecessorTable(g, preds) && IsReachableSet(g, r) && IsDominatorTable(g, r, dom)
    ensures forall e: (nat, nat) :: e in backEdges <==> IsBackEdge(g, r, e)
    ensures SuccessorsAscending(g) ==> EdgesInOrder(backEdges)
    ensures |loops| == |backEdges|
    ensures forall k, x: nat :: 0 <= k < |loops| ==> (x in loops[k] <==> Member(g, r, backEdges[k].0, backEdges[k].1, x))
  {
    backEdges, loops := [], [];
    var block := 0;
    while block < |g|
      invariant 0 <= block <= |g| && |loops| == |backEdges|
      invariant forall e: (nat, nat) :: e in backEdges <==> e.0 < block && IsBackEdge(g, r, e)
      invariant SuccessorsAscending(g) ==> EdgesInOrder(backEdges)
      invariant forall k, x: nat :: 0 <= k < |loops| ==> (x in loops[k] <==> Member(g, r, backEdges[k].0, backEdges[k].1, x))
    {
      var i := 0;
      while i < |g[block]|
        invariant 0 <= i <= |g[block]| && |loops| == |backEdges| && (SuccessorsAscending(g) ==> EdgesInOrder(backEdges))
        invariant forall e: (nat, nat) :: e in backEdges <==>
            IsBackEdge(g, r, e) && (e.0 < block || (e.0 == block && e.1 in g[block][..i]))
        invariant forall k, x: nat :: 0 <= k < |loops| ==> (x in loops[k] <==> Member(g, r, backEdges[k].0, backEdges[k].1, x))
      {
        var successor := g[block][i];
        assert g[block][..i + 1] == g[block][..i] + [successor];
        assert Edge(g, block, successor);
        if successor in r && successor in dom[block] {
          var loop := WorklistLoop(g, preds, r, block, successor);
          if SuccessorsAscending(g) {
            EdgeAppended(g, backEdges, block, i);
          }
          backEdges, loops := backEdges + [(block, successor)], loops + [loop];
        } else {
          NotBackEdge(g, r, dom, block, successor);
        }
        i := i + 1;
      }
      assert g[block][..i] == g[block];
      block := block + 1;
    }
  }

  lemma NotBackEdge(g: Graph, r: set<nat>, dom: seq<set<nat>>, a: nat, b: nat)
    requires Wf(g) && IsReachableSet(g, r) && IsDominatorTable(g, r, dom) && Edge(g, a, b) && !(b in r && b in dom[a])
    ensures !IsBackEdge(g, r, (a, b))
  {
    if a in r {
      ReachesEdge(g, 0, a, b);
    }
  }
}
