/** A graph in which the smallest loop around a loop is not the innermost one. */
module CrossingLoops {
  import opened Graphs
  import opened Dominators
  import opened NaturalLoops
  import opened LoopTheory
  import opened Loops

  /** A loop of blocks 1 and 2, and from each of them a way to a block that jumps to itself. */
  predicate Arc(a: nat, b: nat) {
    (a == 0 && b == 1) || (a == 1 && (b == 2 || b == 3)) || (a == 2 && (b == 1 || b == 4)) || (a == 3 && b == 3) || (a == 4 && b == 4)
  }

  ghost predicate Example(g: Graph, r: set<nat>) {
    |g| == 5 && Wf(g) && r == {0, 1, 2, 3, 4} && forall a: nat, b: nat {:trigger Edge(g, a, b)} :: Edge(g, a, b) <==> Arc(a, b)
  }

  lemma ExampleExists() returns (g: Graph, r: set<nat>)
    ensures Example(g, r)
  {
    g, r := [[1], [2, 3], [1, 4], [3], [4]], {0, 1, 2, 3, 4};
    assert forall b :: b in g[0] <==> Arc(0, b);
    assert forall b :: b in g[1] <==> Arc(1, b);
    assert forall b :: b in g[2] <==> Arc(2, b);
    assert forall b :: b in g[3] <==> Arc(3, b);
    assert forall b :: b in g[4] <==> Arc(4, b);
  }

  lemma AllReachable(g: Graph, r: set<nat>)
    requires Example(g, r)
    ensures IsReachableSet(g, r)
    ensures Reaches(g, 1, 3) && Reaches(g, 2, 3) && Reaches(g, 1, 4) && Reaches(g, 2, 4) && Reaches(g, 0, 3) && Reaches(g, 0, 4)
  {
    ReachesSelf(g, 0);
    EdgeReaches(g, 0, 1);
    ReachesEdge(g, 0, 1, 2);
    ReachesEdge(g, 0, 1, 3);
    ReachesEdge(g, 0, 2, 4);
    EdgeReaches(g, 1, 3);
    EdgeReaches(g, 2, 4);
    EdgeReaches(g, 2, 1);
    EdgeReaches(g, 1, 2);
    ReachesTrans(g, 2, 1, 3);
    ReachesTrans(g, 1, 2, 4);
    forall b: nat | Reaches(g, 0, b) ensures b in r {
      ReachesBounds(g, 0, b);
    }
  }

  // ---------- back edges ----------

  lemma NotDominated(g: Graph, r: set<nat>)
    requires Example(g, r)
    ensures !Dominates(g, 1, 0) && !Dominates(g, 2, 1) && !Dominates(g, 3, 1) && !Dominates(g, 4, 2)
  {
    assert PathFromTo(g, [0], 0, 0) && 1 !in [0];
    PathSnoc(g, [0], 0, 0, 1);
    assert PathFromTo(g, [0] + [1], 0, 1) && 2 !in [0] + [1] && 3 !in [0] + [1];
    PathSnoc(g, [0] + [1], 0, 1, 2);
    assert PathFromTo(g, [0] + [1] + [2], 0, 2) && 4 !in [0] + [1] + [2];
  }

  /** Block 2 is entered from block 1 only. */
  lemma OneBeforeTwo(g: Graph, r: set<nat>, p: seq<nat>)
    requires Example(g, r) && Path(g, p) && p[|p| - 1] == 2 && |p| > 1
    ensures 1 in p
  {
    assert StepAt(g, p, |p| - 2);
    assert Edge(g, p[|p| - 2], 2);
  }

  lemma BackEdges(g: Graph, r: set<nat>, a: nat, b: nat)
    requires Example(g, r)
    ensures IsBackEdge(g, r, (a, b)) <==> (a == 2 && b == 1) || (a == 3 && b == 3) || (a == 4 && b == 4)
  {
    NotDominated(g, r);
    forall p | PathFromTo(g, p, 0, 2) ensures 1 in p {
      OneBeforeTwo(g, r, p);
    }
    assert Edge(g, a, b) <==> Arc(a, b);
  }

  // ---------- the three loops ----------

  lemma InnerLoop(g: Graph, r: set<nat>, x: nat)
    requires Example(g, r)
    ensures InLoop(g, r, 1, x) <==> x == 1 || x == 2
  {
    forall a: nat ensures IsBackEdge(g, r, (a, 1)) <==> a == 2 {
      BackEdges(g, r, a, 1);
    }
    assert InLoop(g, r, 1, x) <==> Member(g, r, 2, 1, x);
    assert PathFromTo(g, [2], 2, 2) && 1 !in [2];
    if ReachesAvoiding(g, x, 2, 1) {
      var p :| PathFromTo(g, p, x, 2) && 1 !in p;
      if |p| > 1 {
        OneBeforeTwo(g, r, p);
      }
    }
  }

  lemma OuterLoop(g: Graph, r: set<nat>, h: nat, other: nat, x: nat)
    requires Example(g, r) && IsReachableSet(g, r) && (h == 3 || h == 4) && other == 7 - h
    ensures InLoop(g, r, h, x) <==> x in r && x != other
    ensures !Reaches(g, other, h)
  {
    AllReachable(g, r);
    ReachesSelf(g, h);
    SelfEdgeLoop(g, r, h, x);
    forall a: nat, b: nat | a in {other} && Edge(g, a, b) ensures b in {other} {
    }
    if Reaches(g, other, h) {
      ClosedReaches(g, {other}, other, h);
    }
  }

  function Inner(): Loop {
    Loop(1, [(2, 1)], {2}, {1, 2}, 0, {3, 4})
  }

  function Outer(h: nat, other: nat): Loop {
    Loop(h, [(h, h)], {h}, {0, 1, 2, h}, -1, {other})
  }

  lemma InnerOk(g: Graph, r: set<nat>)
    requires Example(g, r) && IsReachableSet(g, r)
    ensures LoopOk(g, r, Inner())
  {
    var l := Inner();
    forall x: nat ensures IsBackEdge(g, r, (x, 1)) <==> x == 2 {
      BackEdges(g, r, x, 1);
    }
    assert IsBackEdge(g, r, (2, 1));
    forall x: nat ensures x in l.blocks <==> InLoop(g, r, 1, x) {
      InnerLoop(g, r, x);
    }
    assert LeavesTo(g, l, 1, 3) && LeavesTo(g, l, 2, 4);
    assert forall p: nat :: Outside(g, l, p) <==> p == 0;
    assert OnlyOutside(g, l, 0);
  }

  lemma OuterOk(g: Graph, r: set<nat>, h: nat, other: nat)
    requires Example(g, r) && IsReachableSet(g, r) && (h == 3 || h == 4) && other == 7 - h
    ensures LoopOk(g, r, Outer(h, other))
  {
    var l := Outer(h, other);
    forall x: nat ensures IsBackEdge(g, r, (x, h)) <==> x == h {
      BackEdges(g, r, x, h);
    }
    assert IsBackEdge(g, r, (h, h));
    forall x: nat ensures x in l.blocks <==> InLoop(g, r, h, x) {
      OuterLoop(g, r, h, other, x);
    }
    assert LeavesTo(g, l, if other == 3 then 1 else 2, other);
    assert forall p: nat :: !Outside(g, l, p);
    forall p: nat ensures !OnlyOutside(g, l, p) {
      assert !Outside(g, l, p);
    }
  }

  function Table(): seq<Loop> {
    [Inner(), Outer(3, 4), Outer(4, 3)]
  }

  lemma TableOk(g: Graph, r: set<nat>)
    requires Example(g, r) && IsReachableSet(g, r)
    ensures IsLoopTable(g, r, Table())
  {
    InnerOk(g, r);
    OuterOk(g, r, 3, 4);
    OuterOk(g, r, 4, 3);
    var loops := Table();
    forall h: nat ensures HasHeader(loops, h) <==> IsHeader(g, r, h) {
      assert loops[0].header == 1 && loops[1].header == 3 && loops[2].header == 4;
      if IsHeader(g, r, h) {
        var latch: nat :| IsBackEdge(g, r, (latch, h));
        BackEdges(g, r, latch, h);
      }
    }
  }

  // ---------- the failure ----------

  lemma NotCovered(g: Graph, r: set<nat>)
    requires Example(g, r) && IsReachableSet(g, r)
    ensures !CrossingsCovered(g, Table(), 0) && !NoneCrossing(g, Table(), 0)
  {
    var loops := Table();
    OuterLoop(g, r, 3, 4, 0);
    OuterLoop(g, r, 4, 3, 0);
    assert Crossing(g, loops[1].header, loops[2].header);
    assert 1 in loops[0].blocks && 0 !in loops[0].blocks;
    assert 1 in Around(loops, 0) && 2 in Around(loops, 0);
    forall k: nat ensures !InsideBoth(loops, 0, 1, 2, k) {
      assert 3 in loops[1].blocks && 3 !in loops[2].blocks && 4 in loops[2].blocks && 4 !in loops[1].blocks;
    }
  }

  /**
   The loop of blocks 1 and 2 lies inside two loops of which neither contains the other: whichever is recorded as its
   parent, the parent is not innermost, and the chain of scopes misses the other one.
   */
  lemma ParentMayNotBeInnermost() returns (g: Graph, r: set<nat>, loops: seq<Loop>)
    ensures Wf(g) && IsReachableSet(g, r) && IsLoopTable(g, r, loops) && loops != []
    ensures forall parent: nat :: IsScopeParent(loops, 0, parent) ==> !ParentInnermost(loops, 0, parent)
    ensures forall parents :: AreScopeParents(loops, parents) ==> !ChainComplete(loops, parents, 0)
  {
    g, r := ExampleExists();
    AllReachable(g, r);
    TableOk(g, r);
    NotCovered(g, r);
    loops := Table();
    forall parent: nat | IsScopeParent(loops, 0, parent) ensures !ParentInnermost(loops, 0, parent) {
      ParentIsInnermostIff(g, r, loops, 0, parent);
    }
    forall parents | AreScopeParents(loops, parents) ensures !ChainComplete(loops, parents, 0) {
      ChainIsCompleteIff(g, r, loops, parents, 0);
    }
  }
}
