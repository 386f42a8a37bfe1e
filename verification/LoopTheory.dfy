/** How the loops of different headers lie to each other, and how control enters them. */
module LoopTheory {
  import opened Graphs
  import opened Dominators
  import opened ImmediateDominators
  import opened NaturalLoops

  /** In the merged loop of a header: in what the worklist yields for one of its back edges. */
  ghost predicate InLoop(g: Graph, r: set<nat>, h: nat, x: nat) {
    exists latch: nat :: IsBackEdge(g, r, (latch, h)) && Member(g, r, latch, h, x)
  }

  ghost predicate IsHeader(g: Graph, r: set<nat>, h: nat) {
    exists latch: nat :: IsBackEdge(g, r, (latch, h))
  }

  ghost predicate Inside(g: Graph, r: set<nat>, inner: nat, outer: nat) {
    forall x: nat {:trigger InLoop(g, r, inner, x)} :: InLoop(g, r, inner, x) ==> InLoop(g, r, outer, x)
  }

  ghost predicate Disjoint(g: Graph, r: set<nat>, h1: nat, h2: nat) {
    forall x: nat {:trigger InLoop(g, r, h1, x)} :: InLoop(g, r, h1, x) ==> !InLoop(g, r, h2, x)
  }

  lemma HeaderInOwnLoop(g: Graph, r: set<nat>, h: nat)
    requires Wf(g) && IsReachableSet(g, r) && IsHeader(g, r, h)
    ensures h in r && h < |g| && InLoop(g, r, h, h)
  {
    var latch: nat :| IsBackEdge(g, r, (latch, h));
    ReachesEdge(g, 0, latch, h);
    ReachesBounds(g, 0, h);
    StartMembers(g, r, latch, h);
    assert Member(g, r, latch, h, h);
  }

  // ---------- walks that avoid a block ----------

  lemma AvoidConcat(g: Graph, a: nat, b: nat, c: nat, x: nat)
    requires ReachesAvoiding(g, a, b, x) && ReachesAvoiding(g, b, c, x)
    ensures ReachesAvoiding(g, a, c, x)
  {
    var p :| PathFromTo(g, p, a, b) && x !in p;
    var q :| PathFromTo(g, q, b, c) && x !in q;
    PathConcat(g, p, q, a, b, c);
    assert x !in p + q[1..];
  }

  lemma AvoidEdge(g: Graph, a: nat, b: nat, c: nat, x: nat)
    requires ReachesAvoiding(g, a, b, x) && Edge(g, b, c) && c != x
    ensures ReachesAvoiding(g, a, c, x)
  {
    var p :| PathFromTo(g, p, a, b) && x !in p;
    PathSnoc(g, p, a, b, c);
    assert x !in p + [c];
  }

  /** A strict dominator is itself reached without what it dominates. */
  lemma ReachedBefore(g: Graph, r: set<nat>, h1: nat, h2: nat)
    requires IsReachableSet(g, r) && h1 in r && Dominates(g, h1, h2) && h1 != h2
    ensures ReachesAvoiding(g, 0, h1, h2)
  {
    if Dominates(g, h2, h1) {
      DominatesAntisymmetric(g, r, h1, h2);
    }
  }

  /** A walk that stays behind `h2` stays behind what strictly dominates `h2`. */
  lemma StaysBehind(g: Graph, r: set<nat>, h1: nat, h2: nat, q: seq<nat>, y: nat, latch: nat)
    requires Wf(g) && IsReachableSet(g, r) && h1 in r && h1 != h2 && Dominates(g, h1, h2) && Dominates(g, h2, latch)
    requires PathFromTo(g, q, y, latch) && h2 !in q
    ensures h1 !in q
  {
    if h1 in q {
      var i :| 0 <= i < |q| && q[i] == h1;
      PathSuffix(g, q, i);
      ReachedBefore(g, r, h1, h2);
      assert PathFromTo(g, q[i..], h1, latch) && h2 !in q[i..];
      AvoidConcat(g, 0, h1, latch, h2);
    }
  }

  /** From a block to what it dominates without passing what strictly dominates it. */
  lemma ReachesDominated(g: Graph, r: set<nat>, h1: nat, h2: nat, x: nat)
    requires Wf(g) && IsReachableSet(g, r) && h1 in r && x in r && h1 != h2 && Dominates(g, h1, h2) && Dominates(g, h2, x)
    ensures ReachesAvoiding(g, h2, x, h1)
  {
    var p :| PathFromTo(g, p, 0, x);
    DominatesTransitive(g, h1, h2, x);
    var i := LastOfEither(p, h1, h2);
    if p[i] == h1 {
      ReachedBefore(g, r, h1, h2);
      var toH1 :| PathFromTo(g, toH1, 0, h1) && h2 !in toH1;
      SpliceAvoids(g, p, i, toH1, x, h2);
    } else {
      PathSuffix(g, p, i);
      assert p[i..] == [p[i]] + p[i + 1..];
    }
  }

  // ---------- loops without a self edge at the header ----------

  lemma MemberDominated(g: Graph, r: set<nat>, latch: nat, h: nat, x: nat)
    requires Wf(g) && latch != h && IsBackEdge(g, r, (latch, h)) && Member(g, r, latch, h, x)
    ensures Dominates(g, h, x)
  {
    forall p | PathFromTo(g, p, 0, x) ensures h in p {
      if x != h && h !in p {
        AvoidConcat(g, 0, x, latch, h);
      }
    }
  }

  /** The header dominates a member, unless it has a self edge. */
  lemma HeaderDominates(g: Graph, r: set<nat>, h: nat, x: nat)
    requires Wf(g) && !Edge(g, h, h) && InLoop(g, r, h, x)
    ensures Dominates(g, h, x) && x in r
  {
    var latch: nat :| IsBackEdge(g, r, (latch, h)) && Member(g, r, latch, h, x);
    MemberDominated(g, r, latch, h, x);
  }

  /** The dominated header's loop, seen from a block the loops share. */
  lemma SharedLeadsIn(g: Graph, r: set<nat>, h1: nat, latch: nat, h2: nat, x: nat)
    requires Wf(g) && IsReachableSet(g, r) && h1 in r && h1 != h2 && Dominates(g, h1, h2)
    requires latch != h1 && IsBackEdge(g, r, (latch, h1)) && Member(g, r, latch, h1, x) && Dominates(g, h2, x)
    ensures ReachesAvoiding(g, h2, latch, h1)
  {
    if x == h1 {
      DominatesAntisymmetric(g, r, h1, h2);
    }
    ReachesDominated(g, r, h1, h2, x);
    AvoidConcat(g, h2, x, latch, h1);
  }

  lemma InnerMember(g: Graph, r: set<nat>, h1: nat, latch: nat, h2: nat, y: nat)
    requires Wf(g) && IsReachableSet(g, r) && h1 in r && h1 != h2 && Dominates(g, h1, h2) && !Edge(g, h2, h2)
    requires IsBackEdge(g, r, (latch, h1)) && latch != h1 && ReachesAvoiding(g, h2, latch, h1) && InLoop(g, r, h2, y)
    ensures InLoop(g, r, h1, y)
  {
    var l2: nat :| IsBackEdge(g, r, (l2, h2)) && Member(g, r, l2, h2, y);
    if y != h2 {
      var q :| PathFromTo(g, q, y, l2) && h2 !in q;
      StaysBehind(g, r, h1, h2, q, y, l2);
      AvoidEdge(g, y, l2, h2, h1);
      AvoidConcat(g, y, h2, latch, h1);
    }
    assert Member(g, r, latch, h1, y);
  }

  /** Of two loops with a common block, that of the dominated header lies inside the other, and leaves out its header. */
  lemma LoopsNest(g: Graph, r: set<nat>, h1: nat, h2: nat, x: nat)
    requires Wf(g) && IsReachableSet(g, r) && h1 != h2 && !Edge(g, h1, h1) && !Edge(g, h2, h2)
    requires InLoop(g, r, h1, x) && InLoop(g, r, h2, x) && Dominates(g, h1, h2)
    ensures Inside(g, r, h2, h1) && !InLoop(g, r, h2, h1)
  {
    HeaderDominates(g, r, h1, x);
    HeaderDominates(g, r, h2, x);
    assert IsHeader(g, r, h1);
    HeaderInOwnLoop(g, r, h1);
    var latch: nat :| IsBackEdge(g, r, (latch, h1)) && Member(g, r, latch, h1, x);
    SharedLeadsIn(g, r, h1, latch, h2, x);
    forall y: nat | InLoop(g, r, h2, y) ensures InLoop(g, r, h1, y) {
      InnerMember(g, r, h1, latch, h2, y);
    }
    if InLoop(g, r, h2, h1) {
      HeaderDominates(g, r, h2, h1);
      DominatesAntisymmetric(g, r, h1, h2);
    }
  }

  lemma ProperLoopsNest(g: Graph, r: set<nat>, h1: nat, h2: nat, x: nat)
    requires Wf(g) && IsReachableSet(g, r) && h1 != h2 && !Edge(g, h1, h1) && !Edge(g, h2, h2)
    requires InLoop(g, r, h1, x) && InLoop(g, r, h2, x)
    ensures Inside(g, r, h2, h1) || Inside(g, r, h1, h2)
  {
    HeaderDominates(g, r, h1, x);
    HeaderDominates(g, r, h2, x);
    DominatorsOrdered(g, r, h1, h2, x);
    if Dominates(g, h1, h2) {
      LoopsNest(g, r, h1, h2, x);
    } else {
      LoopsNest(g, r, h2, h1, x);
    }
  }

  // ---------- loops with a self edge at the header ----------

  /** Every member leads to the header. */
  lemma MemberReachesHeader(g: Graph, r: set<nat>, h: nat, x: nat)
    requires Wf(g) && IsReachableSet(g, r) && InLoop(g, r, h, x)
    ensures x in r && Reaches(g, x, h)
  {
    var latch: nat :| IsBackEdge(g, r, (latch, h)) && Member(g, r, latch, h, x);
    if x == h {
      ReachesBounds(g, 0, x);
      ReachesSelf(g, x);
    } else if latch != h {
      ReachesEdge(g, x, latch, h);
    }
  }

  /** With a self edge at the header, everything that leads there is in the loop. */
  lemma SelfEdgeLoop(g: Graph, r: set<nat>, h: nat, x: nat)
    requires Wf(g) && IsReachableSet(g, r) && h in r && Edge(g, h, h)
    ensures InLoop(g, r, h, x) <==> x in r && Reaches(g, x, h)
  {
    assert IsBackEdge(g, r, (h, h));
    if InLoop(g, r, h, x) {
      MemberReachesHeader(g, r, h, x);
    }
    if x in r && Reaches(g, x, h) {
      assert Member(g, r, h, h, x);
    }
  }

  /** Control enters a loop at its header only: a step to any other member comes from a member. */
  lemma LoopEnteredAtHeader(g: Graph, r: set<nat>, h: nat, x: nat, y: nat)
    requires Wf(g) && IsReachableSet(g, r) && x in r && Edge(g, x, y) && InLoop(g, r, h, y) && y != h
    ensures InLoop(g, r, h, x)
  {
    if Edge(g, h, h) {
      assert IsHeader(g, r, h);
      HeaderInOwnLoop(g, r, h);
      MemberReachesHeader(g, r, h, y);
      EdgeReaches(g, x, y);
      ReachesTrans(g, x, y, h);
      SelfEdgeLoop(g, r, h, x);
    } else {
      var latch: nat :| IsBackEdge(g, r, (latch, h)) && Member(g, r, latch, h, y);
      var q :| PathFromTo(g, q, y, latch) && h !in q;
      PathCons(g, x, q, y, latch);
      assert x != h ==> h !in [x] + q;
      assert Member(g, r, latch, h, x);
    }
  }

  /** The header dominates its whole loop exactly if it is the entry or has no self edge: such a loop takes in the entry. */
  lemma HeaderDominatesIff(g: Graph, r: set<nat>, h: nat)
    requires Wf(g) && |g| > 0 && IsReachableSet(g, r) && IsHeader(g, r, h)
    ensures (forall x: nat :: InLoop(g, r, h, x) ==> Dominates(g, h, x)) <==> h == 0 || !Edge(g, h, h)
  {
    HeaderInOwnLoop(g, r, h);
    if h != 0 && Edge(g, h, h) {
      ReachesSelf(g, 0);
      SelfEdgeLoop(g, r, h, 0);
      assert PathFromTo(g, [0], 0, 0) && h !in [0];
      assert InLoop(g, r, h, 0) && !Dominates(g, h, 0);
    } else if h != 0 {
      forall x: nat | InLoop(g, r, h, x) ensures Dominates(g, h, x) {
        HeaderDominates(g, r, h, x);
      }
    }
  }

  /** The header leads to the members of its loop, unless it has a self edge. */
  lemma HeaderReachesMember(g: Graph, r: set<nat>, h: nat, x: nat)
    requires Wf(g) && IsReachableSet(g, r) && !Edge(g, h, h) && InLoop(g, r, h, x)
    ensures Reaches(g, h, x)
  {
    HeaderDominates(g, r, h, x);
    var p :| PathFromTo(g, p, 0, x);
    var i :| 0 <= i < |p| && p[i] == h;
    PathSuffix(g, p, i);
  }

  lemma InsideSelfEdgeLoop(g: Graph, r: set<nat>, inner: nat, h: nat)
    requires Wf(g) && IsReachableSet(g, r) && h in r && Edge(g, h, h) && Reaches(g, inner, h)
    ensures Inside(g, r, inner, h)
  {
    forall x: nat | InLoop(g, r, inner, x) ensures InLoop(g, r, h, x) {
      MemberReachesHeader(g, r, inner, x);
      ReachesTrans(g, x, inner, h);
      SelfEdgeLoop(g, r, h, x);
    }
  }

  /** A loop and one with a self edge are disjoint, or the former lies inside the latter. */
  lemma SelfEdgeSwallows(g: Graph, r: set<nat>, inner: nat, h: nat, x: nat)
    requires Wf(g) && IsReachableSet(g, r) && h in r && Edge(g, h, h) && !Edge(g, inner, inner)
    requires InLoop(g, r, inner, x) && InLoop(g, r, h, x)
    ensures Inside(g, r, inner, h)
  {
    HeaderReachesMember(g, r, inner, x);
    MemberReachesHeader(g, r, h, x);
    ReachesTrans(g, inner, x, h);
    InsideSelfEdgeLoop(g, r, inner, h);
  }

  /** The two headers have self edges, and neither leads to the other. */
  ghost predicate Crossing(g: Graph, h1: nat, h2: nat) {
    Edge(g, h1, h1) && Edge(g, h2, h2) && !Reaches(g, h1, h2) && !Reaches(g, h2, h1)
  }

  lemma CrossingLoopsCross(g: Graph, r: set<nat>, h1: nat, h2: nat)
    requires Wf(g) && IsReachableSet(g, r) && IsHeader(g, r, h1) && IsHeader(g, r, h2) && Crossing(g, h1, h2)
    ensures InLoop(g, r, h1, 0) && InLoop(g, r, h2, 0) && !InLoop(g, r, h2, h1) && !InLoop(g, r, h1, h2)
  {
    HeaderInOwnLoop(g, r, h1);
    HeaderInOwnLoop(g, r, h2);
    ReachesSelf(g, 0);
    SelfEdgeLoop(g, r, h1, 0);
    SelfEdgeLoop(g, r, h2, 0);
    SelfEdgeLoop(g, r, h2, h1);
    SelfEdgeLoop(g, r, h1, h2);
  }

  lemma SharingLoopsNest(g: Graph, r: set<nat>, h1: nat, h2: nat, x: nat)
    requires Wf(g) && IsReachableSet(g, r) && IsHeader(g, r, h1) && IsHeader(g, r, h2) && h1 != h2 && !Crossing(g, h1, h2)
    requires InLoop(g, r, h1, x) && InLoop(g, r, h2, x)
    ensures Inside(g, r, h1, h2) || Inside(g, r, h2, h1)
  {
    HeaderInOwnLoop(g, r, h1);
    HeaderInOwnLoop(g, r, h2);
    if Edge(g, h1, h1) && Edge(g, h2, h2) {
      if Reaches(g, h1, h2) {
        InsideSelfEdgeLoop(g, r, h1, h2);
      } else {
        InsideSelfEdgeLoop(g, r, h2, h1);
      }
    } else if Edge(g, h2, h2) {
      SelfEdgeSwallows(g, r, h1, h2, x);
    } else if Edge(g, h1, h1) {
      SelfEdgeSwallows(g, r, h2, h1, x);
    } else {
      ProperLoopsNest(g, r, h1, h2, x);
    }
  }

  /** Two loops are disjoint or nested exactly if their headers do not both have self edges and lead to neither side. */
  lemma NestedOrDisjointIff(g: Graph, r: set<nat>, h1: nat, h2: nat)
    requires Wf(g) && IsReachableSet(g, r) && IsHeader(g, r, h1) && IsHeader(g, r, h2) && h1 != h2
    ensures Disjoint(g, r, h1, h2) || Inside(g, r, h1, h2) || Inside(g, r, h2, h1) <==> !Crossing(g, h1, h2)
  {
    if Crossing(g, h1, h2) {
      CrossingLoopsCross(g, r, h1, h2);
      HeaderInOwnLoop(g, r, h1);
      HeaderInOwnLoop(g, r, h2);
    } else if !Disjoint(g, r, h1, h2) {
      var x: nat :| InLoop(g, r, h1, x) && InLoop(g, r, h2, x);
      SharingLoopsNest(g, r, h1, h2, x);
    }
  }

  /** Two branches with a self edge each: their loops share the entry and neither contains the other. */
  lemma LoopsMayCross() returns (g: Graph, r: set<nat>)
    ensures Wf(g) && IsReachableSet(g, r) && IsHeader(g, r, 1) && IsHeader(g, r, 2)
    ensures !Disjoint(g, r, 1, 2) && !Inside(g, r, 1, 2) && !Inside(g, r, 2, 1)
  {
    g, r := [[1, 2], [1], [2]], {0, 1, 2};
    ReachesSelf(g, 0);
    EdgeReaches(g, 0, 1);
    EdgeReaches(g, 0, 2);
    forall b: nat | Reaches(g, 0, b) ensures b in r {
      ReachesBounds(g, 0, b);
    }
    assert IsBackEdge(g, r, (1, 1)) && IsBackEdge(g, r, (2, 2));
    if Reaches(g, 1, 2) {
      ClosedReaches(g, {1}, 1, 2);
    }
    if Reaches(g, 2, 1) {
      ClosedReaches(g, {2}, 2, 1);
    }
    NestedOrDisjointIff(g, r, 1, 2);
  }
}
