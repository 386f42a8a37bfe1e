/** The loops of a function, one per header, and the scopes they nest in. */
module Loops {
  import opened Graphs
  import opened Dominators
  import opened ImmediateDominators
  import opened NaturalLoops
  import opened LoopTheory
  import MustPass

  /** All back edges to one header, and the blocks of their natural loops; `preheader` is -1 if there is none. */
  datatype Loop = Loop(header: nat, backEdges: seq<(nat, nat)>, latches: set<nat>, blocks: set<nat>, preheader: int, exits: set<nat>)

  // ---------- merging by header ----------

  function EdgesTo(edges: seq<(nat, nat)>, h: nat): seq<(nat, nat)> {
    if edges == [] then []
    else
      var last := edges[|edges| - 1];
      EdgesTo(edges[..|edges| - 1], h) + if last.1 == h then [last] else []
  }

  ghost predicate Feeds(edges: seq<(nat, nat)>, natural: seq<set<nat>>, h: nat, x: nat, k: nat)
    requires k < |edges| <= |natural|
  {
    edges[k].1 == h && x in natural[k]
  }

  /** Some natural loop of the header has the block. */
  ghost predicate Fed(edges: seq<(nat, nat)>, natural: seq<set<nat>>, h: nat, x: nat)
    requires |edges| <= |natural|
  {
    exists k: nat :: k < |edges| && Feeds(edges, natural, h, x, k)
  }

  /** `l` is what the edges to its header make it, before exits and preheader are known. */
  ghost predicate MergedLoop(edges: seq<(nat, nat)>, natural: seq<set<nat>>, l: Loop)
    requires |edges| <= |natural|
  {
    && l.backEdges == EdgesTo(edges, l.header)
    && (forall x: nat :: x in l.latches <==> (x, l.header) in edges)
    && (forall x: nat :: x in l.blocks <==> Fed(edges, natural, l.header, x))
  }

  ghost predicate HasEdgeTo(edges: seq<(nat, nat)>, h: nat) {
    exists latch: nat :: (latch, h) in edges
  }

  ghost predicate HeadersDistinct(loops: seq<Loop>) {
    forall i, j :: 0 <= i < j < |loops| ==> loops[i].header != loops[j].header
  }

  predicate HasHeader(loops: seq<Loop>, h: nat) {
    exists i :: 0 <= i < |loops| && loops[i].header == h
  }

  /** One loop for each header of an edge. */
  ghost predicate Merged(edges: seq<(nat, nat)>, natural: seq<set<nat>>, loops: seq<Loop>)
    requires |edges| <= |natural|
  {
    && HeadersDistinct(loops)
    && (forall h: nat :: HasHeader(loops, h) <==> HasEdgeTo(edges, h))
    && (forall i :: 0 <= i < |loops| ==> MergedLoop(edges, natural, loops[i]))
  }

  function AddEdge(l: Loop, e: (nat, nat), members: set<nat>): Loop {
    l.(backEdges := l.backEdges + [e], latches := l.latches + {e.0}, blocks := l.blocks + members)
  }

  lemma FedSnoc(edges: seq<(nat, nat)>, natural: seq<set<nat>>, h: nat, x: nat, e: (nat, nat))
    requires |edges| < |natural|
    ensures Fed(edges + [e], natural, h, x) <==> (e.1 == h && x in natural[|edges|]) || Fed(edges, natural, h, x)
  {
    var more := edges + [e];
    if Fed(edges, natural, h, x) {
      var k: nat :| k < |edges| && Feeds(edges, natural, h, x, k);
      assert Feeds(more, natural, h, x, k);
    }
    if e.1 == h && x in natural[|edges|] {
      assert Feeds(more, natural, h, x, |edges|);
    }
    if Fed(more, natural, h, x) {
      var k: nat :| k < |more| && Feeds(more, natural, h, x, k);
      assert k < |edges| ==> Feeds(edges, natural, h, x, k);
    }
  }

  lemma EdgesToSnoc(edges: seq<(nat, nat)>, h: nat, e: (nat, nat))
    ensures EdgesTo(edges + [e], h) == EdgesTo(edges, h) + if e.1 == h then [e] else []
  {
    assert (edges + [e])[..|edges|] == edges;
  }

  /** An edge goes into the loop of its header and leaves the others alone. */
  lemma MergedLoopStep(edges: seq<(nat, nat)>, natural: seq<set<nat>>, l: Loop, e: (nat, nat))
    requires |edges| < |natural| && MergedLoop(edges, natural, l)
    ensures MergedLoop(edges + [e], natural, if l.header == e.1 then AddEdge(l, e, natural[|edges|]) else l)
  {
    EdgesToSnoc(edges, l.header, e);
    forall x: nat
      ensures Fed(edges + [e], natural, l.header, x) <==> (e.1 == l.header && x in natural[|edges|]) || Fed(edges, natural, l.header, x)
    {
      FedSnoc(edges, natural, l.header, x, e);
    }
  }

  lemma {:induction false} NoEdgesTo(edges: seq<(nat, nat)>, h: nat)
    requires forall e :: e in edges ==> e.1 != h
    ensures EdgesTo(edges, h) == []
    decreases |edges|
  {
    if edges != [] {
      NoEdgesTo(edges[..|edges| - 1], h);
    }
  }

  lemma EmptyLoopIsMerged(edges: seq<(nat, nat)>, natural: seq<set<nat>>, h: nat)
    requires |edges| <= |natural| && !HasEdgeTo(edges, h)
    ensures MergedLoop(edges, natural, Loop(h, [], {}, {}, -1, {}))
  {
    forall e | e in edges ensures e.1 != h {
      assert (e.0, h) !in edges;
    }
    NoEdgesTo(edges, h);
  }

  method FindHeader(loops: seq<Loop>, h: nat) returns (i: nat)
    ensures i <= |loops| && (i < |loops| ==> loops[i].header == h) && (i == |loops| ==> !HasHeader(loops, h))
  {
    i := 0;
    while i < |loops| && loops[i].header != h
      invariant i <= |loops| && forall k :: 0 <= k < i ==> loops[k].header != h
    {
      i := i + 1;
    }
  }

  ghost predicate AllMerged(edges: seq<(nat, nat)>, natural: seq<set<nat>>, loops: seq<Loop>)
    requires |edges| <= |natural|
  {
    HeadersDistinct(loops) && forall i :: 0 <= i < |loops| ==> MergedLoop(edges, natural, loops[i])
  }

  /** With a loop for the header at hand, empty if it is new, the edge is merged. */
  lemma EdgeMerged(edges: seq<(nat, nat)>, natural: seq<set<nat>>, loops: seq<Loop>, e: (nat, nat), i: nat)
    requires |edges| < |natural| && AllMerged(edges, natural, loops) && i < |loops| && loops[i].header == e.1
    ensures AllMerged(edges + [e], natural, loops[i := AddEdge(loops[i], e, natural[|edges|])])
  {
    var after := loops[i := AddEdge(loops[i], e, natural[|edges|])];
    forall k | 0 <= k < |after| ensures MergedLoop(edges + [e], natural, after[k]) {
      MergedLoopStep(edges, natural, loops[k], e);
    }
  }

  ghost predicate HeadersOf(edges: seq<(nat, nat)>, loops: seq<Loop>) {
    forall h: nat :: HasHeader(loops, h) <==> HasEdgeTo(edges, h)
  }

  lemma HeadersGrow(edges: seq<(nat, nat)>, loops: seq<Loop>, after: seq<Loop>, e: (nat, nat))
    requires HeadersOf(edges, loops)
    requires forall h: nat :: HasHeader(after, h) <==> HasHeader(loops, h) || h == e.1
    ensures HeadersOf(edges + [e], after)
  {
    forall h: nat ensures HasEdgeTo(edges + [e], h) <==> h == e.1 || HasEdgeTo(edges, h) {
      assert (e.0, e.1) in edges + [e];
      if HasEdgeTo(edges, h) {
        var latch: nat :| (latch, h) in edges;
        assert (latch, h) in edges + [e];
      }
    }
  }

  /** Finds the loop of the edge's header, or starts it, and puts the edge into it. */
  method MergeEdge(edges: seq<(nat, nat)>, natural: seq<set<nat>>, loops: seq<Loop>, e: (nat, nat)) returns (after: seq<Loop>)
    requires |edges| < |natural| && AllMerged(edges, natural, loops) && HeadersOf(edges, loops)
    ensures AllMerged(edges + [e], natural, after) && HeadersOf(edges + [e], after)
  {
    var i := FindHeader(loops, e.1);
    var found := loops;
    if i == |loops| {
      EmptyLoopIsMerged(edges, natural, e.1);
      found := loops + [Loop(e.1, [], {}, {}, -1, {})];
      assert forall k :: 0 <= k < |loops| ==> HasHeader(loops, loops[k].header);
    }
    EdgeMerged(edges, natural, found, e, i);
    after := found[i := AddEdge(found[i], e, natural[|edges|])];
    SameHeaders(loops, found, after, e, i);
    HeadersGrow(edges, loops, after, e);
  }

  lemma SameHeaders(loops: seq<Loop>, found: seq<Loop>, after: seq<Loop>, e: (nat, nat), i: nat)
    requires i < |found| && found[i].header == e.1 && (found == loops || (i == |loops| && found == loops + [found[i]]))
    requires |after| == |found| && forall k :: 0 <= k < |found| ==> after[k].header == found[k].header
    ensures forall h: nat :: HasHeader(after, h) <==> HasHeader(loops, h) || h == e.1
  {
    forall h: nat ensures HasHeader(after, h) <==> HasHeader(loops, h) || h == e.1 {
      if k :| 0 <= k < |loops| && loops[k].header == h {
        assert after[k].header == h;
      }
      assert after[i].header == e.1;
    }
  }

  method MergeLoops(edges: seq<(nat, nat)>, natural: seq<set<nat>>) returns (loops: seq<Loop>)
    requires |edges| == |natural|
    ensures Merged(edges, natural, loops)
  {
    loops := [];
    var n := 0;
    while n < |edges|
      invariant 0 <= n <= |edges| && AllMerged(edges[..n], natural, loops) && HeadersOf(edges[..n], loops)
    {
      assert edges[..n + 1] == edges[..n] + [edges[n]];
      loops := MergeEdge(edges[..n], natural, loops, edges[n]);
      n := n + 1;
    }
    assert edges[..n] == edges;
  }

  // ---------- exits and preheader ----------

  /** A predecessor of the header outside the loop. */
  ghost predicate Outside(g: Graph, l: Loop, p: nat) {
    Edge(g, p, l.header) && p !in l.blocks
  }

  ghost predicate OnlyOutside(g: Graph, l: Loop, p: nat) {
    forall q: nat {:trigger Outside(g, l, q)} :: Outside(g, l, q) <==> q == p
  }

  /** The one block that enters the header from outside, or -1. */
  ghost predicate PreheaderOk(g: Graph, l: Loop) {
    if l.preheader >= 0 then OnlyOutside(g, l, l.preheader)
    else l.preheader == -1 && forall p: nat :: !OnlyOutside(g, l, p)
  }

  ghost predicate LeavesTo(g: Graph, l: Loop, m: nat, s: nat) {
    m in l.blocks && Edge(g, m, s) && s !in l.blocks
  }

  /** Where control may go when it leaves the loop. */
  ghost predicate ExitsOk(g: Graph, l: Loop) {
    forall s: nat :: s in l.exits <==> exists m: nat :: LeavesTo(g, l, m, s)
  }

  method FindPreheader(g: Graph, preds: seq<set<nat>>, l: Loop) returns (preheader: int)
    requires IsPredecessorTable(g, preds) && l.header < |g|
    ensures PreheaderOk(g, l.(preheader := preheader))
  {
    var outside := preds[l.header] - l.blocks;
    var l' := l.(preheader := -1);
    assert forall q: nat :: Outside(g, l', q) <==> q in outside;
    if |outside| == 1 {
      var p :| p in outside;
      assert |outside - {p}| == 0;
      preheader := p;
      assert outside == {p};
      assert forall q: nat :: Outside(g, l.(preheader := p), q) <==> q in outside;
    } else {
      preheader := -1;
      forall p: nat ensures !OnlyOutside(g, l', p) {
        OnlyOutsideIff(g, l', outside, p);
      }
    }
  }

  lemma OnlyOutsideIff(g: Graph, l: Loop, outside: set<nat>, p: nat)
    requires forall q: nat :: Outside(g, l, q) <==> q in outside
    ensures OnlyOutside(g, l, p) <==> outside == {p}
  {
    if OnlyOutside(g, l, p) {
      assert Outside(g, l, p);
    }
  }

  ghost predicate LeftSoFar(g: Graph, l: Loop, done: set<nat>, exits: set<nat>) {
    forall s: nat :: s in exits <==> exists m: nat :: m in done && LeavesTo(g, l, m, s)
  }

  method FindExits(g: Graph, l: Loop) returns (exits: set<nat>)
    requires Wf(g) && forall x :: x in l.blocks ==> x < |g|
    ensures ExitsOk(g, l.(exits := exits))
  {
    exits := {};
    var rest := l.blocks;
    while rest != {}
      invariant rest <= l.blocks && LeftSoFar(g, l, l.blocks - rest, exits)
      decreases |rest|
    {
      var member :| member in rest;
      ghost var done, before := l.blocks - rest, exits;
      exits := exits + set s | s in g[member] && s !in l.blocks;
      rest := rest - {member};
      assert l.blocks - rest == done + {member};
      MoreLeft(g, l, done, before, member, exits);
    }
    assert forall m, s :: LeavesTo(g, l.(exits := exits), m, s) <==> m in l.blocks && LeavesTo(g, l, m, s);
  }

  lemma MoreLeft(g: Graph, l: Loop, done: set<nat>, before: set<nat>, member: nat, exits: set<nat>)
    requires LeftSoFar(g, l, done, before) && member in l.blocks && member < |g|
    requires exits == before + set s | s in g[member] && s !in l.blocks
    ensures LeftSoFar(g, l, done + {member}, exits)
  {
    forall s: nat
      ensures s in exits <==> exists m: nat :: m in done + {member} && LeavesTo(g, l, m, s)
    {
      if s in g[member] && s !in l.blocks {
        assert LeavesTo(g, l, member, s);
      }
      if m: nat :| m in done && LeavesTo(g, l, m, s) {
        assert m in done + {member};
      }
    }
  }

  // ---------- all loops of a function ----------

  /** The loop of one header, stated by paths. */
  ghost predicate LoopOk(g: Graph, r: set<nat>, l: Loop) {
    && IsHeader(g, r, l.header)
    && (forall e: (nat, nat) :: e in l.backEdges <==> e.1 == l.header && IsBackEdge(g, r, e))
    && (forall x: nat :: x in l.latches <==> IsBackEdge(g, r, (x, l.header)))
    && (forall x: nat {:trigger InLoop(g, r, l.header, x)} :: x in l.blocks <==> InLoop(g, r, l.header, x))
    && ExitsOk(g, l) && PreheaderOk(g, l)
  }

  /** One loop for each header of a back edge. */
  ghost predicate IsLoopTable(g: Graph, r: set<nat>, loops: seq<Loop>) {
    && HeadersDistinct(loops)
    && (forall h: nat {:trigger IsHeader(g, r, h)} :: HasHeader(loops, h) <==> IsHeader(g, r, h))
    && forall i :: 0 <= i < |loops| ==> LoopOk(g, r, loops[i])
  }

  /** Each loop has the back edges to its header, in the order they were found. */
  ghost predicate EdgesKept(edges: seq<(nat, nat)>, loops: seq<Loop>) {
    forall i :: 0 <= i < |loops| ==> loops[i].backEdges == EdgesTo(edges, loops[i].header)
  }

  /** What `FindLoops` yields. */
  ghost predicate BackEdgesFound(g: Graph, r: set<nat>, edges: seq<(nat, nat)>, natural: seq<set<nat>>) {
    && (forall e: (nat, nat) :: e in edges <==> IsBackEdge(g, r, e))
    && (SuccessorsAscending(g) ==> EdgesInOrder(edges))
    && |natural| == |edges|
    && (forall k, x: nat :: 0 <= k < |natural| ==> (x in natural[k] <==> Member(g, r, edges[k].0, edges[k].1, x)))
  }

  lemma {:induction false} EdgesToHas(edges: seq<(nat, nat)>, h: nat)
    ensures forall e :: e in EdgesTo(edges, h) <==> e in edges && e.1 == h
    decreases |edges|
  {
    if edges != [] {
      EdgesToHas(edges[..|edges| - 1], h);
      assert edges == edges[..|edges| - 1] + [edges[|edges| - 1]];
    }
  }

  lemma MergedLoopIsLoop(g: Graph, r: set<nat>, edges: seq<(nat, nat)>, natural: seq<set<nat>>, l: Loop)
    requires BackEdgesFound(g, r, edges, natural) && MergedLoop(edges, natural, l)
    ensures forall e: (nat, nat) :: e in l.backEdges <==> e.1 == l.header && IsBackEdge(g, r, e)
    ensures forall x: nat :: x in l.latches <==> IsBackEdge(g, r, (x, l.header))
    ensures forall x: nat {:trigger InLoop(g, r, l.header, x)} :: x in l.blocks <==> InLoop(g, r, l.header, x)
  {
    EdgesToHas(edges, l.header);
    forall x: nat ensures x in l.blocks <==> InLoop(g, r, l.header, x) {
      if x in l.blocks {
        assert Fed(edges, natural, l.header, x);
        var k: nat :| k < |edges| && Feeds(edges, natural, l.header, x, k);
        assert (edges[k].0, l.header) == edges[k] && edges[k] in edges;
      }
      if InLoop(g, r, l.header, x) {
        var latch: nat :| IsBackEdge(g, r, (latch, l.header)) && Member(g, r, latch, l.header, x);
        assert (latch, l.header) in edges;
        var k: nat :| k < |edges| && edges[k] == (latch, l.header);
        assert Feeds(edges, natural, l.header, x, k);
      }
    }
  }

  lemma HeadersAreHeaders(g: Graph, r: set<nat>, edges: seq<(nat, nat)>, natural: seq<set<nat>>, h: nat)
    requires BackEdgesFound(g, r, edges, natural)
    ensures HasEdgeTo(edges, h) <==> IsHeader(g, r, h)
  {
    if latch: nat :| IsBackEdge(g, r, (latch, h)) {
      assert (latch, h) in edges;
    }
  }

  lemma MembersInBounds(g: Graph, r: set<nat>, l: Loop)
    requires Wf(g) && IsReachableSet(g, r) && IsHeader(g, r, l.header)
    requires forall x: nat {:trigger InLoop(g, r, l.header, x)} :: x in l.blocks <==> InLoop(g, r, l.header, x)
    ensures l.header < |g| && forall x :: x in l.blocks ==> x < |g|
  {
    HeaderInOwnLoop(g, r, l.header);
    forall x | x in l.blocks ensures x < |g| {
      MemberReachesHeader(g, r, l.header, x);
      ReachesBounds(g, 0, x);
    }
  }

  method CompleteLoop(g: Graph, preds: seq<set<nat>>, r: set<nat>, l: Loop) returns (l': Loop)
    requires Wf(g) && IsPredecessorTable(g, preds) && IsReachableSet(g, r) && IsHeader(g, r, l.header)
    requires forall e: (nat, nat) :: e in l.backEdges <==> e.1 == l.header && IsBackEdge(g, r, e)
    requires forall x: nat :: x in l.latches <==> IsBackEdge(g, r, (x, l.header))
    requires forall x: nat {:trigger InLoop(g, r, l.header, x)} :: x in l.blocks <==> InLoop(g, r, l.header, x)
    ensures l'.header == l.header && l'.backEdges == l.backEdges && LoopOk(g, r, l')
  {
    MembersInBounds(g, r, l);
    var preheader := FindPreheader(g, preds, l);
    var exits := FindExits(g, l);
    l' := l.(preheader := preheader, exits := exits);
    FieldsApart(g, l, preheader, exits);
  }

  lemma FieldsApart(g: Graph, l: Loop, preheader: int, exits: set<nat>)
    requires PreheaderOk(g, l.(preheader := preheader)) && ExitsOk(g, l.(exits := exits))
    ensures var l' := l.(preheader := preheader, exits := exits); PreheaderOk(g, l') && ExitsOk(g, l')
  {
    var l' := l.(preheader := preheader, exits := exits);
    assert forall q: nat :: Outside(g, l', q) <==> Outside(g, l.(preheader := preheader), q);
    assert forall p: nat :: OnlyOutside(g, l', p) <==> OnlyOutside(g, l.(preheader := preheader), p);
    assert forall m: nat, s: nat :: LeavesTo(g, l', m, s) <==> LeavesTo(g, l.(exits := exits), m, s);
  }

  method MaterializeLoops(g: Graph, preds: seq<set<nat>>, r: set<nat>, edges: seq<(nat, nat)>, natural: seq<set<nat>>)
    returns (loops: seq<Loop>)
    requires Wf(g) && IsPredecessorTable(g, preds) && IsReachableSet(g, r) && BackEdgesFound(g, r, edges, natural)
    ensures IsLoopTable(g, r, loops) && EdgesKept(edges, loops)
  {
    var merged := MergeLoops(edges, natural);
    MergedHeaders(g, r, edges, natural, merged);
    loops := [];
    while |loops| < |merged|
      invariant |loops| <= |merged|
      invariant forall i :: 0 <= i < |loops| ==> loops[i].header == merged[i].header && LoopOk(g, r, loops[i])
      invariant EdgesKept(edges, loops)
    {
      MergedLoopIsLoop(g, r, edges, natural, merged[|loops|]);
      assert HasHeader(merged, merged[|loops|].header);
      var l := CompleteLoop(g, preds, r, merged[|loops|]);
      loops := loops + [l];
    }
    forall h: nat ensures HasHeader(loops, h) <==> HasHeader(merged, h) {
      if i :| 0 <= i < |merged| && merged[i].header == h {
        assert loops[i].header == h;
      }
    }
  }

  lemma MergedHeaders(g: Graph, r: set<nat>, edges: seq<(nat, nat)>, natural: seq<set<nat>>, loops: seq<Loop>)
    requires BackEdgesFound(g, r, edges, natural) && Merged(edges, natural, loops)
    ensures forall h: nat {:trigger IsHeader(g, r, h)} {:trigger HasHeader(loops, h)} :: HasHeader(loops, h) <==> IsHeader(g, r, h)
  {
    forall h: nat ensures HasHeader(loops, h) <==> IsHeader(g, r, h) {
      HeadersAreHeaders(g, r, edges, natural, h);
    }
  }

  // ---------- what the preheader is ----------

  /** A first arrival at the header comes from outside the loop. */
  lemma ArrivesFromOutside(g: Graph, r: set<nat>, l: Loop, p: seq<nat>) returns (i: nat)
    requires Wf(g) && IsReachableSet(g, r) && LoopOk(g, r, l) && !Edge(g, l.header, l.header) && l.header != 0
    requires PathFromTo(g, p, 0, l.header)
    ensures i < |p| && Outside(g, l, p[i])
  {
    var first := FirstVisit(p, l.header);
    i := first - 1;
    assert StepAt(g, p, i);
    NotInLoopYet(g, r, l.header, p, i);
  }

  lemma NotInLoopYet(g: Graph, r: set<nat>, h: nat, p: seq<nat>, i: nat)
    requires Wf(g) && !Edge(g, h, h) && Path(g, p) && p[0] == 0 && i < |p| && h !in p[..i + 1]
    ensures !InLoop(g, r, h, p[i])
  {
    PathPrefix(g, p, i);
    if InLoop(g, r, h, p[i]) {
      HeaderDominates(g, r, h, p[i]);
    }
  }

  lemma {:induction false} FirstVisit(p: seq<nat>, h: nat) returns (i: nat)
    requires h in p
    ensures i < |p| && p[i] == h && h !in p[..i]
  {
    i := 0;
    while p[i] != h
      invariant i < |p| && h !in p[..i] && h in p[i..]
      decreases |p| - i
    {
      assert p[i..] == [p[i]] + p[i + 1..];
      assert p[..i + 1] == p[..i] + [p[i]];
      i := i + 1;
    }
  }

  lemma PreheaderDominates(g: Graph, r: set<nat>, l: Loop)
    requires Wf(g) && IsReachableSet(g, r) && LoopOk(g, r, l) && l.preheader >= 0 && !Edge(g, l.header, l.header) && l.header != 0
    ensures IsImmediateDominator(g, l.preheader, l.header)
  {
    HeaderInOwnLoop(g, r, l.header);
    forall p | PathFromTo(g, p, 0, l.header) ensures l.preheader in p {
      var i := ArrivesFromOutside(g, r, l, p);
    }
    assert Outside(g, l, l.preheader);
    forall d | d != l.header && Dominates(g, d, l.header) ensures Dominates(g, d, l.preheader) {
      forall p | PathFromTo(g, p, 0, l.preheader) ensures d in p {
        PathSnoc(g, p, 0, l.preheader, l.header);
      }
    }
  }

  /** A recorded preheader is the header's immediate dominator unless the header is the entry or has a self edge. */
  lemma PreheaderIsImmediateDominatorIff(g: Graph, r: set<nat>, l: Loop)
    requires Wf(g) && |g| > 0 && IsReachableSet(g, r) && LoopOk(g, r, l) && l.preheader >= 0
    ensures IsImmediateDominator(g, l.preheader, l.header) <==> l.header != 0 && !Edge(g, l.header, l.header)
  {
    var h := l.header;
    HeaderInOwnLoop(g, r, h);
    if h == 0 {
      assert PathFromTo(g, [0], 0, 0);
      assert l.preheader != 0 ==> l.preheader !in [0];
    } else if Edge(g, h, h) {
      assert Outside(g, l, l.preheader);
      if IsImmediateDominator(g, l.preheader, h) {
        DominatorIsReachable(g, r, l.preheader, h);
        EdgeReaches(g, l.preheader, h);
        SelfEdgeLoop(g, r, h, l.preheader);
      }
    } else {
      PreheaderDominates(g, r, l);
    }
  }

  /** A self edge behind the entry, and an unreachable block that leads there: that block is recorded as preheader. */
  lemma PreheaderMayBeUnreachable() returns (g: Graph, r: set<nat>, l: Loop)
    ensures Wf(g) && IsReachableSet(g, r) && LoopOk(g, r, l)
    ensures l.preheader >= 0 && l.preheader !in r && !IsImmediateDominator(g, l.preheader, l.header)
  {
    g, r, l := [[1], [1], [1]], {0, 1}, Loop(1, [(1, 1)], {1}, {0, 1}, 2, {});
    assert forall a: nat, b: nat :: Edge(g, a, b) <==> a < 3 && b == 1;
    AllGoToOne(g, r);
    OneIsLatch(g, r);
    LoopOfOne(g, r, l);
    PreheaderIsImmediateDominatorIff(g, r, l);
  }

  /** Every block of three leads to block 1. */
  ghost predicate OnlyToOne(g: Graph) {
    |g| == 3 && Wf(g) && forall a: nat, b: nat :: Edge(g, a, b) <==> a < 3 && b == 1
  }

  lemma AllGoToOne(g: Graph, r: set<nat>)
    requires OnlyToOne(g) && r == {0, 1}
    ensures IsReachableSet(g, r)
  {
    ReachesSelf(g, 0);
    EdgeReaches(g, 0, 1);
    forall b: nat | Reaches(g, 0, b) ensures b in r {
      ClosedReaches(g, r, 0, b);
    }
  }

  lemma OneIsLatch(g: Graph, r: set<nat>)
    requires OnlyToOne(g) && r == {0, 1}
    ensures forall x: nat :: IsBackEdge(g, r, (x, 1)) <==> x == 1
  {
    assert PathFromTo(g, [0], 0, 0) && 1 !in [0];
  }

  lemma LoopOfOne(g: Graph, r: set<nat>, l: Loop)
    requires OnlyToOne(g) && r == {0, 1} && IsReachableSet(g, r) && l == Loop(1, [(1, 1)], {1}, {0, 1}, 2, {})
    requires forall x: nat :: IsBackEdge(g, r, (x, 1)) <==> x == 1
    ensures LoopOk(g, r, l)
  {
    assert IsBackEdge(g, r, (1, 1));
    EdgeReaches(g, 0, 1);
    EdgeReaches(g, 1, 1);
    forall x: nat ensures x in l.blocks <==> InLoop(g, r, 1, x) {
      SelfEdgeLoop(g, r, 1, x);
    }
    assert forall q: nat :: Outside(g, l, q) <==> q == 2;
    assert OnlyOutside(g, l, 2);
  }

  // ---------- scopes ----------

  /** Scope 0 is the function, scope `n + 1` loop `n`: its parent is the smallest loop around it. */
  ghost predicate IsScopeParent(loops: seq<Loop>, n: nat, parent: nat)
    requires n < |loops|
  {
    if parent == 0 then forall c :: 0 <= c < |loops| ==> !(loops[n].blocks < loops[c].blocks)
    else
      && parent <= |loops| && loops[n].blocks < loops[parent - 1].blocks
      && forall c :: 0 <= c < |loops| && loops[n].blocks < loops[c].blocks ==> |loops[parent - 1].blocks| <= |loops[c].blocks|
  }

  method ScopeParent(loops: seq<Loop>, n: nat) returns (parent: nat)
    requires n < |loops|
    ensures IsScopeParent(loops, n, parent)
  {
    var members := loops[n].blocks;
    parent := 0;
    var candidate := 0;
    while candidate < |loops|
      invariant 0 <= candidate <= |loops|
      invariant parent == 0 ==> forall c :: 0 <= c < candidate ==> !(members < loops[c].blocks)
      invariant parent > 0 ==> parent <= candidate && members < loops[parent - 1].blocks
      invariant parent > 0 ==> forall c :: 0 <= c < candidate && members < loops[c].blocks ==> |loops[parent - 1].blocks| <= |loops[c].blocks|
    {
      var blocks := loops[candidate].blocks;
      if members <= blocks {
        MustPass.SubsetSize(members, blocks);
      }
      assert |blocks| > |members| ==> members != blocks;
      if candidate != n && |blocks| > |members| && (parent == 0 || |blocks| < |loops[parent - 1].blocks|) && members <= blocks {
        parent := candidate + 1;
      }
      candidate := candidate + 1;
    }
  }

  ghost predicate AreScopeParents(loops: seq<Loop>, parents: seq<nat>) {
    |parents| == |loops| && forall n :: 0 <= n < |loops| ==> IsScopeParent(loops, n, parents[n])
  }

  method ScopeParents(loops: seq<Loop>) returns (parents: seq<nat>)
    ensures AreScopeParents(loops, parents)
  {
    parents := [];
    while |parents| < |loops|
      invariant |parents| <= |loops| && forall n :: 0 <= n < |parents| ==> IsScopeParent(loops, n, parents[n])
    {
      var parent := ScopeParent(loops, |parents|);
      parents := parents + [parent];
    }
  }

  lemma HeaderInBlocks(g: Graph, r: set<nat>, loops: seq<Loop>, n: nat)
    requires Wf(g) && IsReachableSet(g, r) && IsLoopTable(g, r, loops) && n < |loops|
    ensures loops[n].header in loops[n].blocks
  {
    HeaderInOwnLoop(g, r, loops[n].header);
  }

  /** Loops of the table that share a block are nested, unless their headers cross. */
  lemma TableNests(g: Graph, r: set<nat>, loops: seq<Loop>, i: nat, j: nat, x: nat)
    requires Wf(g) && IsReachableSet(g, r) && IsLoopTable(g, r, loops) && i < |loops| && j < |loops|
    requires x in loops[i].blocks && x in loops[j].blocks && !Crossing(g, loops[i].header, loops[j].header)
    ensures loops[i].blocks <= loops[j].blocks || loops[j].blocks <= loops[i].blocks
  {
    if i != j {
      var h1, h2 := loops[i].header, loops[j].header;
      SharingLoopsNest(g, r, h1, h2, x);
      assert forall y: nat :: y in loops[i].blocks <==> InLoop(g, r, h1, y);
      assert forall y: nat :: y in loops[j].blocks <==> InLoop(g, r, h2, y);
    }
  }

  /** Of two loops whose headers cross, neither contains the other. */
  lemma TableCrosses(g: Graph, r: set<nat>, loops: seq<Loop>, i: nat, j: nat)
    requires Wf(g) && IsReachableSet(g, r) && IsLoopTable(g, r, loops) && i < |loops| && j < |loops|
    requires Crossing(g, loops[i].header, loops[j].header)
    ensures !(loops[i].blocks <= loops[j].blocks) && !(loops[j].blocks <= loops[i].blocks)
  {
    var h1, h2 := loops[i].header, loops[j].header;
    CrossingLoopsCross(g, r, h1, h2);
    HeaderInBlocks(g, r, loops, i);
    HeaderInBlocks(g, r, loops, j);
  }

  ghost function Around(loops: seq<Loop>, n: nat): set<nat>
    requires n < |loops|
  {
    set c: nat | c < |loops| && loops[n].blocks < loops[c].blocks
  }

  /** The recorded parent lies inside every other loop around loop `n`. */
  ghost predicate ParentInnermost(loops: seq<Loop>, n: nat, parent: nat)
    requires n < |loops|
  {
    forall c :: c in Around(loops, n) ==> 0 < parent <= |loops| && loops[parent - 1].blocks <= loops[c].blocks
  }

  ghost predicate InsideBoth(loops: seq<Loop>, n: nat, i: nat, j: nat, k: nat)
    requires n < |loops| && i < |loops| && j < |loops|
  {
    k in Around(loops, n) && loops[k].blocks <= loops[i].blocks && loops[k].blocks <= loops[j].blocks
  }

  /** Wherever the headers of two loops around loop `n` cross, a third loop around it lies inside both. */
  ghost predicate CrossingsCovered(g: Graph, loops: seq<Loop>, n: nat)
    requires n < |loops|
  {
    forall i: nat, j: nat :: i in Around(loops, n) && j in Around(loops, n) && Crossing(g, loops[i].header, loops[j].header) ==>
      exists k: nat :: InsideBoth(loops, n, i, j, k)
  }

  lemma SmallerIsInside(a: set<nat>, b: set<nat>)
    requires |a| <= |b| && (a <= b || b <= a)
    ensures a <= b
  {
    if b <= a {
      MustPass.SubsetSize(b, a);
    }
  }

  lemma ParentIsSmallest(loops: seq<Loop>, n: nat, parent: nat, c: nat)
    requires n < |loops| && IsScopeParent(loops, n, parent) && c in Around(loops, n)
    ensures 0 < parent <= |loops| && parent - 1 in Around(loops, n) && |loops[parent - 1].blocks| <= |loops[c].blocks|
  {
    assert loops[n].blocks < loops[c].blocks;
  }

  lemma CoveredIsInside(loops: seq<Loop>, n: nat, parent: nat, c: nat, k: nat)
    requires n < |loops| && IsScopeParent(loops, n, parent) && 0 < parent <= |loops| && c < |loops|
    requires InsideBoth(loops, n, parent - 1, c, k)
    ensures loops[parent - 1].blocks <= loops[c].blocks
  {
    ParentIsSmallest(loops, n, parent, k);
    SmallerIsInside(loops[parent - 1].blocks, loops[k].blocks);
  }

  lemma AroundShares(g: Graph, r: set<nat>, loops: seq<Loop>, n: nat, i: nat, j: nat)
    requires Wf(g) && IsReachableSet(g, r) && IsLoopTable(g, r, loops) && n < |loops|
    requires i in Around(loops, n) && j in Around(loops, n) && !Crossing(g, loops[i].header, loops[j].header)
    ensures loops[i].blocks <= loops[j].blocks || loops[j].blocks <= loops[i].blocks
  {
    HeaderInBlocks(g, r, loops, n);
    TableNests(g, r, loops, i, j, loops[n].header);
  }

  /** The smallest loop around `n` lies inside another one if they do not cross, or a third one lies inside both. */
  lemma SmallestIsInside(g: Graph, r: set<nat>, loops: seq<Loop>, n: nat, parent: nat, c: nat)
    requires Wf(g) && IsReachableSet(g, r) && IsLoopTable(g, r, loops) && n < |loops| && IsScopeParent(loops, n, parent)
    requires c in Around(loops, n) && CrossingsCovered(g, loops, n)
    ensures 0 < parent <= |loops| && loops[parent - 1].blocks <= loops[c].blocks
  {
    ParentIsSmallest(loops, n, parent, c);
    var p: nat := parent - 1;
    if Crossing(g, loops[p].header, loops[c].header) {
      var k := CoveringLoop(g, loops, n, p, c);
      CoveredIsInside(loops, n, parent, c, k);
    } else {
      AroundShares(g, r, loops, n, p, c);
      SmallerIsInside(loops[p].blocks, loops[c].blocks);
    }
  }

  lemma CoveringLoop(g: Graph, loops: seq<Loop>, n: nat, i: nat, j: nat) returns (k: nat)
    requires n < |loops| && CrossingsCovered(g, loops, n) && i in Around(loops, n) && j in Around(loops, n)
    requires Crossing(g, loops[i].header, loops[j].header)
    ensures InsideBoth(loops, n, i, j, k)
  {
    k :| InsideBoth(loops, n, i, j, k);
  }

  /** The parent scope is the innermost one around a loop exactly if crossings around it are covered by a third loop. */
  lemma ParentIsInnermostIff(g: Graph, r: set<nat>, loops: seq<Loop>, n: nat, parent: nat)
    requires Wf(g) && IsReachableSet(g, r) && IsLoopTable(g, r, loops) && n < |loops| && IsScopeParent(loops, n, parent)
    ensures ParentInnermost(loops, n, parent) <==> CrossingsCovered(g, loops, n)
  {
    if CrossingsCovered(g, loops, n) {
      forall c | c in Around(loops, n) ensures 0 < parent <= |loops| && loops[parent - 1].blocks <= loops[c].blocks {
        SmallestIsInside(g, r, loops, n, parent, c);
      }
    }
    if ParentInnermost(loops, n, parent) {
      InnermostCovers(g, loops, n, parent);
    }
  }

  lemma InnermostCovers(g: Graph, loops: seq<Loop>, n: nat, parent: nat)
    requires n < |loops| && IsScopeParent(loops, n, parent) && ParentInnermost(loops, n, parent)
    ensures CrossingsCovered(g, loops, n)
  {
    forall i: nat, j: nat | i in Around(loops, n) && j in Around(loops, n)
      ensures exists k: nat :: InsideBoth(loops, n, i, j, k)
    {
      ParentIsSmallest(loops, n, parent, i);
      assert InsideBoth(loops, n, i, j, parent - 1);
    }
  }

  lemma ParentHasFewerAround(loops: seq<Loop>, n: nat, parent: nat)
    requires n < |loops| && IsScopeParent(loops, n, parent) && parent > 0
    ensures |Around(loops, parent - 1)| < |Around(loops, n)|
  {
    assert parent - 1 in Around(loops, n) && parent - 1 !in Around(loops, parent - 1);
    MustPass.SubsetSize(Around(loops, parent - 1), Around(loops, n));
  }

  /** The loops whose scopes lie around loop `n`, itself first: following parents always ends at the function's scope. */
  ghost function ScopeChain(loops: seq<Loop>, parents: seq<nat>, n: nat): seq<nat>
    requires AreScopeParents(loops, parents) && n < |loops|
    decreases |Around(loops, n)|
  {
    if parents[n] == 0 then [n]
    else
      ParentHasFewerAround(loops, n, parents[n]);
      [n] + ScopeChain(loops, parents, parents[n] - 1)
  }

  /** Every loop on the chain contains loop `n`. */
  lemma {:induction false} ChainContains(loops: seq<Loop>, parents: seq<nat>, n: nat, c: nat)
    requires AreScopeParents(loops, parents) && n < |loops| && c in ScopeChain(loops, parents, n)
    ensures c < |loops| && loops[n].blocks <= loops[c].blocks
    decreases |Around(loops, n)|
  {
    if c != n {
      assert IsScopeParent(loops, n, parents[n]);
      ParentHasFewerAround(loops, n, parents[n]);
      ChainContains(loops, parents, parents[n] - 1, c);
    }
  }

  lemma ProperSubset(a: set<nat>, b: set<nat>)
    requires a <= b && a != b
    ensures a < b
  {
  }

  /** No two loops around loop `n` have crossing headers. */
  ghost predicate NoneCrossing(g: Graph, loops: seq<Loop>, n: nat)
    requires n < |loops|
  {
    forall i, j :: i in Around(loops, n) && j in Around(loops, n) ==> !Crossing(g, loops[i].header, loops[j].header)
  }

  lemma LessCrosses(g: Graph, loops: seq<Loop>, n: nat, parent: nat)
    requires n < |loops| && NoneCrossing(g, loops, n) && 0 < parent <= |loops| && loops[n].blocks < loops[parent - 1].blocks
    ensures NoneCrossing(g, loops, parent - 1)
  {
    forall c | c in Around(loops, parent - 1) ensures c in Around(loops, n) {
    }
  }

  /** A loop with the same blocks as `c` is on the chain. */
  ghost predicate OnChain(loops: seq<Loop>, parents: seq<nat>, n: nat, c: nat)
    requires AreScopeParents(loops, parents) && n < |loops| && c < |loops|
  {
    exists k :: k in ScopeChain(loops, parents, n) && k < |loops| && loops[k].blocks == loops[c].blocks
  }

  lemma StartsChain(loops: seq<Loop>, parents: seq<nat>, n: nat)
    requires AreScopeParents(loops, parents) && n < |loops|
    ensures n in ScopeChain(loops, parents, n)
  {
  }

  lemma ChainGoesOn(loops: seq<Loop>, parents: seq<nat>, n: nat, c: nat)
    requires AreScopeParents(loops, parents) && n < |loops| && c < |loops| && 0 < parents[n] <= |loops|
    requires OnChain(loops, parents, parents[n] - 1, c)
    ensures OnChain(loops, parents, n, c)
  {
    var k :| k in ScopeChain(loops, parents, parents[n] - 1) && k < |loops| && loops[k].blocks == loops[c].blocks;
    assert k in ScopeChain(loops, parents, n);
  }

  /** Every loop that contains loop `n` is on its chain, up to loops with the same blocks. */
  ghost predicate ChainComplete(loops: seq<Loop>, parents: seq<nat>, n: nat)
    requires AreScopeParents(loops, parents) && n < |loops|
  {
    forall c {:trigger OnChain(loops, parents, n, c)} :: 0 <= c < |loops| && loops[n].blocks <= loops[c].blocks ==>
      OnChain(loops, parents, n, c)
  }

  /** From a loop to its parent: closer to `c`, and still no crossing around. */
  lemma ParentStep(g: Graph, r: set<nat>, loops: seq<Loop>, n: nat, parent: nat, c: nat)
    requires Wf(g) && IsReachableSet(g, r) && IsLoopTable(g, r, loops) && n < |loops| && IsScopeParent(loops, n, parent)
    requires c in Around(loops, n) && NoneCrossing(g, loops, n)
    ensures 0 < parent <= |loops| && loops[parent - 1].blocks <= loops[c].blocks && NoneCrossing(g, loops, parent - 1)
    ensures |Around(loops, parent - 1)| < |Around(loops, n)|
  {
    SmallestIsInside(g, r, loops, n, parent, c);
    ParentHasFewerAround(loops, n, parent);
    LessCrosses(g, loops, n, parent);
  }

  lemma {:induction false} ContainingIsOnChain(g: Graph, r: set<nat>, loops: seq<Loop>, parents: seq<nat>, n: nat, c: nat)
    requires Wf(g) && IsReachableSet(g, r) && IsLoopTable(g, r, loops) && AreScopeParents(loops, parents)
    requires n < |loops| && c < |loops| && NoneCrossing(g, loops, n) && loops[n].blocks <= loops[c].blocks
    ensures OnChain(loops, parents, n, c)
    decreases |Around(loops, n)|
  {
    if loops[n].blocks == loops[c].blocks {
      StartsChain(loops, parents, n);
    } else {
      ProperSubset(loops[n].blocks, loops[c].blocks);
      assert c in Around(loops, n);
      ParentStep(g, r, loops, n, parents[n], c);
      ContainingIsOnChain(g, r, loops, parents, parents[n] - 1, c);
      ChainGoesOn(loops, parents, n, c);
    }
  }

  /** The loops on a chain lie one inside the other. */
  lemma {:induction false} ChainIsNested(loops: seq<Loop>, parents: seq<nat>, n: nat, a: nat, b: nat)
    requires AreScopeParents(loops, parents) && n < |loops|
    requires a in ScopeChain(loops, parents, n) && b in ScopeChain(loops, parents, n)
    ensures a < |loops| && b < |loops| && (loops[a].blocks <= loops[b].blocks || loops[b].blocks <= loops[a].blocks)
    decreases |Around(loops, n)|
  {
    ChainContains(loops, parents, n, a);
    ChainContains(loops, parents, n, b);
    if a != n && b != n {
      ParentHasFewerAround(loops, n, parents[n]);
      ChainIsNested(loops, parents, parents[n] - 1, a, b);
    }
  }

  lemma CrossingMissesChain(g: Graph, r: set<nat>, loops: seq<Loop>, parents: seq<nat>, n: nat, i: nat, j: nat)
    requires Wf(g) && IsReachableSet(g, r) && IsLoopTable(g, r, loops) && AreScopeParents(loops, parents) && n < |loops|
    requires i < |loops| && j < |loops| && OnChain(loops, parents, n, i) && OnChain(loops, parents, n, j)
    ensures !Crossing(g, loops[i].header, loops[j].header)
  {
    var a :| a in ScopeChain(loops, parents, n) && a < |loops| && loops[a].blocks == loops[i].blocks;
    var b :| b in ScopeChain(loops, parents, n) && b < |loops| && loops[b].blocks == loops[j].blocks;
    ChainIsNested(loops, parents, n, a, b);
    if Crossing(g, loops[i].header, loops[j].header) {
      TableCrosses(g, r, loops, i, j);
    }
  }

  /** The chain of scopes visits all loops that contain loop `n` exactly if no two of those around it have crossing headers. */
  lemma ChainIsCompleteIff(g: Graph, r: set<nat>, loops: seq<Loop>, parents: seq<nat>, n: nat)
    requires Wf(g) && IsReachableSet(g, r) && IsLoopTable(g, r, loops) && AreScopeParents(loops, parents) && n < |loops|
    ensures ChainComplete(loops, parents, n) <==> NoneCrossing(g, loops, n)
  {
    if NoneCrossing(g, loops, n) {
      forall c | 0 <= c < |loops| && loops[n].blocks <= loops[c].blocks ensures OnChain(loops, parents, n, c) {
        ContainingIsOnChain(g, r, loops, parents, n, c);
      }
    }
    if ChainComplete(loops, parents, n) {
      forall i, j | i in Around(loops, n) && j in Around(loops, n) ensures !Crossing(g, loops[i].header, loops[j].header) {
        assert OnChain(loops, parents, n, i) && OnChain(loops, parents, n, j);
        CrossingMissesChain(g, r, loops, parents, n, i, j);
      }
    }
  }
}
