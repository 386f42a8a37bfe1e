/** Tarjan's strongly connected components over the reachable blocks: the invariants and their preservation. */
module TarjanTheory {
  import opened Graphs

  /** The search state: visiting order, the blocks on the stack, the components emitted so far and their union. */
  datatype State = State(index: seq<int>, on: set<nat>, done: set<nat>, nextIndex: nat, comps: seq<set<nat>>)
  {
    function Idx(v: nat): int {
      if v < |index| then index[v] else -1
    }
  }

  function Union(cs: seq<set<nat>>): set<nat> {
    if cs == [] then {} else Union(cs[..|cs| - 1]) + cs[|cs| - 1]
  }

  /** A strongly connected component: non-empty, and exactly the blocks mutually reachable with any member. */
  ghost predicate IsScc(g: Graph, c: set<nat>) {
    c != {} && forall x: nat, y: nat :: x in c ==> (y in c <==> Mutual(g, x, y))
  }

  ghost predicate ComponentOk(g: Graph, c: set<nat>, before: set<nat>) {
    IsScc(g, c) && c !! before && EdgesStayIn(g, c, before + c)
  }

  /** Every component is one, is disjoint from the earlier ones, and leads only to itself and them. */
  ghost predicate ComponentsOk(g: Graph, cs: seq<set<nat>>) {
    forall i :: 0 <= i < |cs| ==> ComponentOk(g, cs[i], Union(cs[..i]))
  }

  ghost predicate Shape(g: Graph, r: set<nat>, s: State) {
    && |s.index| == |g|
    && (forall v: nat :: s.Idx(v) < s.nextIndex)
    && (forall v: nat :: s.Idx(v) >= 0 <==> v in s.on + s.done)
    && s.on !! s.done
    && s.on + s.done <= r
    && (forall x: nat, y: nat :: x in s.on && y in s.on && s.Idx(x) == s.Idx(y) ==> x == y)
  }

  /** What holds between any two steps of the search; `gray` are the blocks whose visit is in progress. */
  ghost predicate Inv(g: Graph, r: set<nat>, s: State, gray: set<nat>) {
    && Shape(g, r, s)
    && gray <= s.on
    && EdgesStayIn(g, s.on + s.done - gray, s.on + s.done)
    && (forall x, y {:trigger Reaches(g, x, y)} :: x in gray && y in s.on && s.Idx(x) <= s.Idx(y) ==> Reaches(g, x, y))
    && (forall y {:trigger HasGrayBelow(g, s, gray, y)} :: y in s.on ==> HasGrayBelow(g, s, gray, y))
    && EdgesStayIn(g, s.done, s.done)
  }

  ghost predicate HasGrayBelow(g: Graph, s: State, gray: set<nat>, y: nat) {
    exists x {:trigger Reaches(g, y, x)} :: x in gray && s.Idx(x) <= s.Idx(y) && Reaches(g, y, x)
  }

  /** `t` continues `s`: what was visited keeps its number, the stack only grows upward, and no component is lost. */
  ghost predicate Grows(s: State, t: State) {
    && |s.index| == |t.index|
    && s.nextIndex <= t.nextIndex
    && s.on <= t.on
    && s.done <= t.done
    && s.comps <= t.comps
    && (forall v: nat :: s.Idx(v) >= 0 ==> t.Idx(v) == s.Idx(v))
    && (forall v: nat :: s.Idx(v) < 0 && t.Idx(v) >= 0 ==> t.Idx(v) >= s.nextIndex)
  }

  /** Every edge from stack entries numbered `from` or later to entries numbered below `base` ends at `lo` or later. */
  ghost predicate LowBound(g: Graph, s: State, from: int, base: int, lo: int) {
    forall x, y :: x in s.on && y in s.on && s.Idx(x) >= from && s.Idx(y) < base && Edge(g, x, y) ==> s.Idx(y) >= lo
  }

  /** `v` reaches some stack entry numbered `lo`. */
  ghost predicate Attained(g: Graph, s: State, v: nat, lo: int) {
    exists y :: y in s.on && s.Idx(y) == lo && Reaches(g, v, y)
  }

  // ---------- entering a block ----------

  function Enter(s: State, v: nat): State
    requires v < |s.index|
  {
    State(s.index[v := s.nextIndex], s.on + {v}, s.done, s.nextIndex + 1, s.comps)
  }

  lemma EnterShape(g: Graph, r: set<nat>, s: State, v: nat)
    requires Shape(g, r, s) && v < |g| && s.Idx(v) < 0 && v in r
    ensures Shape(g, r, Enter(s, v)) && Grows(s, Enter(s, v))
  {
    var t := Enter(s, v);
    assert t.Idx(v) == s.nextIndex && forall x: nat :: x != v ==> t.Idx(x) == s.Idx(x);
  }

  lemma GrayBelow(g: Graph, s: State, gray: set<nat>, y: nat) returns (x: nat)
    requires HasGrayBelow(g, s, gray, y)
    ensures x in gray && s.Idx(x) <= s.Idx(y) && Reaches(g, y, x)
  {
    x :| x in gray && s.Idx(x) <= s.Idx(y) && Reaches(g, y, x);
  }

  lemma EnterGrayBelow(g: Graph, r: set<nat>, s: State, gray: set<nat>, v: nat, y: nat)
    requires Inv(g, r, s, gray) && v < |g| && s.Idx(v) < 0 && y in s.on
    ensures HasGrayBelow(g, Enter(s, v), gray + {v}, y)
  {
    var t := Enter(s, v);
    var x := GrayBelow(g, s, gray, y);
    assert t.Idx(x) <= t.Idx(y);
  }

  lemma EnterKeepsInv(g: Graph, r: set<nat>, s: State, gray: set<nat>, v: nat)
    requires Inv(g, r, s, gray) && v < |g| && s.Idx(v) < 0 && v in r
    requires forall x :: x in gray ==> Reaches(g, x, v)
    ensures Inv(g, r, Enter(s, v), gray + {v}) && Grows(s, Enter(s, v))
  {
    var t := Enter(s, v);
    EnterShape(g, r, s, v);
    forall y | y in t.on ensures HasGrayBelow(g, t, gray + {v}, y) {
      if y == v {
        ReachesSelf(g, v);
      } else {
        EnterGrayBelow(g, r, s, gray, v, y);
      }
    }
    assert t.on + t.done - (gray + {v}) == s.on + s.done - gray;
    forall x, y | x in gray + {v} && y in t.on && t.Idx(x) <= t.Idx(y) ensures Reaches(g, x, y) {
      ReachesSelf(g, v);
      assert x == v ==> y == v;
    }
  }

  // ---------- leaving a block that is not a root ----------

  lemma LeaveKeepsInv(g: Graph, r: set<nat>, s: State, gray: set<nat>, v: nat, lo: int)
    requires Inv(g, r, s, gray + {v}) && v !in gray
    requires EdgesStayIn(g, {v}, s.on + s.done)
    requires lo < s.Idx(v) && Attained(g, s, v, lo)
    ensures Inv(g, r, s, gray)
  {
    var y0 :| y0 in s.on && s.Idx(y0) == lo && Reaches(g, v, y0);
    var g0 := GrayBelow(g, s, gray + {v}, y0);
    ReachesTrans(g, v, y0, g0);
    forall y | y in s.on ensures HasGrayBelow(g, s, gray, y) {
      var x := GrayBelow(g, s, gray + {v}, y);
      if x == v {
        ReachesTrans(g, y, v, g0);
      }
    }
  }

  // ---------- emitting a component ----------

  /** The stack from `v` upward. */
  function Segment(s: State, v: nat): set<nat> {
    set x | x in s.on && s.Idx(x) >= s.Idx(v)
  }

  function Emit(s: State, v: nat): State {
    State(s.index, s.on - Segment(s, v), s.done + Segment(s, v), s.nextIndex, s.comps + [Segment(s, v)])
  }

  /** All visited blocks from a root upward reach the root, and the root reaches them. */
  lemma SegmentConnected(g: Graph, r: set<nat>, s: State, gray: set<nat>, v: nat, x: nat)
    requires Inv(g, r, s, gray + {v}) && x in Segment(s, v)
    requires forall y :: y in gray ==> Reaches(g, y, v)
    ensures Mutual(g, x, v)
  {
    var y := GrayBelow(g, s, gray + {v}, x);
    if y != v {
      ReachesTrans(g, x, y, v);
    }
    assert v in gray + {v};
  }

  /** The part of the stack from a root upward is a strongly connected component. */
  lemma RootSegmentIsScc(g: Graph, r: set<nat>, s: State, gray: set<nat>, v: nat)
    requires Inv(g, r, s, gray + {v})
    requires forall x :: x in gray ==> Reaches(g, x, v)
    requires EdgesStayIn(g, Segment(s, v), Segment(s, v) + s.done)
    ensures IsScc(g, Segment(s, v))
  {
    var c := Segment(s, v);
    assert v in gray + {v};
    forall x: nat, y: nat | x in c ensures y in c <==> Mutual(g, x, y) {
      SegmentConnected(g, r, s, gray, v, x);
      if y in c {
        SegmentConnected(g, r, s, gray, v, y);
        ReachesTrans(g, x, v, y);
        ReachesTrans(g, y, v, x);
      }
      if Mutual(g, x, y) {
        ClosedReaches(g, c + s.done, x, y);
        if y in s.done {
          ClosedReaches(g, s.done, y, x);
        }
      }
    }
  }

  lemma ComponentsSnoc(g: Graph, cs: seq<set<nat>>, c: set<nat>)
    requires ComponentsOk(g, cs) && ComponentOk(g, c, Union(cs))
    ensures ComponentsOk(g, cs + [c]) && Union(cs + [c]) == Union(cs) + c
  {
    var ds := cs + [c];
    assert ds[..|cs|] == cs;
    forall i | 0 <= i < |ds| ensures ComponentOk(g, ds[i], Union(ds[..i])) {
      if i < |cs| {
        assert ds[..i] == cs[..i];
      }
    }
  }

  lemma EmitKeepsInv(g: Graph, r: set<nat>, s: State, gray: set<nat>, v: nat)
    requires Inv(g, r, s, gray + {v}) && v !in gray
    requires forall x :: x in gray ==> Reaches(g, x, v) && s.Idx(x) < s.Idx(v)
    requires EdgesStayIn(g, {v}, s.on + s.done)
    requires LowBound(g, s, s.Idx(v), s.Idx(v), s.Idx(v))
    ensures Inv(g, r, Emit(s, v), gray)
    ensures ComponentOk(g, Segment(s, v), s.done)
  {
    var t := Emit(s, v);
    var c := Segment(s, v);
    assert EdgesStayIn(g, c, c + s.done);
    RootSegmentIsScc(g, r, s, gray, v);
    assert v in gray + {v};
    assert t.on + t.done == s.on + s.done;
    assert forall x: nat :: t.Idx(x) == s.Idx(x);
    assert Shape(g, r, t);
    forall y | y in t.on ensures HasGrayBelow(g, t, gray, y) {
      var x := GrayBelow(g, s, gray + {v}, y);
      assert x in gray;
    }
  }

  // ---------- one visit, on values ----------

  /** The edge to `w` has been accounted for in the low link `lo` of a block numbered `base`. */
  ghost predicate Seen(s: State, base: int, lo: int, w: nat) {
    w in s.on + s.done && (w in s.on && s.Idx(w) < base ==> lo <= s.Idx(w))
  }

  /** The visit of `v`, begun in state `before`, has gone through the first `i` successors. */
  ghost predicate Visiting(g: Graph, r: set<nat>, gray: set<nat>, before: State, s: State, v: nat, lo: int, i: nat)
    requires v < |g| && i <= |g[v]|
  {
    && Inv(g, r, s, gray + {v})
    && Grows(before, s)
    && v in s.on && s.Idx(v) == before.nextIndex
    && lo <= s.Idx(v)
    && Attained(g, s, v, lo)
    && LowBound(g, s, before.nextIndex + 1, before.nextIndex, lo)
    && (forall j :: 0 <= j < i ==> Seen(s, before.nextIndex, lo, g[v][j]))
  }

  /** The visit of `v`, begun in state `before`, is over. */
  ghost predicate Visited(g: Graph, r: set<nat>, gray: set<nat>, before: State, s: State, v: nat, lo: int) {
    && Inv(g, r, s, gray)
    && Grows(before, s)
    && before.nextIndex <= s.Idx(v)
    && LowBound(g, s, before.nextIndex, before.nextIndex, lo)
    && (v in s.on ==> lo < s.Idx(v) && Attained(g, s, v, lo))
    && (v !in s.on ==> lo == s.Idx(v))
  }

  lemma VisitBegins(g: Graph, r: set<nat>, gray: set<nat>, s: State, v: nat)
    requires Inv(g, r, s, gray) && v < |g| && s.Idx(v) < 0 && v in r
    requires forall x :: x in gray ==> Reaches(g, x, v)
    ensures Visiting(g, r, gray, s, Enter(s, v), v, s.nextIndex, 0)
  {
    EnterKeepsInv(g, r, s, gray, v);
    ReachesSelf(g, v);
    var t := Enter(s, v);
    assert v in t.on && t.Idx(v) == s.nextIndex;
  }

  lemma GrowsTrans(s: State, t: State, u: State)
    requires Grows(s, t) && Grows(t, u)
    ensures Grows(s, u)
  {
  }

  /** What was on the stack and below the numbering horizon stays so; nothing else appears there. */
  lemma StackBelow(g: Graph, r: set<nat>, s: State, t: State, x: nat)
    requires Shape(g, r, s) && Shape(g, r, t) && Grows(s, t) && x in t.on && t.Idx(x) < s.nextIndex
    ensures x in s.on && s.Idx(x) == t.Idx(x)
  {
    assert s.Idx(x) >= 0;
  }

  lemma SeenStays(g: Graph, r: set<nat>, s: State, t: State, base: nat, lo: int, lo': int, w: nat)
    requires Shape(g, r, s) && Shape(g, r, t) && Grows(s, t) && base <= s.nextIndex && lo' <= lo
    requires Seen(s, base, lo, w)
    ensures Seen(t, base, lo', w)
  {
    if w in t.on && t.Idx(w) < base {
      StackBelow(g, r, s, t, w);
    }
  }

  lemma AttainedStays(g: Graph, s: State, t: State, v: nat, lo: int)
    requires Grows(s, t) && Attained(g, s, v, lo) && 0 <= lo
    ensures Attained(g, t, v, lo)
  {
    var y :| y in s.on && s.Idx(y) == lo && Reaches(g, v, y);
    assert y in t.on && t.Idx(y) == lo;
  }

  lemma AttainedVia(g: Graph, s: State, v: nat, w: nat, lo: int)
    requires Edge(g, v, w) && Attained(g, s, w, lo)
    ensures Attained(g, s, v, lo)
  {
    var y :| y in s.on && s.Idx(y) == lo && Reaches(g, w, y);
    EdgeReaches(g, v, w);
    ReachesTrans(g, v, w, y);
  }

  lemma AttainedNonNegative(g: Graph, r: set<nat>, s: State, v: nat, lo: int)
    requires Shape(g, r, s) && Attained(g, s, v, lo)
    ensures 0 <= lo
  {
  }

  function Min(a: int, b: int): int {
    if a < b then a else b
  }

  lemma LowBoundAfterChild(g: Graph, r: set<nat>, base: nat, mid: State, s: State, lo: int, loW: int)
    requires Shape(g, r, mid) && Shape(g, r, s) && Grows(mid, s) && base < mid.nextIndex
    requires LowBound(g, mid, base + 1, base, lo) && LowBound(g, s, mid.nextIndex, mid.nextIndex, loW)
    ensures LowBound(g, s, base + 1, base, Min(loW, lo))
  {
    forall x, y | x in s.on && y in s.on && s.Idx(x) >= base + 1 && s.Idx(y) < base && Edge(g, x, y)
      ensures s.Idx(y) >= Min(loW, lo)
    {
      StackBelow(g, r, mid, s, y);
      if s.Idx(x) < mid.nextIndex {
        StackBelow(g, r, mid, s, x);
      }
    }
  }

  /** After visiting the unvisited successor `w`, its low link is folded in. */
  lemma VisitChild(g: Graph, r: set<nat>, gray: set<nat>, before: State, mid: State, s: State, v: nat, i: nat, lo: int, loW: int)
    requires v < |g| && i < |g[v]|
    requires Visiting(g, r, gray, before, mid, v, lo, i)
    requires Visited(g, r, gray + {v}, mid, s, g[v][i], loW)
    ensures Visiting(g, r, gray, before, s, v, Min(loW, lo), i + 1)
  {
    var w := g[v][i];
    assert Edge(g, v, w);
    GrowsTrans(before, mid, s);
    AttainedNonNegative(g, r, mid, v, lo);
    if loW < lo {
      AttainedVia(g, s, v, w, loW);
    } else {
      AttainedStays(g, mid, s, v, lo);
    }
    LowBoundAfterChild(g, r, before.nextIndex, mid, s, lo, loW);
    forall j | 0 <= j < i + 1 ensures Seen(s, before.nextIndex, Min(loW, lo), g[v][j]) {
      if j < i {
        SeenStays(g, r, mid, s, before.nextIndex, lo, Min(loW, lo), g[v][j]);
      }
    }
  }

  /** A successor that is already numbered only matters while it is on the stack. */
  lemma VisitSeen(g: Graph, r: set<nat>, gray: set<nat>, before: State, s: State, v: nat, i: nat, lo: int)
    requires v < |g| && i < |g[v]|
    requires Visiting(g, r, gray, before, s, v, lo, i) && s.Idx(g[v][i]) >= 0
    ensures Visiting(g, r, gray, before, s, v, if g[v][i] in s.on then Min(s.Idx(g[v][i]), lo) else lo, i + 1)
  {
    var w := g[v][i];
    var lo' := if w in s.on then Min(s.Idx(w), lo) else lo;
    assert Edge(g, v, w);
    EdgeReaches(g, v, w);
    forall j | 0 <= j < i + 1 ensures Seen(s, before.nextIndex, lo', g[v][j]) {
      if j < i {
        SeenStays(g, r, s, s, before.nextIndex, lo, lo', g[v][j]);
      }
    }
  }

  lemma AllSeen(g: Graph, r: set<nat>, gray: set<nat>, before: State, s: State, v: nat, lo: int)
    requires v < |g| && Visiting(g, r, gray, before, s, v, lo, |g[v]|)
    ensures EdgesStayIn(g, {v}, s.on + s.done)
    ensures LowBound(g, s, before.nextIndex, before.nextIndex, lo)
  {
    forall w: nat | Edge(g, v, w) ensures Seen(s, before.nextIndex, lo, w) {
      var j :| 0 <= j < |g[v]| && g[v][j] == w;
      assert Seen(s, before.nextIndex, lo, g[v][j]);
    }
    forall x, y | x in s.on && y in s.on && s.Idx(x) >= before.nextIndex && s.Idx(y) < before.nextIndex && Edge(g, x, y)
      ensures s.Idx(y) >= lo
    {
      assert x == v ==> Seen(s, before.nextIndex, lo, y);
    }
  }

  lemma VisitEndsInStack(g: Graph, r: set<nat>, gray: set<nat>, before: State, s: State, v: nat, lo: int)
    requires v < |g| && v !in gray && Visiting(g, r, gray, before, s, v, lo, |g[v]|)
    requires lo < s.Idx(v)
    ensures Visited(g, r, gray, before, s, v, lo)
  {
    AllSeen(g, r, gray, before, s, v, lo);
    LeaveKeepsInv(g, r, s, gray, v, lo);
  }

  lemma VisitEndsAtRoot(g: Graph, r: set<nat>, gray: set<nat>, before: State, s: State, v: nat)
    requires Inv(g, r, before, gray) && before.Idx(v) < 0
    requires forall x :: x in gray ==> Reaches(g, x, v)
    requires v < |g| && Visiting(g, r, gray, before, s, v, s.Idx(v), |g[v]|)
    ensures Visited(g, r, gray, before, Emit(s, v), v, s.Idx(v))
    ensures ComponentOk(g, Segment(s, v), s.done)
  {
    AllSeen(g, r, gray, before, s, v, s.Idx(v));
    EmitKeepsInv(g, r, s, gray, v);
    var t := Emit(s, v);
    assert forall x: nat :: t.Idx(x) == s.Idx(x);
    assert forall x :: x in before.on ==> s.Idx(x) < s.Idx(v);
    assert Grows(before, t);
  }

  // ---------- what the finished search means ----------

  /** The emitted components are exactly the strongly connected components of the reachable blocks, callees first. */
  ghost predicate IsSccDecomposition(g: Graph, r: set<nat>, cs: seq<set<nat>>) {
    // a partition of the reachable blocks
    && (forall x :: x in r <==> exists i :: 0 <= i < |cs| && x in cs[i])
    && (forall i :: 0 <= i < |cs| ==> cs[i] != {})
    && (forall i, j :: 0 <= i < j < |cs| ==> cs[i] !! cs[j])
    // two blocks share a component exactly when each reaches the other
    && (forall i, x: nat, y: nat :: 0 <= i < |cs| && x in cs[i] ==> (y in cs[i] <==> Mutual(g, x, y)))
    // a component is emitted after every component it can reach
    && (forall i, j, x: nat, y: nat :: 0 <= i < |cs| && 0 <= j < |cs| && x in cs[i] && y in cs[j] && Reaches(g, x, y) ==> j <= i)
  }

  lemma {:induction false} MembersAre(cs: seq<set<nat>>, x: nat)
    ensures x in Union(cs) <==> exists i :: 0 <= i < |cs| && x in cs[i]
  {
    if cs != [] {
      var ds := cs[..|cs| - 1];
      MembersAre(ds, x);
      if i :| 0 <= i < |ds| && x in ds[i] {
        assert x in cs[i];
      }
      if i :| 0 <= i < |cs| && x in cs[i] {
        assert i < |ds| ==> x in ds[i];
      }
    }
  }

  lemma PrefixOk(g: Graph, cs: seq<set<nat>>, k: nat)
    requires ComponentsOk(g, cs) && k <= |cs|
    ensures ComponentsOk(g, cs[..k])
  {
    forall i | 0 <= i < k ensures ComponentOk(g, cs[..k][i], Union(cs[..k][..i])) {
      assert cs[..k][..i] == cs[..i];
    }
  }

  lemma {:induction false} UnionClosed(g: Graph, cs: seq<set<nat>>)
    requires ComponentsOk(g, cs)
    ensures EdgesStayIn(g, Union(cs), Union(cs))
  {
    if cs != [] {
      PrefixOk(g, cs, |cs| - 1);
      UnionClosed(g, cs[..|cs| - 1]);
      assert ComponentOk(g, cs[|cs| - 1], Union(cs[..|cs| - 1]));
    }
  }

  lemma ComponentsDisjoint(g: Graph, cs: seq<set<nat>>, i: nat, j: nat)
    requires ComponentsOk(g, cs) && i < j < |cs|
    ensures cs[i] !! cs[j]
  {
    assert ComponentOk(g, cs[j], Union(cs[..j]));
    forall x | x in cs[i] ensures x !in cs[j] {
      assert x in cs[..j][i];
      MembersAre(cs[..j], x);
    }
  }

  lemma ComponentOrder(g: Graph, cs: seq<set<nat>>, i: nat, j: nat, x: nat, y: nat)
    requires ComponentsOk(g, cs) && i < |cs| && j < |cs| && x in cs[i] && y in cs[j] && Reaches(g, x, y)
    ensures j <= i
  {
    var ds := cs[..i + 1];
    PrefixOk(g, cs, i + 1);
    UnionClosed(g, ds);
    assert x in ds[i];
    MembersAre(ds, x);
    ClosedReaches(g, Union(ds), x, y);
    MembersAre(ds, y);
    var m :| 0 <= m < |ds| && y in ds[m];
    if i < j {
      ComponentsDisjoint(g, cs, m, j);
    }
  }

  /** Once every reachable block is numbered and no visit is in progress, the components are complete. */
  lemma FinishedIsDecomposition(g: Graph, r: set<nat>, s: State)
    requires Inv(g, r, s, {}) && ComponentsOk(g, s.comps) && Union(s.comps) == s.done
    requires forall v :: v in r ==> s.Idx(v) >= 0
    ensures IsSccDecomposition(g, r, s.comps)
  {
    var cs := s.comps;
    if y :| y in s.on {
      var _ := HasGrayBelow(g, s, {}, y);
      assert false;
    }
    forall x ensures x in r <==> exists i :: 0 <= i < |cs| && x in cs[i] {
      MembersAre(cs, x);
    }
    forall i, j | 0 <= i < j < |cs| ensures cs[i] !! cs[j] {
      ComponentsDisjoint(g, cs, i, j);
    }
    forall i | 0 <= i < |cs| ensures IsScc(g, cs[i]) {
      assert ComponentOk(g, cs[i], Union(cs[..i]));
    }
    forall i, j, x: nat, y: nat | 0 <= i < |cs| && 0 <= j < |cs| && x in cs[i] && y in cs[j] && Reaches(g, x, y)
      ensures j <= i
    {
      ComponentOrder(g, cs, i, j, x, y);
    }
  }
}
