/** The search itself: the state the recursive visit captures, updated in place. */
module Tarjan {
  import opened Graphs
  import opened Sorting
  import opened TarjanTheory

  function Cleared(on: seq<bool>, c: set<nat>): seq<bool> {
    seq(|on|, x requires 0 <= x < |on| => on[x] && x !in c)
  }

  lemma MembersCons(q: seq<nat>, k: nat)
    requires k < |q|
    ensures Members(q[k..]) == Members(q[k + 1..]) + {q[k]}
  {
    assert q[k..] == [q[k]] + q[k + 1..];
  }

  /** The stack holds numbered blocks in visiting order, and `onStack` is its membership test. */
  ghost predicate StackOk(stack: seq<nat>, index: seq<int>, onStack: seq<bool>) {
    && |index| == |onStack|
    && (forall i :: 0 <= i < |stack| ==> stack[i] < |index|)
    && (forall i, j :: 0 <= i < j < |stack| ==> index[stack[i]] < index[stack[j]])
    && (forall v :: 0 <= v < |onStack| ==> (onStack[v] <==> v in stack))
  }

  ghost function Unnumbered(index: seq<int>): set<nat> {
    set v: nat | v < |index| && index[v] < 0
  }

  lemma FewerUnvisited(s: State, t: State, v: nat)
    requires Grows(s, t) && v < |s.index| && s.Idx(v) < 0 && t.Idx(v) >= 0
    ensures Unnumbered(t.index) < Unnumbered(s.index)
  {
    forall x | x in Unnumbered(t.index) ensures x in Unnumbered(s.index) {
      assert t.Idx(x) < 0 && s.Idx(x) < 0;
    }
    assert v in Unnumbered(s.index) && v !in Unnumbered(t.index);
  }

  class Search {
    const g: Graph
    const reachable: set<nat>
    var index: seq<int>
    var low: seq<int>
    var stack: seq<nat>
    var onStack: seq<bool>
    var nextIndex: nat
    var components: seq<set<nat>>

    ghost function Now(): State
      reads this
    {
      State(index, Members(stack), Union(components), nextIndex, components)
    }

    ghost predicate Valid()
      reads this
    {
      && Closed(g, reachable)
      && |index| == |low| == |onStack| == |g|
      && StackOk(stack, index, onStack)
      && ComponentsOk(g, components)
    }

    ghost function Unvisited(): set<nat>
      reads this
    {
      Unnumbered(index)
    }

    constructor (g: Graph, reachable: set<nat>)
      requires Closed(g, reachable)
      ensures Valid() && this.g == g && this.reachable == reachable
      ensures Inv(g, reachable, Now(), {}) && components == [] && forall v :: v in reachable ==> index[v] < 0
    {
      this.g, this.reachable := g, reachable;
      index := seq(|g|, _ => -1);
      low := seq(|g|, _ => -1);
      stack := [];
      onStack := seq(|g|, _ => false);
      nextIndex := 0;
      components := [];
    }

    /** Pops the stack down to and including `v` and records what was popped as one component. */
    method PopComponent(v: nat) returns (ghost k: nat)
      requires StackOk(stack, index, onStack) && v in stack
      modifies this`stack, this`onStack, this`components
      ensures k < |old(stack)| && old(stack)[k] == v && stack == old(stack)[..k]
      ensures components == old(components) + [Members(old(stack)[k..])]
      ensures onStack == Cleared(old(onStack), components[|components| - 1])
    {
      var component := {};
      k := |stack|;
      while stack != []
        invariant 0 <= k <= |old(stack)| && stack == old(stack)[..k]
        invariant v in stack
        invariant components == old(components) && onStack == Cleared(old(onStack), component)
        invariant component == Members(old(stack)[k..])
        decreases |stack|
      {
        var w := stack[|stack| - 1];
        stack := stack[..|stack| - 1];
        onStack := onStack[w := false];
        component := component + {w};
        k := k - 1;
        MembersCons(old(stack), k);
        assert onStack == Cleared(old(onStack), component);
        if w == v {
          break;
        }
      }
      components := components + [component];
    }

    static lemma SegmentIsTop(stack: seq<nat>, index: seq<int>, onStack: seq<bool>, v: nat, k: nat)
      requires StackOk(stack, index, onStack) && k < |stack| && stack[k] == v
      ensures forall x :: x in stack[k..] <==> x in stack && index[x] >= index[v]
      ensures forall x :: x in stack[..k] <==> x in stack && index[x] < index[v]
    {
      forall x | x in stack ensures if index[x] >= index[v] then x in stack[k..] else x in stack[..k] {
        var i :| 0 <= i < |stack| && stack[i] == x;
        if i >= k {
          assert stack[k..][i - k] == x;
        } else {
          assert stack[..k][i] == x;
        }
      }
      forall x | x in stack[k..] ensures x in stack && index[x] >= index[v] {
        var i :| 0 <= i < |stack[k..]| && stack[k..][i] == x;
        assert stack[k + i] == x;
      }
      forall x | x in stack[..k] ensures x in stack && index[x] < index[v] {
        var i :| 0 <= i < k && stack[..k][i] == x;
        assert stack[i] == x;
      }
    }

    static lemma EnterReady(g: Graph, r: set<nat>, s: State, gray: set<nat>)
      requires Inv(g, r, s, gray)
      ensures forall x :: 0 <= x < |s.index| ==> s.index[x] < s.nextIndex
      ensures forall x :: x in s.on ==> x < |s.index| && s.index[x] >= 0
    {
      forall x: nat | x < |s.index| ensures s.index[x] < s.nextIndex {
        assert s.Idx(x) < s.nextIndex;
      }
      forall x | x in s.on ensures x < |s.index| && s.index[x] >= 0 {
        assert s.Idx(x) >= 0;
      }
    }

    /** Numbers `v` and pushes it. */
    method Enter(v: nat)
      requires StackOk(stack, index, onStack) && |low| == |index| && v < |index| && index[v] < 0
      requires forall x :: 0 <= x < |index| ==> index[x] < nextIndex
      requires forall x :: x in stack ==> x < |index| && index[x] >= 0
      modifies this`index, this`low, this`nextIndex, this`stack, this`onStack
      ensures StackOk(stack, index, onStack)
      ensures Now() == TarjanTheory.Enter(old(Now()), v) && low == old(low)[v := old(nextIndex)]
    {
      index := index[v := nextIndex];
      low := low[v := nextIndex];
      nextIndex := nextIndex + 1;
      stack := stack + [v];
      onStack := onStack[v := true];
    }

    /** Takes the component of the root `v` off the stack. */
    method LeaveRoot(v: nat)
      requires Valid() && v in stack
      requires forall x :: x in stack ==> x < |index| && index[x] >= 0
      requires ComponentOk(g, Segment(Now(), v), Union(components))
      modifies this`stack, this`onStack, this`components
      ensures Valid() && Now() == Emit(old(Now()), v)
    {
      ghost var last := Now();
      ComponentsSnoc(g, components, Segment(last, v));
      ghost var k := PopComponent(v);
      PopIsEmit(old(stack), index, old(onStack), old(components), last, v, k, onStack);
    }

    /** Ends the visit of `v`. */
    method Leave(v: nat, ghost gray: set<nat>, ghost before: State)
      requires Valid() && v < |g| && v !in gray
      requires Inv(g, reachable, before, gray) && before.Idx(v) < 0
      requires forall x :: x in gray ==> Reaches(g, x, v)
      requires Visiting(g, reachable, gray, before, Now(), v, low[v], |g[v]|)
      modifies this`stack, this`onStack, this`components
      ensures Valid() && Visited(g, reachable, gray, before, Now(), v, low[v])
    {
      ghost var last := Now();
      assert last.Idx(v) == index[v];
      if low[v] == index[v] {
        VisitEndsAtRoot(g, reachable, gray, before, last, v);
        EnterReady(g, reachable, last, gray + {v});
        LeaveRoot(v);
      } else {
        VisitEndsInStack(g, reachable, gray, before, last, v, low[v]);
      }
    }

    static lemma PopIsEmit(stack: seq<nat>, index: seq<int>, onStack: seq<bool>, components: seq<set<nat>>, s: State, v: nat,
                           k: nat, onStack': seq<bool>)
      requires StackOk(stack, index, onStack) && k < |stack| && stack[k] == v
      requires s.index == index && s.on == Members(stack) && s.comps == components && s.done == Union(components)
      requires forall x :: x in stack ==> x < |index| && index[x] >= 0
      requires onStack' == Cleared(onStack, Members(stack[k..]))
      ensures Members(stack[k..]) == Segment(s, v)
      ensures Members(stack[..k]) == s.on - Segment(s, v)
      ensures Union(components + [Members(stack[k..])]) == s.done + Segment(s, v)
      ensures StackOk(stack[..k], index, onStack')
    {
      SegmentIsTop(stack, index, onStack, v, k);
      assert (components + [Members(stack[k..])])[..|components|] == components;
      assert Members(stack[k..]) == Segment(s, v);
      forall x | 0 <= x < |onStack'| ensures onStack'[x] <==> x in stack[..k] {
        assert x in stack ==> (x in stack[..k] <==> x !in stack[k..]);
      }
    }

    /** Visits `v` and everything unvisited it leads to; `gray` are the blocks being visited by the callers. */
    method StrongConnect(v: nat, ghost gray: set<nat>)
      requires Valid() && Inv(g, reachable, Now(), gray)
      requires v in reachable && index[v] < 0
      requires forall x :: x in gray ==> Reaches(g, x, v)
      modifies this
      ensures Valid() && Visited(g, reachable, gray, old(Now()), Now(), v, low[v])
      ensures forall x :: x in gray ==> x < |g| && low[x] == old(low)[x]
      decreases Unvisited(), 0
    {
      ghost var before := Now();
      ghost var unvisited := Unvisited();
      VisitBegins(g, reachable, gray, before, v);
      EnterReady(g, reachable, before, gray);
      Enter(v);

      var i := 0;
      while i < |g[v]|
        invariant 0 <= i <= |g[v]|
        invariant Valid() && Visiting(g, reachable, gray, before, Now(), v, low[v], i)
        invariant forall x :: x in gray ==> x < |g| && low[x] == old(low)[x]
      {
        assert Unvisited() < unvisited by {
          FewerUnvisited(before, Now(), v);
        }
        Successor(v, i, gray, before);
        i := i + 1;
      }
      Leave(v, gray, before);
    }

    /** Handles the `i`th successor of `v`. */
    method Successor(v: nat, i: nat, ghost gray: set<nat>, ghost before: State)
      requires Valid() && v in reachable && v !in gray && i < |g[v]|
      requires Visiting(g, reachable, gray, before, Now(), v, low[v], i)
      requires forall x :: x in gray ==> Reaches(g, x, v)
      modifies this
      ensures Valid() && Visiting(g, reachable, gray, before, Now(), v, low[v], i + 1)
      ensures forall x :: x in gray ==> x < |g| && low[x] == old(low)[x]
      decreases Unvisited(), 2
    {
      var w := g[v][i];
      ReachableSuccessor(g, reachable, v, i);
      if w in reachable {
        if index[w] < 0 {
          Descend(v, i, gray, before);
        } else {
          VisitSeen(g, reachable, gray, before, Now(), v, i, low[v]);
          if onStack[w] {
            low := low[v := if index[w] < low[v] then index[w] else low[v]];
          }
        }
      }
    }

    static lemma ReachableSuccessor(g: Graph, r: set<nat>, v: nat, i: nat)
      requires Closed(g, r) && v in r && i < |g[v]|
      ensures g[v][i] in r && g[v][i] < |g| && Edge(g, v, g[v][i])
    {
      assert Edge(g, v, g[v][i]);
    }

    /** Visits the unvisited `i`th successor of `v` and folds its low link in. */
    method Descend(v: nat, i: nat, ghost gray: set<nat>, ghost before: State)
      requires Valid() && v < |g| && v !in gray && i < |g[v]|
      requires Visiting(g, reachable, gray, before, Now(), v, low[v], i)
      requires forall x :: x in gray ==> Reaches(g, x, v)
      requires g[v][i] in reachable && index[g[v][i]] < 0
      modifies this
      ensures Valid() && Visiting(g, reachable, gray, before, Now(), v, low[v], i + 1)
      ensures forall x :: x in gray ==> x < |g| && low[x] == old(low)[x]
      decreases Unvisited(), 1
    {
      var w := g[v][i];
      ghost var mid, lo := Now(), low[v];
      ChildReady(g, reachable, gray, before, mid, v, i, lo);
      StrongConnect(w, gray + {v});
      VisitChild(g, reachable, gray, before, mid, Now(), v, i, lo, low[w]);
      low := low[v := if low[w] < low[v] then low[w] else low[v]];
    }

    static lemma ChildReady(g: Graph, r: set<nat>, gray: set<nat>, before: State, s: State, v: nat, i: nat, lo: int)
      requires v < |g| && i < |g[v]| && Visiting(g, r, gray, before, s, v, lo, i)
      requires forall x :: x in gray ==> Reaches(g, x, v)
      ensures Inv(g, r, s, gray + {v}) && forall x :: x in gray + {v} ==> Reaches(g, x, g[v][i])
    {
      assert Edge(g, v, g[v][i]);
      forall x | x in gray + {v} ensures Reaches(g, x, g[v][i]) {
        ReachesSelf(g, v);
        ReachesEdge(g, x, v, g[v][i]);
      }
    }

    /** Starts a visit at every reachable block not yet numbered. */
    method Run()
      requires Valid() && Inv(g, reachable, Now(), {})
      modifies this
      ensures Valid() && IsSccDecomposition(g, reachable, components)
    {
      var block := 0;
      while block < |g|
        invariant 0 <= block <= |g|
        invariant Valid() && Inv(g, reachable, Now(), {})
        invariant forall v :: 0 <= v < block && v in reachable ==> index[v] >= 0
      {
        if block in reachable && index[block] < 0 {
          ghost var before := Now();
          StrongConnect(block, {});
          NumbersStay(before, Now());
        }
        block := block + 1;
      }
      forall v | v in reachable ensures Now().Idx(v) >= 0 {
        assert v < |g|;
      }
      FinishedIsDecomposition(g, reachable, Now());
    }

    static lemma NumbersStay(s: State, t: State)
      requires Grows(s, t)
      ensures forall v :: 0 <= v < |s.index| && s.index[v] >= 0 ==> t.index[v] >= 0
    {
      forall v: nat | v < |s.index| && s.index[v] >= 0 ensures t.index[v] >= 0 {
        assert s.Idx(v) >= 0;
      }
    }
  }

  /** The components of the reachable blocks, in the order the search emits them. */
  method StronglyConnectedComponents(g: Graph, reachable: set<nat>) returns (components: seq<set<nat>>)
    requires Closed(g, reachable)
    ensures IsSccDecomposition(g, reachable, components)
  {
    var search := new Search(g, reachable);
    search.Run();
    components := search.components;
  }
}
