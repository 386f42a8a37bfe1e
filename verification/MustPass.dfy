/**
 Greatest fixpoints of "every walk passes through": the theory shared by dominators and post-dominators.
 `nb[b]` are the blocks a walk may go to from `b`, and a walk is complete when it ends in `stop`.
 */
module MustPass {

  ghost predicate StepAt(nb: seq<set<nat>>, p: seq<nat>, i: int)
    requires 0 <= i < |p| - 1
  {
    p[i] < |nb| && p[i + 1] in nb[p[i]]
  }

  /** A walk from `b` that ends in `stop`. */
  ghost predicate Walk(nb: seq<set<nat>>, stop: set<nat>, p: seq<nat>, b: nat) {
    && |p| > 0
    && p[0] == b
    && p[|p| - 1] in stop
    && forall i {:trigger StepAt(nb, p, i)} :: 0 <= i < |p| - 1 ==> StepAt(nb, p, i)
  }

  ghost predicate OnEveryWalk(nb: seq<set<nat>>, stop: set<nat>, b: nat, d: nat) {
    forall p :: Walk(nb, stop, p, b) ==> d in p
  }

  /** `b` itself and what all its neighbours agree on. */
  ghost function Next(nb: seq<set<nat>>, r: set<nat>, sol: seq<set<nat>>, b: nat): set<nat>
    requires b < |nb| == |sol| && (forall n :: n in nb[b] ==> n < |sol|)
  {
    (set d | d in r && forall n :: n in nb[b] ==> d in sol[n]) + {b}
  }

  ghost predicate Setting(nb: seq<set<nat>>, stop: set<nat>, r: set<nat>) {
    stop <= r && forall b :: b in r ==> b < |nb| && nb[b] <= r
  }

  /** `sol` lies above the exact answer and can only be lowered by an update. */
  ghost predicate Approx(nb: seq<set<nat>>, stop: set<nat>, r: set<nat>, sol: seq<set<nat>>) {
    && Setting(nb, stop, r)
    && |sol| == |nb|
    && (forall b :: b in stop ==> sol[b] == {b})
    && (forall b {:trigger Next(nb, r, sol, b)} {:trigger sol[b]} :: b in r - stop ==> Next(nb, r, sol, b) <= sol[b] <= r)
    && (forall b, d {:trigger OnEveryWalk(nb, stop, b, d)} :: b in r && d in r && OnEveryWalk(nb, stop, b, d) ==> d in sol[b])
  }

  ghost predicate Fixpoint(nb: seq<set<nat>>, stop: set<nat>, r: set<nat>, sol: seq<set<nat>>)
    requires Approx(nb, stop, r, sol)
  {
    forall b {:trigger sol[b]} :: b in r - stop ==> sol[b] == Next(nb, r, sol, b)
  }

  lemma WalkCons(nb: seq<set<nat>>, stop: set<nat>, b: nat, p: seq<nat>, n: nat)
    requires b < |nb| && n in nb[b] && Walk(nb, stop, p, n)
    ensures Walk(nb, stop, [b] + p, b)
  {
    var q := [b] + p;
    forall i | 0 <= i < |q| - 1 ensures StepAt(nb, q, i) {
      if i > 0 {
        assert StepAt(nb, p, i - 1);
      }
    }
  }

  lemma WalkTail(nb: seq<set<nat>>, stop: set<nat>, p: seq<nat>, b: nat)
    requires Walk(nb, stop, p, b) && |p| > 1
    ensures Walk(nb, stop, p[1..], p[1]) && b < |nb| && p[1] in nb[b]
  {
    assert StepAt(nb, p, 0);
    var q := p[1..];
    forall i | 0 <= i < |q| - 1 ensures StepAt(nb, q, i) {
      assert StepAt(nb, p, i + 1);
    }
  }

  lemma OnEveryWalkStep(nb: seq<set<nat>>, stop: set<nat>, b: nat, d: nat, n: nat)
    requires b < |nb| && n in nb[b] && d != b && OnEveryWalk(nb, stop, b, d)
    ensures OnEveryWalk(nb, stop, n, d)
  {
    forall p | Walk(nb, stop, p, n) ensures d in p {
      WalkCons(nb, stop, b, p, n);
    }
  }

  lemma OnEveryWalkFromStop(nb: seq<set<nat>>, stop: set<nat>, b: nat, d: nat)
    requires b in stop && OnEveryWalk(nb, stop, b, d)
    ensures d == b
  {
    assert Walk(nb, stop, [b], b);
  }

  /** The start of both analyses: boundary blocks know only themselves, the others assume everything. */
  lemma StartIsApprox(nb: seq<set<nat>>, stop: set<nat>, r: set<nat>, sol: seq<set<nat>>)
    requires Setting(nb, stop, r) && |sol| == |nb|
    requires forall b :: b in r ==> sol[b] == if b in stop then {b} else r
    ensures Approx(nb, stop, r, sol)
  {
    forall b, d | b in r && d in r && OnEveryWalk(nb, stop, b, d) ensures d in sol[b] {
      if b in stop {
        OnEveryWalkFromStop(nb, stop, b, d);
      }
    }
  }

  /** Replacing one entry by what its neighbours agree on keeps the approximation. */
  lemma UpdateIsApprox(nb: seq<set<nat>>, stop: set<nat>, r: set<nat>, sol: seq<set<nat>>, b: nat)
    requires Approx(nb, stop, r, sol) && b in r - stop
    ensures Approx(nb, stop, r, sol[b := Next(nb, r, sol, b)])
    ensures Next(nb, r, sol, b) <= sol[b]
  {
    var sol' := sol[b := Next(nb, r, sol, b)];
    forall c | c in r - stop ensures Next(nb, r, sol', c) <= sol'[c] <= r {
      assert Next(nb, r, sol', c) <= Next(nb, r, sol, c);
    }
    forall c, d | c in r && d in r && OnEveryWalk(nb, stop, c, d) ensures d in sol'[c] {
      if c == b && d != b {
        forall n | n in nb[b] ensures d in sol[n] {
          OnEveryWalkStep(nb, stop, b, d, n);
        }
      }
    }
  }

  lemma {:induction false} FixpointOnWalk(nb: seq<set<nat>>, stop: set<nat>, r: set<nat>, sol: seq<set<nat>>,
                                          p: seq<nat>, b: nat, d: nat)
    requires Approx(nb, stop, r, sol) && Fixpoint(nb, stop, r, sol)
    requires b in r && Walk(nb, stop, p, b) && d in sol[b]
    ensures d in p
    decreases |p|
  {
    if b !in stop && d != b {
      assert |p| > 1;
      WalkTail(nb, stop, p, b);
      FixpointOnWalk(nb, stop, r, sol, p[1..], p[1], d);
    }
  }

  /** A stable approximation is exact. */
  lemma FixpointIsExact(nb: seq<set<nat>>, stop: set<nat>, r: set<nat>, sol: seq<set<nat>>, b: nat, d: nat)
    requires Approx(nb, stop, r, sol) && Fixpoint(nb, stop, r, sol) && b in r
    ensures d in sol[b] <==> d in r && OnEveryWalk(nb, stop, b, d)
  {
    if d in sol[b] {
      forall p | Walk(nb, stop, p, b) ensures d in p {
        FixpointOnWalk(nb, stop, r, sol, p, b, d);
      }
    }
  }

  // ---------- termination ----------

  function TotalSize(sol: seq<set<nat>>): nat {
    if sol == [] then 0 else |sol[0]| + TotalSize(sol[1..])
  }

  lemma {:induction false} TotalSizeUpdate(sol: seq<set<nat>>, b: nat, s: set<nat>)
    requires b < |sol|
    ensures TotalSize(sol[b := s]) == TotalSize(sol) - |sol[b]| + |s|
  {
    if b == 0 {
      assert sol[b := s][1..] == sol[1..];
    } else {
      TotalSizeUpdate(sol[1..], b - 1, s);
      assert sol[b := s][1..] == sol[1..][b - 1 := s];
    }
  }

  lemma SubsetSize(a: set<nat>, b: set<nat>)
    requires a <= b
    ensures |a| <= |b| && (a != b ==> |a| < |b|)
  {
    assert b == a + (b - a);
  }

  /** Lowering one entry lowers the total. */
  lemma TotalSizeDrops(sol: seq<set<nat>>, b: nat, s: set<nat>)
    requires b < |sol| && s <= sol[b] && s != sol[b]
    ensures TotalSize(sol[b := s]) < TotalSize(sol)
  {
    TotalSizeUpdate(sol, b, s);
    SubsetSize(s, sol[b]);
  }
}
