/** Register liveness: blocks' upward-exposed uses, the backward fixpoint, and the peak. */
module Liveness {
  import opened Graphs
  import opened Sorting
  import opened Cfg
  import MustPass

  // ---------- the specification: instruction paths ----------

  ghost predicate PathStep(code: seq<Instruction>, p: seq<nat>, k: int)
    requires 0 <= k < |p| - 1
  {
    Step(code, p[k], p[k + 1])
  }

  /** Control may follow `p`; its last instruction reads `r`, and no earlier one writes it. */
  ghost predicate LivePath(code: seq<Instruction>, p: seq<nat>, r: nat) {
    && |p| > 0
    && (forall k :: 0 <= k < |p| ==> p[k] < |code|)
    && (forall k {:trigger PathStep(code, p, k)} :: 0 <= k < |p| - 1 ==> PathStep(code, p, k))
    && r in code[p[|p| - 1]].uses
    && (forall k :: 0 <= k < |p| - 1 ==> r !in code[p[k]].definitions)
  }

  /** Some path from instruction `i` reaches a use of `r` before any definition of it. */
  ghost predicate LiveAt(code: seq<Instruction>, i: nat, r: nat) {
    exists p :: LivePath(code, p, r) && p[0] == i
  }

  ghost predicate RegistersInRange(code: seq<Instruction>, registers: nat) {
    forall k, x :: 0 <= k < |code| && (x in code[k].uses || x in code[k].definitions) ==> x < registers
  }

  lemma LiveHere(code: seq<Instruction>, i: nat, r: nat)
    requires i < |code| && r in code[i].uses
    ensures LiveAt(code, i, r)
  {
    assert LivePath(code, [i], r);
  }

  lemma LiveThrough(code: seq<Instruction>, i: nat, j: nat, r: nat)
    requires i < |code| && r !in code[i].definitions && Step(code, i, j) && LiveAt(code, j, r)
    ensures LiveAt(code, i, r)
  {
    var p :| LivePath(code, p, r) && p[0] == j;
    var q := [i] + p;
    forall k | 0 <= k < |q| - 1 ensures PathStep(code, q, k) && r !in code[q[k]].definitions {
      if k > 0 {
        assert PathStep(code, p, k - 1);
        assert q[k] == p[k - 1];
      }
    }
    assert LivePath(code, q, r) && q[0] == i;
  }

  lemma LivePathTail(code: seq<Instruction>, p: seq<nat>, r: nat)
    requires LivePath(code, p, r) && |p| > 1
    ensures LivePath(code, p[1..], r) && Step(code, p[0], p[1]) && r !in code[p[0]].definitions
  {
    assert PathStep(code, p, 0);
    var q := p[1..];
    forall k | 0 <= k < |q| - 1 ensures PathStep(code, q, k) {
      assert PathStep(code, p, k + 1);
    }
  }

  // ---------- a block's effect ----------

  /** What is live before instruction `lo` when `out` is live after instruction `hi - 1`: backward, one at a time. */
  function LiveBefore(code: seq<Instruction>, lo: nat, hi: nat, out: set<nat>): set<nat>
    requires lo <= hi <= |code|
    decreases hi - lo
  {
    if lo == hi then out
    else (LiveBefore(code, lo + 1, hi, out) - Members(code[lo].definitions)) + Members(code[lo].uses)
  }

  function Defined(code: seq<Instruction>, lo: nat, hi: nat): set<nat>
    requires lo <= hi <= |code|
    decreases hi
  {
    if lo == hi then {} else Defined(code, lo, hi - 1) + Members(code[hi - 1].definitions)
  }

  /** Reads not preceded by a write inside the block: forward, one at a time. */
  function Exposed(code: seq<Instruction>, lo: nat, hi: nat): set<nat>
    requires lo <= hi <= |code|
    decreases hi
  {
    if lo == hi then {} else Exposed(code, lo, hi - 1) + (Members(code[hi - 1].uses) - Defined(code, lo, hi - 1))
  }

  lemma {:induction false} LiveBeforeSnoc(code: seq<Instruction>, lo: nat, hi: nat, out: set<nat>)
    requires lo < hi <= |code|
    ensures LiveBefore(code, lo, hi, out)
         == LiveBefore(code, lo, hi - 1, (out - Members(code[hi - 1].definitions)) + Members(code[hi - 1].uses))
    decreases hi - lo
  {
    if lo < hi - 1 {
      LiveBeforeSnoc(code, lo + 1, hi, out);
    }
  }

  /** The forward summary of a block and the backward walk over it agree. */
  lemma {:induction false} SummaryIsWalk(code: seq<Instruction>, lo: nat, hi: nat, out: set<nat>)
    requires lo <= hi <= |code|
    ensures LiveBefore(code, lo, hi, out) == Exposed(code, lo, hi) + (out - Defined(code, lo, hi))
    decreases hi
  {
    if lo < hi {
      LiveBeforeSnoc(code, lo, hi, out);
      SummaryIsWalk(code, lo, hi - 1, (out - Members(code[hi - 1].definitions)) + Members(code[hi - 1].uses));
    }
  }

  lemma {:induction false} LiveBeforeMonotone(code: seq<Instruction>, lo: nat, hi: nat, a: set<nat>, b: set<nat>)
    requires lo <= hi <= |code| && a <= b
    ensures LiveBefore(code, lo, hi, a) <= LiveBefore(code, lo, hi, b)
    decreases hi - lo
  {
    if lo < hi {
      LiveBeforeMonotone(code, lo + 1, hi, a, b);
    }
  }

  lemma {:induction false} LiveBeforeBounded(code: seq<Instruction>, registers: nat, lo: nat, hi: nat, out: set<nat>)
    requires lo <= hi <= |code| && RegistersInRange(code, registers) && forall x :: x in out ==> x < registers
    ensures forall x :: x in LiveBefore(code, lo, hi, out) ==> x < registers
    decreases hi - lo
  {
    if lo < hi {
      LiveBeforeBounded(code, registers, lo + 1, hi, out);
    }
  }

  // ---------- the equations ----------

  /** Everything live into some successor. */
  function Out(g: Graph, sol: seq<set<nat>>, n: nat): set<nat>
    requires n < |g|
  {
    set c, x | c in g[n] && c < |sol| && x in sol[c] :: x
  }

  function Transfer(g: Graph, uses: seq<set<nat>>, defs: seq<set<nat>>, sol: seq<set<nat>>, n: nat): set<nat>
    requires n < |g| == |uses| == |defs|
  {
    uses[n] + (Out(g, sol, n) - defs[n])
  }

  ghost predicate Equations(g: Graph, uses: seq<set<nat>>, defs: seq<set<nat>>) {
    |g| == |uses| == |defs|
  }

  /** `liveIn` and `liveOut` solve the liveness equations. */
  ghost predicate Consistent(g: Graph, uses: seq<set<nat>>, defs: seq<set<nat>>, liveIn: seq<set<nat>>, liveOut: seq<set<nat>>)
    requires Equations(g, uses, defs)
  {
    |liveIn| == |liveOut| == |g| && forall n {:trigger Out(g, liveIn, n)} :: 0 <= n < |g| ==>
      liveOut[n] == Out(g, liveIn, n) && liveIn[n] == Transfer(g, uses, defs, liveIn, n)
  }

  /** `top` is closed under the equations: whatever they demand is already in it. */
  ghost predicate ClosedUnder(g: Graph, uses: seq<set<nat>>, defs: seq<set<nat>>, top: seq<set<nat>>)
    requires Equations(g, uses, defs)
  {
    |top| == |g| && forall n {:trigger top[n]} :: 0 <= n < |g| ==> Transfer(g, uses, defs, top, n) <= top[n]
  }

  /** The state of the iteration lies below every closed table and can only be raised by an update. */
  ghost predicate Below(g: Graph, uses: seq<set<nat>>, defs: seq<set<nat>>, top: seq<set<nat>>,
                        liveIn: seq<set<nat>>, liveOut: seq<set<nat>>)
    requires Equations(g, uses, defs)
  {
    && ClosedUnder(g, uses, defs, top)
    && |liveIn| == |liveOut| == |g|
    && (forall n :: 0 <= n < |g| ==> liveIn[n] <= top[n])
    && (forall n {:trigger Out(g, liveIn, n)} {:trigger liveIn[n]} {:trigger liveOut[n]} :: 0 <= n < |g| ==>
          liveOut[n] <= Out(g, liveIn, n) && liveIn[n] <= Transfer(g, uses, defs, liveIn, n))
  }

  lemma OutMonotone(g: Graph, a: seq<set<nat>>, b: seq<set<nat>>, n: nat)
    requires n < |g| && |a| == |b| && forall k :: 0 <= k < |a| ==> a[k] <= b[k]
    ensures Out(g, a, n) <= Out(g, b, n)
  {
  }

  lemma RaiseKeepsBelow(g: Graph, uses: seq<set<nat>>, defs: seq<set<nat>>, top: seq<set<nat>>,
                        liveIn: seq<set<nat>>, liveOut: seq<set<nat>>, n: nat)
    requires Equations(g, uses, defs) && Below(g, uses, defs, top, liveIn, liveOut) && n < |g|
    ensures Below(g, uses, defs, top, liveIn[n := Transfer(g, uses, defs, liveIn, n)], liveOut[n := Out(g, liveIn, n)])
    ensures liveIn[n] <= Transfer(g, uses, defs, liveIn, n) <= top[n]
    ensures liveOut[n] <= Out(g, liveIn, n) <= Out(g, top, n)
  {
    var liveIn' := liveIn[n := Transfer(g, uses, defs, liveIn, n)];
    OutMonotone(g, liveIn, top, n);
    forall k | 0 <= k < |g| ensures Out(g, liveIn, k) <= Out(g, liveIn', k) {
      OutMonotone(g, liveIn, liveIn', k);
    }
  }

  /** How much of `top` is still missing. */
  ghost function Room(top: seq<set<nat>>, sol: seq<set<nat>>): nat
    requires |sol| == |top|
  {
    MustPass.TotalSize(seq(|top|, n requires 0 <= n < |top| => top[n] - sol[n]))
  }

  lemma RoomShrinks(top: seq<set<nat>>, sol: seq<set<nat>>, n: nat, s: set<nat>)
    requires n < |sol| == |top| && sol[n] <= s <= top[n]
    ensures Room(top, sol[n := s]) <= Room(top, sol)
    ensures sol[n] != s ==> Room(top, sol[n := s]) < Room(top, sol)
  {
    var a := seq(|top|, k requires 0 <= k < |top| => top[k] - sol[k]);
    var b := seq(|top|, k requires 0 <= k < |top| => top[k] - sol[n := s][k]);
    assert b == a[n := top[n] - s];
    if sol[n] != s {
      var x :| x in s && x !in sol[n];
      assert x in top[n] - sol[n];
      MustPass.TotalSizeDrops(a, n, top[n] - s);
    } else {
      assert b == a;
    }
  }

  ghost function Outs(g: Graph, top: seq<set<nat>>): seq<set<nat>> {
    seq(|g|, n requires 0 <= n < |g| => Out(g, top, n))
  }

  /** How far the whole state is from the top. */
  ghost function Gap(g: Graph, top: seq<set<nat>>, liveIn: seq<set<nat>>, liveOut: seq<set<nat>>): nat
    requires |liveIn| == |liveOut| == |top| == |g|
  {
    Room(top, liveIn) + Room(Outs(g, top), liveOut)
  }

  lemma RaiseShrinksGap(g: Graph, uses: seq<set<nat>>, defs: seq<set<nat>>, top: seq<set<nat>>,
                        liveIn: seq<set<nat>>, liveOut: seq<set<nat>>, n: nat)
    requires Equations(g, uses, defs) && Below(g, uses, defs, top, liveIn, liveOut) && n < |g|
    requires Transfer(g, uses, defs, liveIn, n) != liveIn[n] || Out(g, liveIn, n) != liveOut[n]
    ensures Gap(g, top, liveIn[n := Transfer(g, uses, defs, liveIn, n)], liveOut[n := Out(g, liveIn, n)])
          < Gap(g, top, liveIn, liveOut)
  {
    RaiseKeepsBelow(g, uses, defs, top, liveIn, liveOut, n);
    RoomShrinks(top, liveIn, n, Transfer(g, uses, defs, liveIn, n));
    RoomShrinks(Outs(g, top), liveOut, n, Out(g, liveIn, n));
  }

  // ---------- the iteration ----------

  /** The union of the successors' live-in sets. */
  method UnionOfSuccessors(g: Graph, liveIn: seq<set<nat>>, n: nat) returns (out: set<nat>)
    requires n < |g| == |liveIn|
    ensures out == Out(g, liveIn, n)
  {
    out := {};
    var k := 0;
    while k < |g[n]|
      invariant 0 <= k <= |g[n]|
      invariant out == set c, x | c in g[n][..k] && c < |liveIn| && x in liveIn[c] :: x
    {
      assert g[n][..k + 1] == g[n][..k] + [g[n][k]];
      if g[n][k] < |g| {
        out := out + liveIn[g[n][k]];
      }
      k := k + 1;
    }
    assert g[n][..k] == g[n];
  }

  /** The blocks from `block` upward satisfy their equations. */
  ghost predicate SettledFrom(g: Graph, uses: seq<set<nat>>, defs: seq<set<nat>>,
                              liveIn: seq<set<nat>>, liveOut: seq<set<nat>>, block: int)
    requires Equations(g, uses, defs) && |liveIn| == |liveOut| == |g|
  {
    forall n {:trigger Out(g, liveIn, n)} :: 0 <= n < |g| && block <= n ==>
      liveOut[n] == Out(g, liveIn, n) && liveIn[n] == Transfer(g, uses, defs, liveIn, n)
  }

  /** One pass over the blocks in descending order, updating in place. */
  method Sweep(g: Graph, uses: seq<set<nat>>, defs: seq<set<nat>>, ghost top: seq<set<nat>>,
               in0: seq<set<nat>>, out0: seq<set<nat>>)
    returns (liveIn: seq<set<nat>>, liveOut: seq<set<nat>>, changed: bool)
    requires Equations(g, uses, defs) && Below(g, uses, defs, top, in0, out0)
    ensures Below(g, uses, defs, top, liveIn, liveOut)
    ensures changed ==> Gap(g, top, liveIn, liveOut) < Gap(g, top, in0, out0)
    ensures !changed ==> liveIn == in0 && liveOut == out0 && SettledFrom(g, uses, defs, liveIn, liveOut, 0)
  {
    liveIn, liveOut, changed := in0, out0, false;
    var block := |g| - 1;
    while block >= 0
      invariant -1 <= block < |g|
      invariant Below(g, uses, defs, top, liveIn, liveOut)
      invariant changed ==> Gap(g, top, liveIn, liveOut) < Gap(g, top, in0, out0)
      invariant !changed ==> liveIn == in0 && liveOut == out0 && SettledFrom(g, uses, defs, liveIn, liveOut, block + 1)
    {
      var nextOut := UnionOfSuccessors(g, liveIn, block);
      var nextIn := uses[block] + (nextOut - defs[block]);
      if nextOut != liveOut[block] || nextIn != liveIn[block] {
        RaiseKeepsBelow(g, uses, defs, top, liveIn, liveOut, block);
        RaiseShrinksGap(g, uses, defs, top, liveIn, liveOut, block);
        liveIn, liveOut, changed := liveIn[block := nextIn], liveOut[block := nextOut], true;
      }
      block := block - 1;
    }
  }

  /** Iterates until nothing changes: a solution, and below every closed table. */
  method Solve(g: Graph, uses: seq<set<nat>>, defs: seq<set<nat>>, ghost top: seq<set<nat>>)
    returns (liveIn: seq<set<nat>>, liveOut: seq<set<nat>>)
    requires Equations(g, uses, defs) && ClosedUnder(g, uses, defs, top)
    ensures Consistent(g, uses, defs, liveIn, liveOut)
    ensures forall n :: 0 <= n < |g| ==> liveIn[n] <= top[n]
  {
    liveIn, liveOut := seq(|g|, _ => {}), seq(|g|, _ => {});
    var changed := true;
    while changed
      invariant Below(g, uses, defs, top, liveIn, liveOut)
      invariant !changed ==> SettledFrom(g, uses, defs, liveIn, liveOut, 0)
      decreases Gap(g, top, liveIn, liveOut), changed
    {
      liveIn, liveOut, changed := Sweep(g, uses, defs, top, liveIn, liveOut);
    }
  }

  // ---------- the equations against instruction paths ----------

  /** What one block has to establish: it lies in the code, and the summary tables describe it. */
  ghost predicate SummaryOk(code: seq<Instruction>, b: BasicBlock, uses: set<nat>, defs: set<nat>) {
    && b.instructions != [] && First(b) <= Last(b) < |code|
    && uses == Exposed(code, First(b), Last(b) + 1)
    && defs == Defined(code, First(b), Last(b) + 1)
  }

  ghost predicate SummariesOk(code: seq<Instruction>, blocks: seq<BasicBlock>, uses: seq<set<nat>>, defs: seq<set<nat>>) {
    |uses| == |defs| == |blocks| && forall n :: 0 <= n < |blocks| ==> SummaryOk(code, blocks[n], uses[n], defs[n])
  }

  /** Every register in `out` is read on some path from a successor. */
  ghost predicate SoundOut(code: seq<Instruction>, blocks: seq<BasicBlock>, n: nat, out: set<nat>)
    requires FaithfulCfg(code, blocks) && n < |blocks|
  {
    forall r :: r in out ==> exists c: nat :: c < |blocks| && c in blocks[n].successors && LiveAt(code, First(blocks[c]), r)
  }

  /** Walking a block backward from registers truly live after it only finds registers truly live before. */
  lemma {:induction false} WalkIsSound(code: seq<Instruction>, blocks: seq<BasicBlock>, n: nat, i: nat, out: set<nat>, r: nat)
    requires FaithfulCfg(code, blocks) && n < |blocks| && First(blocks[n]) <= i <= Last(blocks[n])
    requires SoundOut(code, blocks, n, out) && r in LiveBefore(code, i, Last(blocks[n]) + 1, out)
    ensures LiveAt(code, i, r)
    decreases Last(blocks[n]) - i
  {
    if r in code[i].uses {
      LiveHere(code, i, r);
    } else if i < Last(blocks[n]) {
      WalkIsSound(code, blocks, n, i + 1, out, r);
      assert InBlock(blocks, n, i) && StepOk(code, blocks, n, i, i + 1);
      LiveThrough(code, i, i + 1, r);
    } else {
      var c: nat :| c < |blocks| && c in blocks[n].successors && LiveAt(code, First(blocks[c]), r);
      LiveThrough(code, i, First(blocks[c]), r);
    }
  }

  /** A live path from inside a block is found by walking the block backward from its live-out set. */
  lemma {:induction false} WalkIsComplete(code: seq<Instruction>, blocks: seq<BasicBlock>, uses: seq<set<nat>>, defs: seq<set<nat>>,
                                          liveIn: seq<set<nat>>, liveOut: seq<set<nat>>, n: nat, p: seq<nat>, r: nat)
    requires FaithfulCfg(code, blocks) && SummariesOk(code, blocks, uses, defs)
    requires Consistent(GraphOf(blocks), uses, defs, liveIn, liveOut)
    requires n < |blocks| && LivePath(code, p, r) && InBlock(blocks, n, p[0])
    ensures r in LiveBefore(code, p[0], Last(blocks[n]) + 1, liveOut[n])
    decreases |p|
  {
    var i := p[0];
    if |p| > 1 {
      LivePathTail(code, p, r);
      assert StepOk(code, blocks, n, i, p[1]);
      if i < Last(blocks[n]) {
        WalkIsComplete(code, blocks, uses, defs, liveIn, liveOut, n, p[1..], r);
      } else {
        var c :| 0 <= c < |blocks| && p[1] == First(blocks[c]);
        assert c in blocks[n].successors;
        assert InBlock(blocks, c, p[1]);
        WalkIsComplete(code, blocks, uses, defs, liveIn, liveOut, c, p[1..], r);
        BlockEntry(code, blocks, uses, defs, liveIn, liveOut, c);
        assert r in liveIn[c];
        assert r in Out(GraphOf(blocks), liveIn, n);
      }
    }
  }

  /** In a solution the live-in set is the backward walk from the live-out set. */
  lemma BlockEntry(code: seq<Instruction>, blocks: seq<BasicBlock>, uses: seq<set<nat>>, defs: seq<set<nat>>,
                   liveIn: seq<set<nat>>, liveOut: seq<set<nat>>, n: nat)
    requires SummariesOk(code, blocks, uses, defs) && n < |blocks|
    requires Consistent(GraphOf(blocks), uses, defs, liveIn, liveOut)
    ensures SummaryOk(code, blocks[n], uses[n], defs[n])
    ensures liveIn[n] == LiveBefore(code, First(blocks[n]), Last(blocks[n]) + 1, liveOut[n])
  {
    var _ := Out(GraphOf(blocks), liveIn, n);
    SummaryIsWalk(code, First(blocks[n]), Last(blocks[n]) + 1, liveOut[n]);
  }

  /** Registers read before being written on some path from the start of block `n`. */
  ghost predicate IsLiveIn(code: seq<Instruction>, blocks: seq<BasicBlock>, liveIn: seq<set<nat>>)
    requires FaithfulCfg(code, blocks)
  {
    |liveIn| == |blocks| && forall n, r: nat :: 0 <= n < |blocks| ==> (r in liveIn[n] <==> LiveAt(code, First(blocks[n]), r))
  }

  ghost function TrueLive(code: seq<Instruction>, registers: nat, i: nat): set<nat> {
    set r: nat | r < registers && LiveAt(code, i, r)
  }

  /** The exact answer for every block. */
  ghost function Truth(code: seq<Instruction>, blocks: seq<BasicBlock>, registers: nat): seq<set<nat>>
    requires FaithfulCfg(code, blocks)
  {
    seq(|blocks|, n requires 0 <= n < |blocks| => TrueLive(code, registers, First(blocks[n])))
  }

  lemma LiveRegistersInRange(code: seq<Instruction>, registers: nat, i: nat, r: nat)
    requires RegistersInRange(code, registers) && LiveAt(code, i, r)
    ensures r < registers
  {
    var p :| LivePath(code, p, r) && p[0] == i;
  }

  lemma TruthIsClosed(code: seq<Instruction>, blocks: seq<BasicBlock>, registers: nat, uses: seq<set<nat>>, defs: seq<set<nat>>)
    requires FaithfulCfg(code, blocks) && RegistersInRange(code, registers) && SummariesOk(code, blocks, uses, defs)
    ensures ClosedUnder(GraphOf(blocks), uses, defs, Truth(code, blocks, registers))
  {
    var g, top := GraphOf(blocks), Truth(code, blocks, registers);
    forall n | 0 <= n < |g| ensures Transfer(g, uses, defs, top, n) <= top[n] {
      TruthIsClosedAt(code, blocks, registers, uses, defs, n);
    }
  }

  lemma TruthOutIsSound(code: seq<Instruction>, blocks: seq<BasicBlock>, registers: nat, n: nat)
    requires FaithfulCfg(code, blocks) && n < |blocks|
    ensures SoundOut(code, blocks, n, Out(GraphOf(blocks), Truth(code, blocks, registers), n))
  {
    var top := Truth(code, blocks, registers);
    forall r | r in Out(GraphOf(blocks), top, n)
      ensures exists c: nat :: c < |blocks| && c in blocks[n].successors && LiveAt(code, First(blocks[c]), r)
    {
      var c: nat :| c in GraphOf(blocks)[n] && c < |top| && r in top[c];
      assert c in blocks[n].successors && LiveAt(code, First(blocks[c]), r);
    }
  }

  lemma TruthIsClosedAt(code: seq<Instruction>, blocks: seq<BasicBlock>, registers: nat, uses: seq<set<nat>>, defs: seq<set<nat>>, n: nat)
    requires FaithfulCfg(code, blocks) && RegistersInRange(code, registers) && SummariesOk(code, blocks, uses, defs) && n < |blocks|
    ensures Transfer(GraphOf(blocks), uses, defs, Truth(code, blocks, registers), n) <= TrueLive(code, registers, First(blocks[n]))
  {
    var g, top := GraphOf(blocks), Truth(code, blocks, registers);
    TruthOutIsSound(code, blocks, registers, n);
    WalkedIsLive(code, blocks, registers, n, Out(g, top, n));
    assert SummaryOk(code, blocks[n], uses[n], defs[n]);
    TransferWalks(code, blocks[n], g, uses, defs, top, n, TrueLive(code, registers, First(blocks[n])));
  }

  lemma TransferWalks(code: seq<Instruction>, b: BasicBlock, g: Graph, uses: seq<set<nat>>, defs: seq<set<nat>>, sol: seq<set<nat>>,
                      n: nat, live: set<nat>)
    requires n < |g| == |uses| == |defs| && SummaryOk(code, b, uses[n], defs[n])
    requires LiveBefore(code, First(b), Last(b) + 1, Out(g, sol, n)) <= live
    ensures Transfer(g, uses, defs, sol, n) <= live
  {
    SummaryIsWalk(code, First(b), Last(b) + 1, Out(g, sol, n));
  }

  lemma WalkedIsLive(code: seq<Instruction>, blocks: seq<BasicBlock>, registers: nat, n: nat, out: set<nat>)
    requires FaithfulCfg(code, blocks) && RegistersInRange(code, registers) && n < |blocks| && SoundOut(code, blocks, n, out)
    ensures First(blocks[n]) <= Last(blocks[n]) < |code|
    ensures LiveBefore(code, First(blocks[n]), Last(blocks[n]) + 1, out) <= TrueLive(code, registers, First(blocks[n]))
  {
    forall r | r in LiveBefore(code, First(blocks[n]), Last(blocks[n]) + 1, out)
      ensures r in TrueLive(code, registers, First(blocks[n]))
    {
      WalkIsSound(code, blocks, n, First(blocks[n]), out, r);
      LiveRegistersInRange(code, registers, First(blocks[n]), r);
    }
  }

  lemma SolutionIsExact(code: seq<Instruction>, blocks: seq<BasicBlock>, registers: nat, uses: seq<set<nat>>, defs: seq<set<nat>>,
                        liveIn: seq<set<nat>>, liveOut: seq<set<nat>>)
    requires FaithfulCfg(code, blocks) && SummariesOk(code, blocks, uses, defs)
    requires Consistent(GraphOf(blocks), uses, defs, liveIn, liveOut)
    requires forall n :: 0 <= n < |blocks| ==> liveIn[n] <= Truth(code, blocks, registers)[n]
    ensures IsLiveIn(code, blocks, liveIn)
  {
    forall n: nat, r: nat | n < |blocks| && LiveAt(code, First(blocks[n]), r) ensures r in liveIn[n] {
      var p :| LivePath(code, p, r) && p[0] == First(blocks[n]);
      BlockEntry(code, blocks, uses, defs, liveIn, liveOut, n);
      assert InBlock(blocks, n, p[0]);
      WalkIsComplete(code, blocks, uses, defs, liveIn, liveOut, n, p, r);
    }
  }

  /** The upward-exposed uses and the definitions of one block. */
  method Summarise(code: seq<Instruction>, block: BasicBlock, registers: nat) returns (uses: set<nat>, defs: set<nat>)
    requires RegistersInRange(code, registers) && block.instructions != []
    requires IsRange(block.instructions, First(block), Last(block) + 1) && Last(block) < |code|
    ensures uses == Exposed(code, First(block), Last(block) + 1)
    ensures defs == Defined(code, First(block), Last(block) + 1)
  {
    uses, defs := {}, {};
    var k := 0;
    while k < |block.instructions|
      invariant 0 <= k <= |block.instructions|
      invariant uses == Exposed(code, First(block), First(block) + k)
      invariant defs == Defined(code, First(block), First(block) + k)
    {
      var i := code[block.instructions[k]];
      uses := AddReads(i.uses, registers, defs, uses);
      defs := AddRegisters(i.definitions, registers, defs);
      k := k + 1;
    }
  }

  method AddReads(regs: seq<nat>, registers: nat, defs: set<nat>, uses: set<nat>) returns (uses': set<nat>)
    requires forall x :: x in regs ==> x < registers
    ensures uses' == uses + (Members(regs) - defs)
  {
    uses' := uses;
    var k := 0;
    while k < |regs|
      invariant 0 <= k <= |regs| && uses' == uses + (Members(regs[..k]) - defs)
    {
      assert regs[..k + 1] == regs[..k] + [regs[k]] && regs[k] in regs;
      if regs[k] < registers && regs[k] !in defs {
        uses' := uses' + {regs[k]};
      }
      k := k + 1;
    }
    assert regs[..k] == regs;
  }

  method AddRegisters(regs: seq<nat>, registers: nat, s: set<nat>) returns (s': set<nat>)
    requires forall x :: x in regs ==> x < registers
    ensures s' == s + Members(regs)
  {
    s' := s;
    var k := 0;
    while k < |regs|
      invariant 0 <= k <= |regs| && s' == s + Members(regs[..k])
    {
      assert regs[..k + 1] == regs[..k] + [regs[k]] && regs[k] in regs;
      if regs[k] < registers {
        s' := s' + {regs[k]};
      }
      k := k + 1;
    }
    assert regs[..k] == regs;
  }

  method RemoveRegisters(regs: seq<nat>, registers: nat, s: set<nat>) returns (s': set<nat>)
    requires forall x :: x in regs ==> x < registers
    ensures s' == s - Members(regs)
  {
    s' := s;
    var k := 0;
    while k < |regs|
      invariant 0 <= k <= |regs| && s' == s - Members(regs[..k])
    {
      assert regs[..k + 1] == regs[..k] + [regs[k]] && regs[k] in regs;
      if regs[k] < registers {
        s' := s' - {regs[k]};
      }
      k := k + 1;
    }
    assert regs[..k] == regs;
  }

  /** Registers live before and after every block. */
  method ComputeLiveness(code: seq<Instruction>, blocks: seq<BasicBlock>, registers: nat)
    returns (liveIn: seq<set<nat>>, liveOut: seq<set<nat>>)
    requires FaithfulCfg(code, blocks) && RegistersInRange(code, registers)
    ensures IsLiveIn(code, blocks, liveIn)
    ensures |liveOut| == |blocks| && forall n :: 0 <= n < |blocks| ==> liveOut[n] == Out(GraphOf(blocks), liveIn, n)
    ensures forall n :: 0 <= n < |blocks| ==> liveIn[n] == LiveBefore(code, First(blocks[n]), Last(blocks[n]) + 1, liveOut[n])
  {
    var uses, defs := SummariseAll(code, blocks, registers);
    TruthIsClosed(code, blocks, registers, uses, defs);
    liveIn, liveOut := Solve(GraphOf(blocks), uses, defs, Truth(code, blocks, registers));
    SolutionIsExact(code, blocks, registers, uses, defs, liveIn, liveOut);
    forall n | 0 <= n < |blocks|
      ensures liveOut[n] == Out(GraphOf(blocks), liveIn, n)
      ensures liveIn[n] == LiveBefore(code, First(blocks[n]), Last(blocks[n]) + 1, liveOut[n])
    {
      BlockEntry(code, blocks, uses, defs, liveIn, liveOut, n);
    }
  }

  method SummariseAll(code: seq<Instruction>, blocks: seq<BasicBlock>, registers: nat) returns (uses: seq<set<nat>>, defs: seq<set<nat>>)
    requires FaithfulCfg(code, blocks) && RegistersInRange(code, registers)
    ensures SummariesOk(code, blocks, uses, defs)
  {
    uses, defs := [], [];
    var n := 0;
    while n < |blocks|
      invariant 0 <= n <= |blocks| && |uses| == |defs| == n
      invariant forall k :: 0 <= k < n ==> SummaryOk(code, blocks[k], uses[k], defs[k])
    {
      var u, d := Summarise(code, blocks[n], registers);
      uses, defs := uses + [u], defs + [d];
      n := n + 1;
    }
  }

  // ---------- the peak ----------

  /** What is live before instruction `k` of the block. */
  ghost function LiveIn(code: seq<Instruction>, block: BasicBlock, k: nat, out: set<nat>): set<nat>
    requires block.instructions != [] && k <= Last(block) + 1 <= |code|
  {
    LiveBefore(code, k, Last(block) + 1, out)
  }

  ghost predicate AtMost(code: seq<Instruction>, block: BasicBlock, from: nat, out: set<nat>, peak: nat)
    requires block.instructions != [] && Last(block) < |code|
  {
    forall k: nat {:trigger LiveIn(code, block, k, out)} ::
      from <= k <= Last(block) + 1 ==> |LiveIn(code, block, k, out)| <= peak
  }

  /** One instruction, backward: its definitions end live ranges, its uses begin them. */
  method StepBack(code: seq<Instruction>, k: nat, registers: nat, live: set<nat>) returns (before: set<nat>)
    requires k < |code| && RegistersInRange(code, registers)
    ensures before == (live - Members(code[k].definitions)) + Members(code[k].uses)
  {
    before := RemoveRegisters(code[k].definitions, registers, live);
    before := AddRegisters(code[k].uses, registers, before);
  }

  lemma PeakStep(code: seq<Instruction>, block: BasicBlock, k: nat, out: set<nat>, peak: nat)
    requires block.instructions != [] && k <= Last(block) < |code| && AtMost(code, block, k + 1, out, peak)
    ensures var before := (LiveIn(code, block, k + 1, out) - Members(code[k].definitions)) + Members(code[k].uses);
      && LiveIn(code, block, k, out) == before
      && AtMost(code, block, k, out, if |before| > peak then |before| else peak)
  {
  }

  /** Walks the block backward; the walk ends at the live-in set and the peak is the largest set on the way. */
  method PeakOfBlock(code: seq<Instruction>, block: BasicBlock, registers: nat, liveOut: set<nat>)
    returns (peak: nat, live: set<nat>, ghost at: nat)
    requires RegistersInRange(code, registers) && block.instructions != []
    requires IsRange(block.instructions, First(block), Last(block) + 1) && Last(block) < |code|
    ensures live == LiveBefore(code, First(block), Last(block) + 1, liveOut)
    ensures AtMost(code, block, First(block), liveOut, peak)
    ensures First(block) <= at <= Last(block) + 1 && |LiveIn(code, block, at, liveOut)| == peak
  {
    live := liveOut;
    peak := |live|;
    at := Last(block) + 1;
    var k := |block.instructions|;
    while k > 0
      invariant 0 <= k <= |block.instructions|
      invariant live == LiveIn(code, block, First(block) + k, liveOut)
      invariant AtMost(code, block, First(block) + k, liveOut, peak)
      invariant First(block) <= at <= Last(block) + 1 && |LiveIn(code, block, at, liveOut)| == peak
    {
      k := k - 1;
      live := StepBack(code, block.instructions[k], registers, live);
      PeakStep(code, block, First(block) + k, liveOut, peak);
      if |live| > peak {
        peak := |live|;
        at := First(block) + k;
      }
    }
  }

  // ---------- all tables ----------

  /** Live-in sets are exact, live-out sets are their unions, and the count is the peak of each block. */
  ghost predicate Tables(code: seq<Instruction>, blocks: seq<BasicBlock>, liveIn: seq<set<nat>>, liveOut: seq<set<nat>>, counts: seq<nat>)
    requires FaithfulCfg(code, blocks)
  {
    && IsLiveIn(code, blocks, liveIn)
    && |liveOut| == |counts| == |blocks|
    && (forall n :: 0 <= n < |blocks| ==> liveOut[n] == Out(GraphOf(blocks), liveIn, n))
    && (forall n :: 0 <= n < |blocks| ==> CountOk(code, blocks[n], liveIn[n], liveOut[n], counts[n]))
  }

  /** Walking back from `out` ends at `in`, and `count` is the most registers live at any point of the walk. */
  ghost predicate CountOk(code: seq<Instruction>, block: BasicBlock, liveIn: set<nat>, out: set<nat>, count: nat) {
    && block.instructions != [] && First(block) <= Last(block) < |code|
    && liveIn == LiveBefore(code, First(block), Last(block) + 1, out)
    && AtMost(code, block, First(block), out, count)
    && exists at {:trigger LiveIn(code, block, at, out)} :: First(block) <= at <= Last(block) + 1 && |LiveIn(code, block, at, out)| == count
  }

  /** The peak bounds both live sets of the block. */
  lemma PeakBoundsBothEnds(code: seq<Instruction>, block: BasicBlock, liveIn: set<nat>, out: set<nat>, count: nat)
    requires CountOk(code, block, liveIn, out, count)
    ensures |liveIn| <= count && |out| <= count
  {
    assert |LiveIn(code, block, First(block), out)| <= count;
    assert |LiveIn(code, block, Last(block) + 1, out)| <= count;
  }

  /** The block's instructions lie in a row, and walking them back from `liveOut` ends at `liveIn`. */
  ghost predicate Walkable(code: seq<Instruction>, block: BasicBlock, liveIn: set<nat>, liveOut: set<nat>) {
    && block.instructions != [] && First(block) <= Last(block) < |code|
    && IsRange(block.instructions, First(block), Last(block) + 1)
    && liveIn == LiveBefore(code, First(block), Last(block) + 1, liveOut)
  }

  /** The recorded count of one block. */
  method CountBlock(code: seq<Instruction>, block: BasicBlock, registers: nat, ghost liveIn: set<nat>, liveOut: set<nat>)
    returns (count: nat)
    requires RegistersInRange(code, registers) && Walkable(code, block, liveIn, liveOut)
    ensures CountOk(code, block, liveIn, liveOut, count)
  {
    var peak, live, at := PeakOfBlock(code, block, registers, liveOut);
    count := peak;
  }

  ghost predicate CountedUpTo(code: seq<Instruction>, blocks: seq<BasicBlock>, liveIn: seq<set<nat>>, liveOut: seq<set<nat>>, counts: seq<nat>)
    requires |counts| <= |blocks| == |liveIn| == |liveOut|
  {
    forall k :: 0 <= k < |counts| ==> CountOk(code, blocks[k], liveIn[k], liveOut[k], counts[k])
  }

  method CountBlocks(code: seq<Instruction>, blocks: seq<BasicBlock>, registers: nat, ghost liveIn: seq<set<nat>>, liveOut: seq<set<nat>>)
    returns (counts: seq<nat>)
    requires RegistersInRange(code, registers) && |blocks| == |liveIn| == |liveOut|
    requires forall n :: 0 <= n < |blocks| ==> Walkable(code, blocks[n], liveIn[n], liveOut[n])
    ensures |counts| == |blocks| && CountedUpTo(code, blocks, liveIn, liveOut, counts)
  {
    counts := [];
    while |counts| < |blocks|
      invariant |counts| <= |blocks| && CountedUpTo(code, blocks, liveIn, liveOut, counts)
    {
      var n := |counts|;
      var count := CountBlock(code, blocks[n], registers, liveIn[n], liveOut[n]);
      counts := counts + [count];
    }
  }

  method AnalyseLiveness(code: seq<Instruction>, blocks: seq<BasicBlock>, registers: nat)
    returns (liveIn: seq<set<nat>>, liveOut: seq<set<nat>>, counts: seq<nat>)
    requires FaithfulCfg(code, blocks) && RegistersInRange(code, registers)
    ensures Tables(code, blocks, liveIn, liveOut, counts)
  {
    liveIn, liveOut := ComputeLiveness(code, blocks, registers);
    forall n | 0 <= n < |blocks| ensures Walkable(code, blocks[n], liveIn[n], liveOut[n]) {
    }
    counts := CountBlocks(code, blocks, registers, liveIn, liveOut);
  }
}
