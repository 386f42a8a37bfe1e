/** Decoded instructions, and the basic blocks and edges built from them. */
module Cfg {
  import opened Graphs
  import opened Sorting

  /** Opcode classes, as far as control flow is concerned. */
  datatype Op =
    | Plain         // continues with the next instruction
    | Return
    | Goto          // JUMP, JUMPBACK, JUMPX and the generic-for preparations
    | Branch        // conditional jumps and the numeric- and generic-for instructions
    | LoadBool      // LOADB, which may skip instructions
    | FastCall      // falls through to the ordinary call, or skips it
    | ProtoCompare  // CMPPROTO

  datatype Instruction = Instruction(
    offset: nat, length: nat, op: Op, jumpTarget: int, uses: seq<nat>, definitions: seq<nat>)

  predicate IsConditional(op: Op) {
    op.Branch? || op.LoadBool? || op.FastCall? || op.ProtoCompare?
  }

  /** Where the instruction after `k` starts. */
  function After(code: seq<Instruction>, k: nat): nat
    requires k < |code|
  {
    code[k].offset + code[k].length
  }

  ghost predicate IsBoundary(code: seq<Instruction>, pc: int) {
    exists k :: 0 <= k < |code| && code[k].offset == pc
  }

  /** What the validator has established: instructions tile the code and jumps land on instructions. */
  ghost predicate Validated(code: seq<Instruction>, size: nat) {
    && |code| > 0
    && code[0].offset == 0
    && (forall k :: 0 <= k < |code| ==> code[k].length > 0)
    && (forall k :: 0 <= k < |code| - 1 ==> After(code, k) == code[k + 1].offset)
    && After(code, |code| - 1) == size
    && (forall k :: 0 <= k < |code| ==> JumpOk(code, k))
  }

  ghost predicate JumpOk(code: seq<Instruction>, k: nat)
    requires k < |code|
  {
    var i := code[k];
    && (i.jumpTarget >= 0 ==> IsBoundary(code, i.jumpTarget))
    && (i.op.Plain? || i.op.Return? ==> i.jumpTarget == -1)
    && (i.op.Goto? || i.op.Branch? || i.op.FastCall? || i.op.ProtoCompare? ==> i.jumpTarget >= 0)
    && (i.op.LoadBool? ==> i.jumpTarget >= -1)
  }

  predicate FallsThrough(i: Instruction) {
    IsConditional(i.op) || (i.jumpTarget < 0 && !i.op.Return?)
  }

  /** Control may go from instruction `i` directly to instruction `j`. */
  predicate Step(code: seq<Instruction>, i: nat, j: nat) {
    && i < |code| && j < |code|
    && (code[i].jumpTarget == code[j].offset || (j == i + 1 && FallsThrough(code[i])))
  }

  lemma {:induction false} OffsetsIncrease(code: seq<Instruction>, size: nat, i: nat, j: nat)
    requires Validated(code, size) && i < j < |code|
    ensures After(code, i) <= code[j].offset && code[j].offset < size
    decreases |code| - i
  {
    assert After(code, i) == code[i + 1].offset;
    if i + 1 < j {
      OffsetsIncrease(code, size, i + 1, j);
    } else if j < |code| - 1 {
      OffsetsIncrease(code, size, j, |code| - 1);
    }
  }

  lemma OffsetInjective(code: seq<Instruction>, size: nat, i: nat, j: nat)
    requires Validated(code, size) && i < |code| && j < |code| && code[i].offset == code[j].offset
    ensures i == j
  {
    if i < j {
      OffsetsIncrease(code, size, i, j);
    } else if j < i {
      OffsetsIncrease(code, size, j, i);
    }
  }

  lemma OffsetBelowSize(code: seq<Instruction>, size: nat, i: nat)
    requires Validated(code, size) && i < |code|
    ensures code[i].offset < size
  {
    if i < |code| - 1 {
      OffsetsIncrease(code, size, i, |code| - 1);
    }
  }

  // ---------- leaders ----------

  ghost predicate EndsBlock(i: Instruction) {
    i.jumpTarget >= 0 || i.op.Return?
  }

  /** The offsets at which a basic block must start. */
  ghost predicate IsLeader(code: seq<Instruction>, size: nat, pc: nat) {
    || pc == 0
    || (exists k :: 0 <= k < |code| && code[k].jumpTarget == pc)
    || (pc < size && exists k :: 0 <= k < |code| && EndsBlock(code[k]) && After(code, k) == pc)
  }

  ghost predicate IsLeaderList(code: seq<Instruction>, size: nat, starts: seq<nat>) {
    Ascending(starts) && forall pc: nat :: pc in starts <==> IsLeader(code, size, pc)
  }

  /** The leader list is determined by the code, so any two passes that compute one agree. */
  lemma LeaderListUnique(code: seq<Instruction>, size: nat, s: seq<nat>, t: seq<nat>)
    requires IsLeaderList(code, size, s) && IsLeaderList(code, size, t)
    ensures s == t
  {
    forall x ensures x in s <==> x in t {
      assert x in s <==> IsLeader(code, size, x);
    }
    AscendingUnique(s, t);
  }

  lemma LeaderIsBoundary(code: seq<Instruction>, size: nat, pc: nat)
    requires Validated(code, size) && IsLeader(code, size, pc)
    ensures IsBoundary(code, pc) && pc < size
  {
    if pc == 0 {
      assert code[0].offset == 0;
      OffsetBelowSize(code, size, 0);
    } else if k :| 0 <= k < |code| && code[k].jumpTarget == pc {
      assert JumpOk(code, k);
      var j :| 0 <= j < |code| && code[j].offset == pc;
      OffsetBelowSize(code, size, j);
    } else {
      var k :| 0 <= k < |code| && EndsBlock(code[k]) && After(code, k) == pc;
      assert k < |code| - 1;
      assert code[k + 1].offset == pc;
    }
  }

  /** The members of `starts` in ascending order; all of them lie below `size`. */
  method SortStarts(starts: set<nat>, size: nat) returns (sorted: seq<nat>)
    requires forall pc :: pc in starts ==> pc < size
    ensures Ascending(sorted) && forall pc :: pc in sorted <==> pc in starts
  {
    sorted := [];
    var pc := 0;
    while pc < size
      invariant 0 <= pc <= size
      invariant Ascending(sorted) && forall i :: 0 <= i < |sorted| ==> sorted[i] < pc
      invariant forall x :: x in sorted <==> x in starts && x < pc
    {
      if pc in starts {
        sorted := sorted + [pc];
      }
      pc := pc + 1;
    }
  }

  /** The two passes over the decoded instructions that collect block starts. */
  method CollectStarts(code: seq<Instruction>, size: nat) returns (sorted: seq<nat>)
    requires Validated(code, size)
    ensures IsLeaderList(code, size, sorted)
  {
    var starts: set<nat> := {0};
    var k := 0;
    while k < |code|
      invariant 0 <= k <= |code|
      invariant forall pc: nat :: pc in starts <==> pc == 0 || exists j :: 0 <= j < k && code[j].jumpTarget == pc
    {
      if code[k].jumpTarget >= 0 {
        starts := starts + {code[k].jumpTarget as nat};
      }
      k := k + 1;
    }
    ghost var targets := starts;
    k := 0;
    while k < |code|
      invariant 0 <= k <= |code|
      invariant forall pc: nat :: pc in starts <==>
          pc in targets || (pc < size && exists j :: 0 <= j < k && EndsBlock(code[j]) && After(code, j) == pc)
    {
      if (code[k].jumpTarget >= 0 || code[k].op.Return?) && code[k].offset + code[k].length < size {
        starts := starts + {code[k].offset + code[k].length};
      }
      k := k + 1;
    }
    forall pc | pc in starts ensures pc < size {
      LeaderIsBoundary(code, size, pc);
    }
    sorted := SortStarts(starts, size);
  }

  // ---------- basic blocks ----------

  datatype BasicBlock = BasicBlock(
    id: nat, start: nat, end: int, instructions: seq<nat>, successors: seq<nat>, predecessors: seq<nat>)

  function First(b: BasicBlock): nat
    requires b.instructions != []
  {
    b.instructions[0]
  }

  function Last(b: BasicBlock): nat
    requires b.instructions != []
  {
    b.instructions[|b.instructions| - 1]
  }

  /** Consecutive instruction indices from `lo` up to but not including `hi`. */
  ghost predicate IsRange(s: seq<nat>, lo: nat, hi: nat) {
    lo <= hi && |s| == hi - lo && forall k :: 0 <= k < |s| ==> s[k] == lo + k
  }

  /** The blocks cut the instruction array into consecutive non-empty pieces. */
  ghost predicate Tiles(code: seq<Instruction>, blocks: seq<BasicBlock>) {
    && |blocks| > 0
    && (forall n :: 0 <= n < |blocks| ==> blocks[n].id == n && blocks[n].instructions != [])
    && (forall n :: 0 <= n < |blocks| ==> IsRange(blocks[n].instructions, First(blocks[n]), Last(blocks[n]) + 1))
    && First(blocks[0]) == 0
    && (forall n :: 0 <= n < |blocks| - 1 ==> First(blocks[n + 1]) == Last(blocks[n]) + 1)
    && Last(blocks[|blocks| - 1]) + 1 == |code|
  }

  ghost predicate InBlock(blocks: seq<BasicBlock>, n: nat, i: nat)
    requires n < |blocks| && blocks[n].instructions != []
  {
    First(blocks[n]) <= i <= Last(blocks[n])
  }

  /** Block edges are exactly the steps of the last instructions. */
  ghost predicate EdgesAreSteps(code: seq<Instruction>, blocks: seq<BasicBlock>)
    requires Tiles(code, blocks)
  {
    forall n, c: nat :: 0 <= n < |blocks| ==>
      (c in blocks[n].successors <==> c < |blocks| && Step(code, Last(blocks[n]), First(blocks[c])))
  }

  /** Inside a block control only moves to the next instruction, and it enters blocks only at their first instruction. */
  ghost predicate StepsRespectBlocks(code: seq<Instruction>, blocks: seq<BasicBlock>)
    requires Tiles(code, blocks)
  {
    forall n: nat, i: nat, j: nat {:trigger StepOk(code, blocks, n, i, j)} {:trigger InBlock(blocks, n, i), Step(code, i, j)} ::
      n < |blocks| && InBlock(blocks, n, i) ==> StepOk(code, blocks, n, i, j)
  }

  ghost predicate StepOk(code: seq<Instruction>, blocks: seq<BasicBlock>, n: nat, i: nat, j: nat)
    requires Tiles(code, blocks) && n < |blocks|
  {
    if i < Last(blocks[n]) then Step(code, i, j) <==> j == i + 1
    else Step(code, i, j) ==> exists c :: 0 <= c < |blocks| && j == First(blocks[c])
  }

  ghost predicate Mirrored(blocks: seq<BasicBlock>) {
    forall a, b: nat :: 0 <= a < |blocks| && b < |blocks| ==>
      (b in blocks[a].successors <==> a in blocks[b].predecessors)
  }

  /** The successor lists as a graph. */
  function GraphOf(blocks: seq<BasicBlock>): (g: Graph)
    ensures |g| == |blocks| && forall n :: 0 <= n < |g| ==> g[n] == blocks[n].successors
  {
    seq(|blocks|, n requires 0 <= n < |blocks| => blocks[n].successors)
  }

  /** Blocks lie inside the code and know the offset of their first instruction. */
  ghost predicate Aligned(code: seq<Instruction>, blocks: seq<BasicBlock>)
    requires Tiles(code, blocks)
  {
    forall n :: 0 <= n < |blocks| ==>
      First(blocks[n]) <= Last(blocks[n]) < |code| && blocks[n].start == code[First(blocks[n])].offset
  }

  ghost predicate FaithfulCfg(code: seq<Instruction>, blocks: seq<BasicBlock>) {
    && Tiles(code, blocks)
    && Aligned(code, blocks)
    && EdgesAreSteps(code, blocks)
    && StepsRespectBlocks(code, blocks)
    && Mirrored(blocks)
    && Wf(GraphOf(blocks))
  }

  // ---------- cutting ----------

  /** How many instructions start before `pc`. */
  ghost function IndexAt(code: seq<Instruction>, pc: int): nat {
    if code == [] then 0
    else if code[|code| - 1].offset < pc then |code|
    else IndexAt(code[..|code| - 1], pc)
  }

  ghost predicate Increasing(code: seq<Instruction>) {
    forall i, j :: 0 <= i < j < |code| ==> code[i].offset < code[j].offset
  }

  lemma {:induction false} IndexAtSplits(code: seq<Instruction>, pc: int)
    requires Increasing(code)
    ensures IndexAt(code, pc) <= |code|
    ensures forall k :: 0 <= k < |code| ==> (k < IndexAt(code, pc) <==> code[k].offset < pc)
  {
    if code != [] && code[|code| - 1].offset >= pc {
      var init := code[..|code| - 1];
      IndexAtSplits(init, pc);
      forall k | 0 <= k < |code| ensures k < IndexAt(code, pc) <==> code[k].offset < pc {
        if k < |code| - 1 {
          assert init[k] == code[k];
        }
      }
    }
  }

  lemma IndexAtBoundary(code: seq<Instruction>, k: nat)
    requires Increasing(code) && k < |code|
    ensures IndexAt(code, code[k].offset) == k
  {
    var m := IndexAt(code, code[k].offset);
    IndexAtSplits(code, code[k].offset);
    var _ := if m < |code| then code[m].offset else 0;
  }

  lemma ValidatedIncreasing(code: seq<Instruction>, size: nat)
    requires Validated(code, size)
    ensures Increasing(code)
  {
    forall i, j | 0 <= i < j < |code| ensures code[i].offset < code[j].offset {
      OffsetsIncrease(code, size, i, j);
    }
  }

  /** The instructions whose offsets lie between `start` and `end`. */
  method InstructionsBetween(code: seq<Instruction>, start: nat, end: int) returns (indices: seq<nat>)
    requires Increasing(code) && start <= end + 1
    ensures IsRange(indices, IndexAt(code, start), IndexAt(code, end + 1))
  {
    ghost var lo, hi := IndexAt(code, start), IndexAt(code, end + 1);
    IndexAtSplits(code, start);
    IndexAtSplits(code, end + 1);
    ghost var _ := if hi < |code| then code[hi].offset else 0;
    indices := [];
    var k := 0;
    while k < |code|
      invariant 0 <= k <= |code|
      invariant IsRange(indices, lo, if k < lo then lo else if k < hi then k else hi)
    {
      if code[k].offset >= start && code[k].offset <= end {
        indices := indices + [k];
      }
      k := k + 1;
    }
  }

  ghost predicate SuccessorsOk(code: seq<Instruction>, sorted: seq<nat>, n: nat, last: nat, successors: seq<nat>)
    requires last < |code|
  {
    forall c: nat :: c in successors <==>
      c < |sorted| && (sorted[c] == code[last].jumpTarget || (c == n + 1 && FallsThrough(code[last])))
  }

  /** The successor list of the `n`th block, ending with instruction `last`: sorted and without repetition. */
  method BlockSuccessors(code: seq<Instruction>, sorted: seq<nat>, n: nat, last: nat) returns (successors: seq<nat>)
    requires n < |sorted| && Ascending(sorted) && last < |code|
    ensures SuccessorsOk(code, sorted, n, last, successors)
    ensures Ascending(successors)
  {
    var target := code[last].jumpTarget;
    successors := [];
    if target >= 0 {
      var j := 0;
      while j < |sorted|
        invariant 0 <= j <= |sorted|
        invariant successors == [] || (|successors| == 1 && successors[0] < j && sorted[successors[0]] == target)
        invariant forall c: nat :: c < j && sorted[c] == target ==> c in successors
      {
        if sorted[j] == target {
          successors := successors + [j];
        }
        j := j + 1;
      }
    }
    var next := false;
    if IsConditional(code[last].op) && n + 1 < |sorted| {
      next := true;
    } else if code[last].jumpTarget < 0 && !code[last].op.Return? && n + 1 < |sorted| {
      next := true;
    }
    if next {
      if successors == [] {
        successors := [n + 1];
      } else if successors[0] < n + 1 {
        successors := successors + [n + 1];
      } else if successors[0] > n + 1 {
        successors := [n + 1] + successors;
      }
    }
  }

  // ---------- the blocks of a function ----------

  /** Where the `n`th block ends: at the next leader, or at the end of the code. */
  function Bound(sorted: seq<nat>, size: nat, n: nat): nat {
    if n < |sorted| then sorted[n] else size
  }

  ghost predicate BlockOk(code: seq<Instruction>, size: nat, sorted: seq<nat>, n: nat, b: BasicBlock)
    requires n < |sorted|
  {
    && b.id == n && b.start == sorted[n] && b.end == Bound(sorted, size, n + 1) - 1
    && b.instructions != []
    && IsRange(b.instructions, IndexAt(code, sorted[n]), IndexAt(code, Bound(sorted, size, n + 1)))
    && b.instructions[|b.instructions| - 1] < |code|
    && SuccessorsOk(code, sorted, n, b.instructions[|b.instructions| - 1], b.successors)
    && Ascending(b.successors)
  }

  ghost predicate BlocksOk(code: seq<Instruction>, size: nat, sorted: seq<nat>, blocks: seq<BasicBlock>) {
    |blocks| <= |sorted| && forall n :: 0 <= n < |blocks| ==> BlockOk(code, size, sorted, n, blocks[n])
  }

  lemma LeaderIndex(code: seq<Instruction>, size: nat, sorted: seq<nat>, n: nat)
    requires Validated(code, size) && IsLeaderList(code, size, sorted) && n < |sorted|
    ensures IndexAt(code, sorted[n]) < |code| && code[IndexAt(code, sorted[n])].offset == sorted[n]
    ensures sorted[n] < Bound(sorted, size, n + 1)
    ensures IndexAt(code, sorted[n]) < IndexAt(code, Bound(sorted, size, n + 1)) <= |code|
  {
    assert sorted[n] in sorted;
    LeaderIsBoundary(code, size, sorted[n]);
    ValidatedIncreasing(code, size);
    var k :| 0 <= k < |code| && code[k].offset == sorted[n];
    IndexAtBoundary(code, k);
    IndexAtSplits(code, Bound(sorted, size, n + 1));
  }

  method CutBlocks(code: seq<Instruction>, size: nat, sorted: seq<nat>) returns (blocks: seq<BasicBlock>)
    requires Validated(code, size) && IsLeaderList(code, size, sorted)
    ensures |blocks| == |sorted| && BlocksOk(code, size, sorted, blocks)
    ensures forall n :: 0 <= n < |blocks| ==> blocks[n].predecessors == []
  {
    blocks := [];
    var n := 0;
    ValidatedIncreasing(code, size);
    while n < |sorted|
      invariant 0 <= n <= |sorted| && |blocks| == n
      invariant BlocksOk(code, size, sorted, blocks)
      invariant forall m :: 0 <= m < |blocks| ==> blocks[m].predecessors == []
    {
      LeaderIndex(code, size, sorted, n);
      var end := (if n + 1 < |sorted| then sorted[n + 1] else size) - 1;
      var instructions := InstructionsBetween(code, sorted[n], end);
      var successors := [];
      if instructions != [] {
        successors := BlockSuccessors(code, sorted, n, instructions[|instructions| - 1]);
      }
      blocks := blocks + [BasicBlock(n, sorted[n], end, instructions, successors, [])];
      n := n + 1;
    }
  }

  lemma {:induction false} BlockRange(code: seq<Instruction>, size: nat, sorted: seq<nat>, blocks: seq<BasicBlock>, n: nat)
    requires Validated(code, size) && IsLeaderList(code, size, sorted)
    requires |blocks| == |sorted| && BlocksOk(code, size, sorted, blocks) && n < |blocks|
    ensures blocks[n].instructions != []
    ensures First(blocks[n]) == IndexAt(code, sorted[n]) && Last(blocks[n]) + 1 == IndexAt(code, Bound(sorted, size, n + 1))
    ensures First(blocks[n]) <= Last(blocks[n]) < |code| && code[First(blocks[n])].offset == sorted[n]
  {
    LeaderIndex(code, size, sorted, n);
  }

  lemma CutBlocksTile(code: seq<Instruction>, size: nat, sorted: seq<nat>, blocks: seq<BasicBlock>)
    requires Validated(code, size) && IsLeaderList(code, size, sorted)
    requires |blocks| == |sorted| && BlocksOk(code, size, sorted, blocks)
    ensures Tiles(code, blocks)
  {
    assert IsLeader(code, size, 0) && 0 in sorted;
    forall n | 0 <= n < |blocks|
      ensures blocks[n].id == n && blocks[n].instructions != []
      ensures IsRange(blocks[n].instructions, First(blocks[n]), Last(blocks[n]) + 1)
      ensures n + 1 < |blocks| ==> First(blocks[n + 1]) == Last(blocks[n]) + 1
    {
      BlockRange(code, size, sorted, blocks, n);
      if n + 1 < |blocks| {
        BlockRange(code, size, sorted, blocks, n + 1);
      }
    }
    assert sorted[0] == 0;
    ValidatedIncreasing(code, size);
    IndexAtBoundary(code, 0);
    BlockRange(code, size, sorted, blocks, 0);
    BlockRange(code, size, sorted, blocks, |blocks| - 1);
    IndexAtSplits(code, size);
    OffsetBelowSize(code, size, |code| - 1);
    assert IndexAt(code, size) == |code|;
  }

  lemma {:induction false} FirstsIncrease(code: seq<Instruction>, blocks: seq<BasicBlock>, m: nat, n: nat)
    requires Tiles(code, blocks) && m < n < |blocks|
    ensures First(blocks[m]) <= Last(blocks[m]) < First(blocks[n]) <= Last(blocks[n])
    decreases n - m
  {
    assert First(blocks[m + 1]) == Last(blocks[m]) + 1;
    assert IsRange(blocks[m].instructions, First(blocks[m]), Last(blocks[m]) + 1);
    assert IsRange(blocks[n].instructions, First(blocks[n]), Last(blocks[n]) + 1);
    if m + 1 < n {
      FirstsIncrease(code, blocks, m + 1, n);
    }
  }

  lemma CutBlocksEdges(code: seq<Instruction>, size: nat, sorted: seq<nat>, blocks: seq<BasicBlock>, n: nat, c: nat)
    requires Validated(code, size) && IsLeaderList(code, size, sorted)
    requires |blocks| == |sorted| && BlocksOk(code, size, sorted, blocks) && Tiles(code, blocks) && n < |blocks|
    ensures c in blocks[n].successors <==> c < |blocks| && Step(code, Last(blocks[n]), First(blocks[c]))
  {
    BlockRange(code, size, sorted, blocks, n);
    if c < |blocks| {
      BlockRange(code, size, sorted, blocks, c);
      if c <= n {
        if c < n {
          FirstsIncrease(code, blocks, c, n);
        }
      } else if n + 1 < c {
        FirstsIncrease(code, blocks, n + 1, c);
        assert First(blocks[n + 1]) == Last(blocks[n]) + 1;
        BlockRange(code, size, sorted, blocks, n + 1);
      }
    }
  }

  /** An instruction that ends a block is the last of its block. */
  lemma InnerDoesNotEnd(code: seq<Instruction>, size: nat, sorted: seq<nat>, blocks: seq<BasicBlock>, n: nat, i: nat)
    requires Validated(code, size) && IsLeaderList(code, size, sorted)
    requires |blocks| == |sorted| && BlocksOk(code, size, sorted, blocks) && Tiles(code, blocks) && n < |blocks|
    requires First(blocks[n]) <= i < Last(blocks[n])
    ensures i + 1 < |code| && !EndsBlock(code[i])
  {
    BlockRange(code, size, sorted, blocks, n);
    ValidatedIncreasing(code, size);
    if EndsBlock(code[i]) {
      assert After(code, i) == code[i + 1].offset;
      OffsetBelowSize(code, size, i + 1);
      assert IsLeader(code, size, code[i + 1].offset);
      var m :| 0 <= m < |sorted| && sorted[m] == code[i + 1].offset;
      IndexAtSplits(code, Bound(sorted, size, n + 1));
      assert false;
    }
  }

  lemma CutBlocksSteps(code: seq<Instruction>, size: nat, sorted: seq<nat>, blocks: seq<BasicBlock>, n: nat, i: nat, j: nat)
    requires Validated(code, size) && IsLeaderList(code, size, sorted)
    requires |blocks| == |sorted| && BlocksOk(code, size, sorted, blocks) && Tiles(code, blocks) && n < |blocks|
    requires InBlock(blocks, n, i)
    ensures StepOk(code, blocks, n, i, j)
  {
    BlockRange(code, size, sorted, blocks, n);
    if i < Last(blocks[n]) {
      InnerDoesNotEnd(code, size, sorted, blocks, n, i);
    } else if Step(code, i, j) && code[i].jumpTarget == code[j].offset {
      assert IsLeader(code, size, code[j].offset);
      var c :| 0 <= c < |sorted| && sorted[c] == code[j].offset;
      BlockRange(code, size, sorted, blocks, c);
      OffsetInjective(code, size, j, First(blocks[c]));
    } else if Step(code, i, j) {
      assert n + 1 < |blocks|;
      assert First(blocks[n + 1]) == Last(blocks[n]) + 1;
    }
  }

  // ---------- predecessors ----------

  ghost predicate SameButPredecessors(a: seq<BasicBlock>, b: seq<BasicBlock>) {
    |a| == |b| && forall n :: 0 <= n < |a| ==> a[n] == b[n].(predecessors := a[n].predecessors)
  }

  /** Successor and predecessor lists are sorted, and name blocks, none twice. */
  ghost predicate ListsSorted(blocks: seq<BasicBlock>) {
    forall n :: 0 <= n < |blocks| ==>
      && Ascending(blocks[n].successors) && Ascending(blocks[n].predecessors)
      && forall p :: p in blocks[n].predecessors ==> p < |blocks|
  }

  /** The edges out of the first `n` blocks, and the first `k` out of block `n`, are mirrored, in order. */
  ghost predicate MirroredSoFar(cut: seq<BasicBlock>, blocks: seq<BasicBlock>, n: nat, k: nat) {
    && SameButPredecessors(blocks, cut)
    && forall b :: 0 <= b < |cut| ==> PredecessorsSoFar(cut, blocks[b].predecessors, n, k, b)
  }

  ghost predicate PredecessorsSoFar(cut: seq<BasicBlock>, preds: seq<nat>, n: nat, k: nat, b: nat) {
    && Ascending(preds)
    && forall a: nat :: a in preds <==> a < |cut| && b in (if a < n then cut[a].successors else if a == n then UpTo(cut[n].successors, k) else [])
  }

  function UpTo(s: seq<nat>, k: nat): seq<nat> {
    s[..if k <= |s| then k else |s|]
  }

  lemma MirrorEdge(cut: seq<BasicBlock>, blocks: seq<BasicBlock>, n: nat, k: nat)
    requires MirroredSoFar(cut, blocks, n, k) && n < |cut| && k < |cut[n].successors| && Ascending(cut[n].successors)
    requires cut[n].successors[k] < |cut|
    ensures var s := cut[n].successors[k];
      MirroredSoFar(cut, blocks[s := blocks[s].(predecessors := blocks[s].predecessors + [n])], n, k + 1)
  {
    var s := cut[n].successors[k];
    var after := blocks[s := blocks[s].(predecessors := blocks[s].predecessors + [n])];
    assert UpTo(cut[n].successors, k + 1) == UpTo(cut[n].successors, k) + [s];
    forall b | 0 <= b < |cut| ensures PredecessorsSoFar(cut, after[b].predecessors, n, k + 1, b) {
      assert PredecessorsSoFar(cut, blocks[b].predecessors, n, k, b);
      if b == s {
        NewestIsLast(cut, blocks[s].predecessors, n, k, s);
      }
    }
  }

  /** Block `n` is not yet listed, and all that are come before it. */
  lemma NewestIsLast(cut: seq<BasicBlock>, preds: seq<nat>, n: nat, k: nat, s: nat)
    requires PredecessorsSoFar(cut, preds, n, k, s) && n < |cut| && k < |cut[n].successors| && cut[n].successors[k] == s
    requires Ascending(cut[n].successors)
    ensures Ascending(preds + [n])
  {
    assert s !in UpTo(cut[n].successors, k);
    forall i | 0 <= i < |preds| ensures preds[i] < n {
      assert preds[i] in preds;
    }
  }

  lemma NextBlockMirrored(cut: seq<BasicBlock>, blocks: seq<BasicBlock>, n: nat)
    requires n < |cut| && MirroredSoFar(cut, blocks, n, |cut[n].successors|)
    ensures MirroredSoFar(cut, blocks, n + 1, 0)
  {
    assert UpTo(cut[n].successors, |cut[n].successors|) == cut[n].successors;
    forall b | 0 <= b < |cut| ensures PredecessorsSoFar(cut, blocks[b].predecessors, n + 1, 0, b) {
      assert PredecessorsSoFar(cut, blocks[b].predecessors, n, |cut[n].successors|, b);
    }
  }

  method AddPredecessors(cut: seq<BasicBlock>) returns (blocks: seq<BasicBlock>)
    requires forall n :: 0 <= n < |cut| ==> cut[n].id == n && cut[n].predecessors == [] && Ascending(cut[n].successors)
    requires forall n, k :: 0 <= n < |cut| && 0 <= k < |cut[n].successors| ==> cut[n].successors[k] < |cut|
    ensures SameButPredecessors(blocks, cut) && Mirrored(blocks) && ListsSorted(blocks)
  {
    blocks := cut;
    var n := 0;
    while n < |cut|
      invariant 0 <= n <= |cut| && MirroredSoFar(cut, blocks, n, 0)
    {
      var k := 0;
      while k < |cut[n].successors|
        invariant 0 <= k <= |cut[n].successors| && MirroredSoFar(cut, blocks, n, k)
      {
        var s := cut[n].successors[k];
        MirrorEdge(cut, blocks, n, k);
        blocks := blocks[s := blocks[s].(predecessors := blocks[s].predecessors + [cut[n].id])];
        k := k + 1;
      }
      NextBlockMirrored(cut, blocks, n);
      n := n + 1;
    }
    AllMirrored(cut, blocks);
  }

  lemma AllMirrored(cut: seq<BasicBlock>, blocks: seq<BasicBlock>)
    requires MirroredSoFar(cut, blocks, |cut|, 0) && forall n :: 0 <= n < |cut| ==> Ascending(cut[n].successors)
    ensures Mirrored(blocks) && ListsSorted(blocks)
  {
    forall b | 0 <= b < |cut|
      ensures Ascending(blocks[b].predecessors) && forall p :: p in blocks[b].predecessors ==> p < |cut|
      ensures forall a :: 0 <= a < |cut| ==> (a in blocks[b].predecessors <==> b in cut[a].successors)
    {
      assert PredecessorsSoFar(cut, blocks[b].predecessors, |cut|, 0, b);
    }
  }

  /** Splits the instructions into basic blocks and connects them. */
  method BuildBlocks(code: seq<Instruction>, size: nat) returns (blocks: seq<BasicBlock>, ghost sorted: seq<nat>)
    requires Validated(code, size)
    ensures FaithfulCfg(code, blocks) && ListsSorted(blocks)
    ensures IsLeaderList(code, size, sorted) && |sorted| == |blocks|
    ensures forall n :: 0 <= n < |blocks| ==> blocks[n].start == sorted[n] && blocks[n].end == Bound(sorted, size, n + 1) - 1
  {
    var starts := CollectStarts(code, size);
    sorted := starts;
    var cut := CutBlocks(code, size, starts);
    CutBlocksTile(code, size, sorted, cut);
    CutBlocksFaithful(code, size, sorted, cut);
    blocks := AddPredecessors(cut);
    PredecessorsKeepFaithful(code, cut, blocks);
  }

  ghost predicate FaithfulButMirror(code: seq<Instruction>, blocks: seq<BasicBlock>) {
    Tiles(code, blocks) && Aligned(code, blocks) && EdgesAreSteps(code, blocks) && StepsRespectBlocks(code, blocks) && Wf(GraphOf(blocks))
  }

  lemma CutBlocksFaithful(code: seq<Instruction>, size: nat, sorted: seq<nat>, blocks: seq<BasicBlock>)
    requires Validated(code, size) && IsLeaderList(code, size, sorted)
    requires |blocks| == |sorted| && BlocksOk(code, size, sorted, blocks) && Tiles(code, blocks)
    ensures FaithfulButMirror(code, blocks)
  {
    forall n | 0 <= n < |blocks|
      ensures First(blocks[n]) <= Last(blocks[n]) < |code| && blocks[n].start == code[First(blocks[n])].offset
    {
      BlockRange(code, size, sorted, blocks, n);
    }
    forall n, c: nat | 0 <= n < |blocks|
      ensures c in blocks[n].successors <==> c < |blocks| && Step(code, Last(blocks[n]), First(blocks[c]))
    {
      CutBlocksEdges(code, size, sorted, blocks, n, c);
    }
    forall n: nat, i: nat, j: nat | n < |blocks| && InBlock(blocks, n, i) ensures StepOk(code, blocks, n, i, j)
    {
      CutBlocksSteps(code, size, sorted, blocks, n, i, j);
    }
    forall b, k | 0 <= b < |blocks| && 0 <= k < |blocks[b].successors| ensures blocks[b].successors[k] < |blocks| {
      assert blocks[b].successors[k] in blocks[b].successors;
    }
  }

  lemma PredecessorsKeepSteps(code: seq<Instruction>, cut: seq<BasicBlock>, blocks: seq<BasicBlock>, n: nat, i: nat, j: nat)
    requires Tiles(code, cut) && Tiles(code, blocks) && StepsRespectBlocks(code, cut) && SameButPredecessors(blocks, cut)
    requires n < |blocks| && InBlock(blocks, n, i)
    ensures StepOk(code, blocks, n, i, j)
  {
    assert InBlock(cut, n, i) && StepOk(code, cut, n, i, j);
    if i >= Last(cut[n]) && Step(code, i, j) {
      var c :| 0 <= c < |cut| && j == First(cut[c]);
      assert j == First(blocks[c]);
    }
  }

  lemma PredecessorsKeepTiles(code: seq<Instruction>, cut: seq<BasicBlock>, blocks: seq<BasicBlock>)
    requires Tiles(code, cut) && SameButPredecessors(blocks, cut)
    ensures Tiles(code, blocks)
  {
  }

  lemma PredecessorsKeepEdges(code: seq<Instruction>, cut: seq<BasicBlock>, blocks: seq<BasicBlock>)
    requires Tiles(code, cut) && Tiles(code, blocks) && SameButPredecessors(blocks, cut)
    requires Aligned(code, cut) && EdgesAreSteps(code, cut)
    ensures Aligned(code, blocks) && EdgesAreSteps(code, blocks)
  {
  }

  lemma PredecessorsKeepFaithful(code: seq<Instruction>, cut: seq<BasicBlock>, blocks: seq<BasicBlock>)
    requires FaithfulButMirror(code, cut) && SameButPredecessors(blocks, cut) && Mirrored(blocks)
    ensures FaithfulCfg(code, blocks)
  {
    assert GraphOf(blocks) == GraphOf(cut);
    PredecessorsKeepTiles(code, cut, blocks);
    PredecessorsKeepEdges(code, cut, blocks);
    forall n: nat, i: nat, j: nat | n < |blocks| && InBlock(blocks, n, i) ensures StepOk(code, blocks, n, i, j)
    {
      PredecessorsKeepSteps(code, cut, blocks, n, i, j);
    }
  }

  // ---------- instructions and their blocks ----------

  /** The block of an instruction, and the block its jump leads to, or -1. */
  ghost predicate LinkOk(code: seq<Instruction>, blocks: seq<BasicBlock>, i: nat, source: int, target: int)
    requires i < |code| && Tiles(code, blocks)
  {
    && 0 <= source < |blocks| && InBlock(blocks, source, i)
    && (if code[i].jumpTarget < 0 then target == -1
        else 0 <= target < |blocks| && blocks[target].start == code[i].jumpTarget)
  }

  ghost predicate LinkedUpTo(code: seq<Instruction>, blocks: seq<BasicBlock>, source: seq<int>, target: seq<int>, n: nat)
    requires Tiles(code, blocks)
  {
    n <= |source| == |target| == |code| && forall i: nat :: i < n ==> LinkOk(code, blocks, i, source[i], target[i])
  }

  ghost predicate InstructionsLinked(code: seq<Instruction>, blocks: seq<BasicBlock>, source: seq<int>, target: seq<int>)
    requires Tiles(code, blocks)
  {
    LinkedUpTo(code, blocks, source, target, |code|)
  }

  /** Every jump leads to the start of a block. */
  ghost predicate JumpsStartBlocks(code: seq<Instruction>, blocks: seq<BasicBlock>) {
    forall i :: 0 <= i < |code| && code[i].jumpTarget >= 0 ==> StartsBlock(blocks, code[i].jumpTarget)
  }

  ghost predicate StartsBlock(blocks: seq<BasicBlock>, pc: int) {
    exists n :: 0 <= n < |blocks| && blocks[n].start == pc
  }

  lemma LeadersStartBlocks(code: seq<Instruction>, size: nat, sorted: seq<nat>, blocks: seq<BasicBlock>)
    requires IsLeaderList(code, size, sorted) && |sorted| == |blocks|
    requires forall n :: 0 <= n < |blocks| ==> blocks[n].start == sorted[n]
    ensures JumpsStartBlocks(code, blocks)
  {
    forall i | 0 <= i < |code| && code[i].jumpTarget >= 0 ensures StartsBlock(blocks, code[i].jumpTarget) {
      assert IsLeader(code, size, code[i].jumpTarget);
      var n :| 0 <= n < |sorted| && sorted[n] == code[i].jumpTarget;
      assert blocks[n].start == code[i].jumpTarget;
    }
  }

  method TargetBlockOf(blocks: seq<BasicBlock>, jumpTarget: int) returns (target: int)
    requires jumpTarget >= 0 ==> StartsBlock(blocks, jumpTarget)
    ensures if jumpTarget < 0 then target == -1 else 0 <= target < |blocks| && blocks[target].start == jumpTarget
  {
    target := -1;
    if jumpTarget >= 0 {
      var n := 0;
      while n < |blocks|
        invariant 0 <= n <= |blocks| && forall m :: 0 <= m < n ==> blocks[m].start != jumpTarget
      {
        if blocks[n].start == jumpTarget {
          return n;
        }
        n := n + 1;
      }
    }
  }

  /** Tells every instruction its block and the block it jumps to. */
  method LinkInstructions(code: seq<Instruction>, blocks: seq<BasicBlock>) returns (source: seq<int>, target: seq<int>)
    requires Tiles(code, blocks) && JumpsStartBlocks(code, blocks)
    requires forall n :: 0 <= n < |blocks| ==> Last(blocks[n]) < |code|
    ensures InstructionsLinked(code, blocks, source, target)
  {
    source, target := seq(|code|, _ => -1), seq(|code|, _ => -1);
    var n := 0;
    while n < |blocks|
      invariant 0 <= n <= |blocks|
      invariant LinkedUpTo(code, blocks, source, target, if n < |blocks| then First(blocks[n]) else |code|)
    {
      var k := 0;
      var instructions := blocks[n].instructions;
      assert IsRange(instructions, First(blocks[n]), Last(blocks[n]) + 1);
      while k < |instructions|
        invariant 0 <= k <= |instructions| && LinkedUpTo(code, blocks, source, target, First(blocks[n]) + k)
      {
        var index := instructions[k];
        assert InBlock(blocks, n, index);
        var to := TargetBlockOf(blocks, code[index].jumpTarget);
        source, target := source[index := blocks[n].id], target[index := to];
        k := k + 1;
      }
      n := n + 1;
    }
  }

  /** An instruction lies in one block only. */
  lemma BlockOfUnique(code: seq<Instruction>, blocks: seq<BasicBlock>, m: nat, n: nat, i: nat)
    requires Tiles(code, blocks) && m < |blocks| && n < |blocks| && InBlock(blocks, m, i) && InBlock(blocks, n, i)
    ensures m == n
  {
    if m < n {
      FirstsIncrease(code, blocks, m, n);
    } else if n < m {
      FirstsIncrease(code, blocks, n, m);
    }
  }
}
