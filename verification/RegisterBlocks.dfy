/** The register renderer's own block table, and the program-counter values its blocks assign. */
module RegisterBlocks {
  import opened Cfg
  import opened Graphs

  /** Where the blocks of a table start. */
  function Firsts(table: seq<(nat, nat)>): (r: seq<nat>)
    ensures |r| == |table| && forall n :: 0 <= n < |table| ==> r[n] == table[n].0
  {
    seq(|table|, n requires 0 <= n < |table| => table[n].0)
  }

  /** Each leader with the next one, or with the end of the code. */
  ghost predicate IsBlockTable(code: seq<Instruction>, size: nat, table: seq<(nat, nat)>) {
    && IsLeaderList(code, size, Firsts(table))
    && forall n :: 0 <= n < |table| ==> table[n].1 == Bound(Firsts(table), size, n + 1)
  }

  /** The renderer's block table. */
  method Blocks(code: seq<Instruction>, size: nat) returns (table: seq<(nat, nat)>)
    requires Validated(code, size)
    ensures IsBlockTable(code, size, table)
  {
    var starts: seq<nat> := [0];
    var pc, k := 0, 0;
    while pc < size
      invariant 0 <= k <= |code| && pc == if k < |code| then code[k].offset else size
      invariant forall x :: x in starts <==> FoundBefore(code, size, k, x)
      decreases |code| - k
    {
      var length, target := code[k].length, code[k].jumpTarget;
      JumpInCode(code, size, k);
      if target >= 0 && target < size {
        starts := starts + [target];
      }
      if (target >= 0 || code[k].op.Return?) && pc + length < size {
        starts := starts + [pc + length];
      }
      assert k < |code| - 1 ==> After(code, k) == code[k + 1].offset;
      pc, k := pc + length, k + 1;
    }
    if k < |code| {
      OffsetBelowSize(code, size, k);
    }
    forall x | x in starts ensures x < size {
      assert IsLeader(code, size, x);
      LeaderIsBoundary(code, size, x);
    }
    var firsts := SortStarts((set x | x in starts), size);
    table := seq(|firsts|, n requires 0 <= n < |firsts| => (firsts[n], Bound(firsts, size, n + 1)));
    assert Firsts(table) == firsts;
  }

  ghost predicate FoundBefore(code: seq<Instruction>, size: nat, k: nat, x: nat)
    requires k <= |code|
  {
    || x == 0
    || (exists j :: 0 <= j < k && code[j].jumpTarget == x)
    || (x < size && exists j :: 0 <= j < k && EndsBlock(code[j]) && After(code, j) == x)
  }

  lemma JumpInCode(code: seq<Instruction>, size: nat, k: nat)
    requires Validated(code, size) && k < |code|
    ensures code[k].jumpTarget < size
  {
    assert JumpOk(code, k);
    if code[k].jumpTarget >= 0 {
      var j :| 0 <= j < |code| && code[j].offset == code[k].jumpTarget;
      OffsetBelowSize(code, size, j);
    }
  }

  /** Both passes find the same blocks. */
  lemma TablesAgree(code: seq<Instruction>, size: nat, blocks: seq<BasicBlock>, s: seq<nat>, table: seq<(nat, nat)>)
    requires IsLeaderList(code, size, s) && |s| == |blocks|
    requires forall n :: 0 <= n < |blocks| ==> blocks[n].start == s[n] && blocks[n].end == Bound(s, size, n + 1) - 1
    requires IsBlockTable(code, size, table)
    ensures |table| == |blocks|
    ensures forall n :: 0 <= n < |table| ==> table[n].0 == blocks[n].start && table[n].1 == blocks[n].end + 1
  {
    LeaderListUnique(code, size, s, Firsts(table));
  }

  // ---------- assigned program counters ----------

  /** Instructions `k` to `last`, of which only `last` may transfer control, end at offset `end`. */
  ghost predicate Stretch(code: seq<Instruction>, k: nat, last: nat, end: int) {
    && k <= last < |code| && After(code, last) == end && code[last].offset < end
    && forall i: nat {:trigger GoesOn(code, i, end)} :: k <= i < last ==> GoesOn(code, i, end)
  }

  /** Control goes on from `i` to the next instruction, which starts before `end`. */
  ghost predicate GoesOn(code: seq<Instruction>, i: nat, end: int) {
    i + 1 < |code| && !EndsBlock(code[i]) && After(code, i) == code[i + 1].offset && code[i].offset < end
  }

  /**
   Renders one block, from instruction `k` up to offset `end`: the set of program-counter values its code may assign.
   Jump targets and the start of the next block are assigned explicitly; a block that does not end in a transfer continues
   with the next block, or returns.
   */
  method RenderBlock(code: seq<Instruction>, k: nat, end: int, fallthrough: int, ghost last: nat) returns (pcs: set<int>, next: nat)
    requires Stretch(code, k, last, end) && forall i :: k <= i <= last ==> JumpOk(code, i)
    ensures pcs == Assigned(code[last], fallthrough) && next == last + 1
  {
    pcs, next := {}, k;
    var terminated := false;
    var following := if fallthrough >= 0 then fallthrough else -1;
    var pc := code[k].offset;
    assert k < last ==> GoesOn(code, k, end);
    while pc < end
      invariant k <= next <= last + 1
      invariant next <= last ==> pcs == {} && !terminated && pc == code[next].offset < end
      invariant next == last + 1 ==> pc == end && pcs == Transfer(code[last], fallthrough) && terminated == Terminates(code[last])
      decreases last + 1 - next
    {
      var i := code[next];
      assert JumpOk(code, next) && (next < last ==> GoesOn(code, next, end));
      assert next + 1 < last ==> GoesOn(code, next + 1, end);
      match i.op {
        case Plain =>
        case Return => terminated := true;
        case Goto => pcs, terminated := pcs + {i.jumpTarget}, true;
        case Branch => pcs, terminated := pcs + {i.jumpTarget, following}, true;
        case LoadBool =>
          if i.jumpTarget >= 0 {
            pcs, terminated := pcs + {i.jumpTarget}, true;
          }
        case FastCall =>
          if i.jumpTarget >= 0 {
            pcs, terminated := pcs + {following}, true;
          }
        case ProtoCompare =>
      }
      pc, next := pc + i.length, next + 1;
    }
    if !terminated {
      if fallthrough >= 0 {
        pcs := pcs + {fallthrough};
      }
    }
  }

  ghost predicate Terminates(i: Instruction) {
    i.op.Return? || i.op.Goto? || i.op.Branch? || ((i.op.LoadBool? || i.op.FastCall?) && i.jumpTarget >= 0)
  }

  ghost function Transfer(i: Instruction, fallthrough: int): set<int> {
    var next := if fallthrough >= 0 then fallthrough else -1;
    if i.op.Goto? then {i.jumpTarget}
    else if i.op.Branch? then {i.jumpTarget, next}
    else if i.op.LoadBool? && i.jumpTarget >= 0 then {i.jumpTarget}
    else if i.op.FastCall? && i.jumpTarget >= 0 then {next}
    else {}
  }

  /** What a block ending in `i` assigns. */
  ghost function Assigned(i: Instruction, fallthrough: int): set<int> {
    Transfer(i, fallthrough) + if !Terminates(i) && fallthrough >= 0 then {fallthrough} else {}
  }

  ghost function NextStart(blocks: seq<BasicBlock>, n: nat): int {
    if n + 1 < |blocks| then blocks[n + 1].start else -1
  }

  ghost predicate StartsSuccessor(blocks: seq<BasicBlock>, n: nat, pc: int)
    requires n < |blocks|
  {
    exists c: nat :: c < |blocks| && c in blocks[n].successors && blocks[c].start == pc
  }

  /** Every program counter a block assigns, other than the final -1, starts one of its successors. */
  lemma AssignedStartSuccessors(code: seq<Instruction>, size: nat, blocks: seq<BasicBlock>, n: nat, pc: int)
    requires Validated(code, size) && FaithfulCfg(code, blocks) && n < |blocks|
    requires pc in Assigned(code[Last(blocks[n])], NextStart(blocks, n)) && pc != -1
    ensures StartsSuccessor(blocks, n, pc)
  {
    var last := Last(blocks[n]);
    assert JumpOk(code, last);
    if pc == code[last].jumpTarget && pc >= 0 {
      var c := TargetBlock(code, size, blocks, n, pc);
    } else {
      assert n + 1 < |blocks| && pc == blocks[n + 1].start;
      assert First(blocks[n + 1]) == last + 1;
      assert Step(code, last, First(blocks[n + 1]));
      assert n + 1 in blocks[n].successors;
    }
  }

  lemma TargetBlock(code: seq<Instruction>, size: nat, blocks: seq<BasicBlock>, n: nat, pc: nat) returns (c: nat)
    requires Validated(code, size) && FaithfulCfg(code, blocks) && n < |blocks| && code[Last(blocks[n])].jumpTarget == pc
    ensures c < |blocks| && c in blocks[n].successors && blocks[c].start == pc
  {
    var last := Last(blocks[n]);
    assert JumpOk(code, last);
    var j :| 0 <= j < |code| && code[j].offset == pc;
    assert Step(code, last, j) && InBlock(blocks, n, last);
    c :| 0 <= c < |blocks| && j == First(blocks[c]);
  }

  /** The start of every successor is among the program counters the block assigns. */
  ghost predicate AllAssigned(code: seq<Instruction>, blocks: seq<BasicBlock>, n: nat)
    requires Tiles(code, blocks) && n < |blocks| && Last(blocks[n]) < |code|
  {
    forall c: nat :: c < |blocks| && c in blocks[n].successors ==> blocks[c].start in Assigned(code[Last(blocks[n])], NextStart(blocks, n))
  }

  /** A LOADB that skips is rendered without its fallthrough, a FASTCALL and a CMPPROTO without their jump. */
  ghost predicate BothAreOne(i: Instruction, next: int) {
    if i.op.LoadBool? && i.jumpTarget >= 0 then next == -1 || i.jumpTarget == next
    else if i.op.FastCall? || i.op.ProtoCompare? then i.jumpTarget == next
    else true
  }

  lemma SuccessorIs(code: seq<Instruction>, size: nat, blocks: seq<BasicBlock>, n: nat, c: nat)
    requires Validated(code, size) && FaithfulCfg(code, blocks) && n < |blocks| && c < |blocks|
    ensures c in blocks[n].successors <==>
      blocks[c].start == code[Last(blocks[n])].jumpTarget || (c == n + 1 && FallsThrough(code[Last(blocks[n])]))
  {
    var last := Last(blocks[n]);
    assert c in blocks[n].successors <==> Step(code, last, First(blocks[c]));
    if First(blocks[c]) == last + 1 {
      NextBlockIs(code, blocks, n, c);
    }
    if c == n + 1 {
      assert First(blocks[c]) == last + 1;
    }
  }

  lemma NextStartIs(code: seq<Instruction>, blocks: seq<BasicBlock>, n: nat)
    requires FaithfulCfg(code, blocks) && n < |blocks|
    ensures n + 1 < |blocks| ==> NextStart(blocks, n) == blocks[n + 1].start && 0 <= NextStart(blocks, n)
    ensures n + 1 == |blocks| ==> NextStart(blocks, n) == -1
  {
  }

  /** The block a jump leads to is assigned, or missed, as the kind of the jump says. */
  lemma TargetAssigned(code: seq<Instruction>, size: nat, blocks: seq<BasicBlock>, n: nat)
    requires Validated(code, size) && FaithfulCfg(code, blocks) && n < |blocks| && AllAssigned(code, blocks, n)
    ensures BothAreOne(code[Last(blocks[n])], NextStart(blocks, n))
  {
    var i := code[Last(blocks[n])];
    assert JumpOk(code, Last(blocks[n]));
    NextStartIs(code, blocks, n);
    if i.jumpTarget >= 0 {
      var c := TargetBlock(code, size, blocks, n, i.jumpTarget);
      assert blocks[c].start in Assigned(i, NextStart(blocks, n));
    }
    if n + 1 < |blocks| && FallsThrough(i) {
      SuccessorIs(code, size, blocks, n, n + 1);
      assert blocks[n + 1].start in Assigned(i, NextStart(blocks, n));
    }
  }

  /**
   A block assigns the starts of all its successors exactly if its last instruction is no LOADB that skips, FASTCALL or
   CMPPROTO with two different ways to go.
   */
  lemma SuccessorsAssignedIff(code: seq<Instruction>, size: nat, blocks: seq<BasicBlock>, n: nat)
    requires Validated(code, size) && FaithfulCfg(code, blocks) && n < |blocks|
    ensures AllAssigned(code, blocks, n) <==> BothAreOne(code[Last(blocks[n])], NextStart(blocks, n))
  {
    if AllAssigned(code, blocks, n) {
      TargetAssigned(code, size, blocks, n);
    }
    if BothAreOne(code[Last(blocks[n])], NextStart(blocks, n)) {
      assert JumpOk(code, Last(blocks[n]));
      forall c: nat | c < |blocks| && c in blocks[n].successors
        ensures blocks[c].start in Assigned(code[Last(blocks[n])], NextStart(blocks, n))
      {
        SuccessorIs(code, size, blocks, n, c);
        NextStartIs(code, blocks, n);
      }
    }
  }

  // ---------- a jump that gets lost ----------

  /** A CMPPROTO that jumps over an instruction, three blocks in all. */
  ghost predicate Skips(code: seq<Instruction>, blocks: seq<BasicBlock>) {
    && code == [Instruction(0, 1, ProtoCompare, 2, [], []), Instruction(1, 1, Plain, -1, [], []), Instruction(2, 1, Return, -1, [], [])]
    && |blocks| == 3 && (forall n: nat :: n < 3 ==> blocks[n].id == n && blocks[n].start == n && blocks[n].instructions == [n])
    && blocks[0].successors == [1, 2] && blocks[1].successors == [2] && blocks[2].successors == []
    && blocks[0].predecessors == [] && blocks[1].predecessors == [0] && blocks[2].predecessors == [0, 1]
  }

  lemma SkipsIsValidated(code: seq<Instruction>, blocks: seq<BasicBlock>)
    requires Skips(code, blocks)
    ensures Validated(code, 3) && Tiles(code, blocks) && Aligned(code, blocks)
  {
    assert code[2].offset == 2;
    assert forall k :: 0 <= k < 3 ==> JumpOk(code, k);
    assert forall n :: 0 <= n < 3 ==> First(blocks[n]) == n && Last(blocks[n]) == n;
  }

  lemma SkipsSteps(code: seq<Instruction>, blocks: seq<BasicBlock>, i: nat, j: nat)
    requires Skips(code, blocks)
    ensures Step(code, i, j) <==> (i == 0 && (j == 1 || j == 2)) || (i == 1 && j == 2)
  {
  }

  lemma SkipsIsStepwise(code: seq<Instruction>, blocks: seq<BasicBlock>)
    requires Skips(code, blocks)
    ensures Tiles(code, blocks) && EdgesAreSteps(code, blocks) && StepsRespectBlocks(code, blocks)
  {
    SkipsIsValidated(code, blocks);
    assert forall n :: 0 <= n < 3 ==> First(blocks[n]) == n && Last(blocks[n]) == n;
    forall n: nat, c: nat | n < 3 ensures c in blocks[n].successors <==> c < 3 && Step(code, n, c) {
      SkipsSteps(code, blocks, n, c);
    }
    forall n: nat, i: nat, j: nat | n < |blocks| && InBlock(blocks, n, i) ensures StepOk(code, blocks, n, i, j) {
      SkipsSteps(code, blocks, i, j);
      assert Step(code, i, j) ==> j < 3 && j == First(blocks[j]);
    }
  }

  lemma SkipsIsMirrored(code: seq<Instruction>, blocks: seq<BasicBlock>)
    requires Skips(code, blocks)
    ensures Mirrored(blocks) && Wf(GraphOf(blocks))
  {
  }

  lemma SkipsExists() returns (code: seq<Instruction>, blocks: seq<BasicBlock>)
    ensures Skips(code, blocks)
  {
    code := [Instruction(0, 1, ProtoCompare, 2, [], []), Instruction(1, 1, Plain, -1, [], []), Instruction(2, 1, Return, -1, [], [])];
    blocks := [BasicBlock(0, 0, 0, [0], [1, 2], []), BasicBlock(1, 1, 1, [1], [2], [0]), BasicBlock(2, 2, 2, [2], [], [0, 1])];
  }

  lemma SkipsAssigns(code: seq<Instruction>, blocks: seq<BasicBlock>)
    requires Skips(code, blocks)
    ensures Last(blocks[0]) == 0 && Assigned(code[0], NextStart(blocks, 0)) == {1} && 2 in blocks[0].successors && blocks[2].start == 2
  {
  }

  /** The block the CMPPROTO jumps to is a successor, and nothing its block assigns leads there. */
  lemma CompareLosesTarget() returns (code: seq<Instruction>, blocks: seq<BasicBlock>)
    ensures Validated(code, 3) && FaithfulCfg(code, blocks) && Last(blocks[0]) == 0
    ensures 2 in blocks[0].successors && blocks[2].start == 2 && Assigned(code[0], NextStart(blocks, 0)) == {1}
  {
    code, blocks := SkipsExists();
    SkipsAreFaithful(code, blocks);
    SkipsAssigns(code, blocks);
  }

  lemma SkipsAreFaithful(code: seq<Instruction>, blocks: seq<BasicBlock>)
    requires Skips(code, blocks)
    ensures Validated(code, 3) && FaithfulCfg(code, blocks)
  {
    SkipsIsValidated(code, blocks);
    SkipsIsStepwise(code, blocks);
    SkipsIsMirrored(code, blocks);
  }

  lemma NextBlockIs(code: seq<Instruction>, blocks: seq<BasicBlock>, n: nat, c: nat)
    requires Tiles(code, blocks) && n < |blocks| && c < |blocks| && First(blocks[c]) == Last(blocks[n]) + 1
    ensures c == n + 1
  {
    assert IsRange(blocks[n].instructions, First(blocks[n]), Last(blocks[n]) + 1);
    if c < n {
      FirstsIncrease(code, blocks, c, n);
    } else if n + 1 < c {
      assert First(blocks[n + 1]) == Last(blocks[n]) + 1;
      FirstsIncrease(code, blocks, n + 1, c);
    }
  }

  // ---------- all blocks ----------

  /** `blocks` are the basic blocks of the code, cut at the leaders `sorted`. */
  ghost predicate IsCfgOf(code: seq<Instruction>, size: nat, sorted: seq<nat>, blocks: seq<BasicBlock>) {
    && FaithfulCfg(code, blocks) && IsLeaderList(code, size, sorted) && |sorted| == |blocks|
    && forall n :: 0 <= n < |blocks| ==> blocks[n].start == sorted[n] && blocks[n].end == Bound(sorted, size, n + 1) - 1
  }

  /** Only the last instruction of a block ends it. */
  lemma InnerGoesOn(code: seq<Instruction>, size: nat, sorted: seq<nat>, blocks: seq<BasicBlock>, n: nat, i: nat)
    requires Validated(code, size) && IsCfgOf(code, size, sorted, blocks) && n < |blocks| && First(blocks[n]) <= i < Last(blocks[n])
    ensures !EndsBlock(code[i])
  {
    if EndsBlock(code[i]) {
      assert After(code, i) == code[i + 1].offset;
      OffsetBelowSize(code, size, i + 1);
      assert IsLeader(code, size, code[i + 1].offset);
      var m :| 0 <= m < |sorted| && sorted[m] == code[i + 1].offset;
      OffsetInjective(code, size, First(blocks[m]), i + 1);
      BlockOfUnique(code, blocks, m, n, i + 1);
    }
  }

  lemma BlockEnds(code: seq<Instruction>, size: nat, blocks: seq<BasicBlock>, n: nat)
    requires Validated(code, size) && Tiles(code, blocks) && Aligned(code, blocks) && n < |blocks|
    requires blocks[n].end == (if n + 1 < |blocks| then blocks[n + 1].start else size) - 1
    ensures After(code, Last(blocks[n])) == blocks[n].end + 1
  {
    if n + 1 < |blocks| {
      var last := Last(blocks[n]);
      assert First(blocks[n + 1]) == last + 1;
      assert blocks[n + 1].start == code[First(blocks[n + 1])].offset;
      assert After(code, last) == code[last + 1].offset;
    }
  }

  lemma InnerIsBefore(code: seq<Instruction>, size: nat, i: nat, last: nat)
    requires Validated(code, size) && i < last < |code|
    ensures After(code, i) == code[i + 1].offset && code[i].offset < After(code, last)
  {
    OffsetsIncrease(code, size, i, last);
  }

  ghost predicate BlockStretch(code: seq<Instruction>, b: BasicBlock) {
    b.instructions != [] && Stretch(code, First(b), Last(b), b.end + 1) && forall i :: First(b) <= i <= Last(b) ==> JumpOk(code, i)
  }

  lemma GoingOnIsStretch(code: seq<Instruction>, size: nat, b: BasicBlock)
    requires Validated(code, size) && b.instructions != [] && First(b) <= Last(b) < |code| && After(code, Last(b)) == b.end + 1
    requires forall i :: First(b) <= i < Last(b) ==> !EndsBlock(code[i])
    ensures BlockStretch(code, b)
  {
    var end := b.end + 1;
    forall i: nat {:trigger GoesOn(code, i, end)} | First(b) <= i < Last(b) ensures GoesOn(code, i, end) {
      InnerIsBefore(code, size, i, Last(b));
    }
  }

  lemma BlockIsStretch(code: seq<Instruction>, size: nat, sorted: seq<nat>, blocks: seq<BasicBlock>, n: nat)
    requires Validated(code, size) && IsCfgOf(code, size, sorted, blocks) && n < |blocks|
    ensures BlockStretch(code, blocks[n])
  {
    BlockEnds(code, size, blocks, n);
    forall i | First(blocks[n]) <= i < Last(blocks[n]) ensures !EndsBlock(code[i]) {
      InnerGoesOn(code, size, sorted, blocks, n, i);
    }
    GoingOnIsStretch(code, size, blocks[n]);
  }

  /** The blocks cut the code into stretches, one behind the other. */
  ghost predicate Stretches(code: seq<Instruction>, blocks: seq<BasicBlock>) {
    && |blocks| > 0 && (forall n {:trigger blocks[n]} :: 0 <= n < |blocks| ==> BlockStretch(code, blocks[n]))
    && First(blocks[0]) == 0 && forall n :: 0 <= n < |blocks| - 1 ==> First(blocks[n + 1]) == Last(blocks[n]) + 1
  }

  lemma BlocksAreStretches(code: seq<Instruction>, size: nat, sorted: seq<nat>, blocks: seq<BasicBlock>)
    requires Validated(code, size) && IsCfgOf(code, size, sorted, blocks)
    ensures Stretches(code, blocks)
  {
    forall n | 0 <= n < |blocks| ensures BlockStretch(code, blocks[n]) {
      BlockIsStretch(code, size, sorted, blocks, n);
    }
  }

  ghost predicate RenderedUpTo(code: seq<Instruction>, blocks: seq<BasicBlock>, pcs: seq<set<int>>)
    requires Stretches(code, blocks)
  {
    |pcs| <= |blocks| && forall n :: 0 <= n < |pcs| ==> pcs[n] == Assigned(code[Last(blocks[n])], NextStart(blocks, n))
  }

  method RenderTable(code: seq<Instruction>, table: seq<(nat, nat)>, ghost blocks: seq<BasicBlock>) returns (pcs: seq<set<int>>)
    requires Stretches(code, blocks) && |table| == |blocks|
    requires forall n :: 0 <= n < |table| ==> table[n].0 == blocks[n].start && table[n].1 == blocks[n].end + 1
    ensures |pcs| == |blocks| && RenderedUpTo(code, blocks, pcs)
  {
    pcs := [];
    var k := 0;
    while |pcs| < |table|
      invariant |pcs| <= |table| && RenderedUpTo(code, blocks, pcs)
      invariant |pcs| < |blocks| ==> k == First(blocks[|pcs|])
    {
      var n := |pcs|;
      var fallthrough := if n + 1 < |table| then table[n + 1].0 else -1;
      assert BlockStretch(code, blocks[n]);
      var values;
      values, k := RenderBlock(code, k, table[n].1, fallthrough, Last(blocks[n]));
      pcs := pcs + [values];
    }
  }

  /** The start of every successor of block `n` is in the set. */
  ghost predicate HoldsAllStarts(blocks: seq<BasicBlock>, n: nat, s: set<int>)
    requires n < |blocks|
  {
    forall c: nat {:trigger blocks[c]} :: c < |blocks| && c in blocks[n].successors ==> blocks[c].start in s
  }

  /**
   What the program counters assigned by block `n` are to its successors. They are starts of successors, or -1 behind the
   last block; all starts are there unless one of the three instructions that are rendered one-sidedly has two different
   ways to go, and those keep their jump (LOADB) or the next block (FASTCALL, CMPPROTO).
   */
  ghost predicate RendersBlock(code: seq<Instruction>, blocks: seq<BasicBlock>, n: nat, s: set<int>)
    requires Tiles(code, blocks) && n < |blocks| && Last(blocks[n]) < |code|
  {
    var i, next := code[Last(blocks[n])], NextStart(blocks, n);
    && (forall pc :: pc in s && pc != -1 ==> StartsSuccessor(blocks, n, pc))
    && (HoldsAllStarts(blocks, n, s) <==> BothAreOne(i, next))
    && (i.op.LoadBool? && i.jumpTarget >= 0 ==> s == {i.jumpTarget})
    && (i.op.FastCall? && i.jumpTarget >= 0 ==> s == {next})
    && (i.op.ProtoCompare? ==> s == if n + 1 < |blocks| then {next} else {})
    && (-1 in s <==> n + 1 == |blocks| && (i.op.Branch? || (i.op.FastCall? && i.jumpTarget >= 0)))
  }

  lemma AssignedRenders(code: seq<Instruction>, size: nat, blocks: seq<BasicBlock>, n: nat)
    requires Validated(code, size) && FaithfulCfg(code, blocks) && n < |blocks|
    ensures RendersBlock(code, blocks, n, Assigned(code[Last(blocks[n])], NextStart(blocks, n)))
  {
    var s := Assigned(code[Last(blocks[n])], NextStart(blocks, n));
    forall pc | pc in s && pc != -1 ensures StartsSuccessor(blocks, n, pc) {
      AssignedStartSuccessors(code, size, blocks, n, pc);
    }
    SuccessorsAssignedIff(code, size, blocks, n);
    assert HoldsAllStarts(blocks, n, s) <==> AllAssigned(code, blocks, n);
    assert JumpOk(code, Last(blocks[n]));
    NextStartIs(code, blocks, n);
  }

  /** Renders all blocks, and each as it should be. */
  method RenderFunction(code: seq<Instruction>, size: nat, ghost sorted: seq<nat>, ghost blocks: seq<BasicBlock>)
    returns (pcs: seq<set<int>>)
    requires Validated(code, size) && IsCfgOf(code, size, sorted, blocks)
    ensures |pcs| == |blocks| && forall n :: 0 <= n < |pcs| ==> RendersBlock(code, blocks, n, pcs[n])
  {
    var table := Blocks(code, size);
    TablesAgree(code, size, blocks, sorted, table);
    BlocksAreStretches(code, size, sorted, blocks);
    pcs := RenderTable(code, table, blocks);
    forall n | 0 <= n < |pcs| ensures RendersBlock(code, blocks, n, pcs[n]) {
      AssignedRenders(code, size, blocks, n);
    }
  }
}
