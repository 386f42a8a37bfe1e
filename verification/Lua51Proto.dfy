/** From a prototype's words to the code the machine runs: what acceptance establishes. */
module Lua51Proto {
  import opened Lua51
  import C = Captures

  const SETLIST := 34

  /** A word's fields. */
  datatype Raw = Raw(op: nat, a: nat, b: nat, c: nat, bx: nat)

  const MAX_SBX := 131071

  // ---------- extra words ----------

  /** The word after a SETLIST without a block number is that number, whatever it looks like. */
  predicate IsExtra(raw: seq<Raw>, pc: nat)
    requires pc <= |raw|
    decreases pc
  {
    pc > 0 && raw[pc - 1].op == SETLIST && raw[pc - 1].c == 0 && !IsExtra(raw, pc - 1)
  }

  /** The decoding loop; it fails exactly if the last SETLIST lacks its extra word. */
  method MarkExtraWords(raw: seq<Raw>) returns (ok: bool, extra: seq<bool>)
    ensures ok <==> !IsExtra(raw, |raw|)
    ensures ok ==> |extra| == |raw| && forall pc :: 0 <= pc < |raw| ==> extra[pc] == IsExtra(raw, pc)
  {
    extra := [];
    var nextIsExtra := false;
    var pc := 0;
    while pc < |raw|
      invariant 0 <= pc <= |raw| && |extra| == pc && nextIsExtra == IsExtra(raw, pc)
      invariant forall k :: 0 <= k < pc ==> extra[k] == IsExtra(raw, k)
      invariant pc == |raw| ==> !IsExtra(raw, pc)
    {
      if nextIsExtra {
        extra := extra + [true];
        nextIsExtra := false;
        pc := pc + 1;
        continue;
      }
      if raw[pc].op == SETLIST && raw[pc].c == 0 {
        if pc + 1 >= |raw| {
          return false, extra;
        }
        nextIsExtra := true;
      }
      extra := extra + [false];
      pc := pc + 1;
    }
    ok := true;
  }

  // ---------- the decoded code ----------

  function OpOf(op: int): Op {
    match op {
      case 2 => LoadBool
      case 22 => Jmp
      case 23 => Compare
      case 24 => Compare
      case 25 => Compare
      case 26 => Test
      case 27 => TestSet
      case 29 => TailCall
      case 30 => Return
      case 31 => ForLoop
      case 32 => ForPrep
      case 33 => TForLoop
      case 34 => SetList
      case 36 => Closure
      case _ => Plain
    }
  }

  function WordOf(raw: seq<Raw>, pc: nat): C.Word
    requires pc < |raw|
  {
    if IsExtra(raw, pc) then C.Word(-1, 0, 0, 0, true) else C.Word(raw[pc].op, raw[pc].a, raw[pc].b, raw[pc].bx, false)
  }

  function WordsOf(raw: seq<Raw>): (r: seq<C.Word>)
    ensures |r| == |raw| && forall pc :: 0 <= pc < |raw| ==> r[pc] == WordOf(raw, pc)
  {
    seq(|raw|, pc requires 0 <= pc < |raw| => WordOf(raw, pc))
  }

  /** Jumps and loops name their target; tests, TFORLOOP and a skipping LOADBOOL go to the instruction after next. */
  function TargetFor(raw: Raw, pc: nat): int {
    var op := OpOf(raw.op);
    if op.Jmp? || op.ForLoop? || op.ForPrep? then pc + (raw.bx - MAX_SBX) + 1
    else if op.Compare? || op.Test? || op.TestSet? || op.TForLoop? || (op.LoadBool? && raw.c != 0) then pc + 2
    else -1
  }

  /** CALL with arguments or results up to the top of the stack, and SETLIST and VARARG with such a list. */
  predicate IsOpen(raw: Raw) {
    match raw.op {
      case 28 => raw.b == 0 || raw.c == 0
      case 34 => raw.b == 0
      case 37 => raw.b == 0
      case _ => false
    }
  }

  function InstrOf(raw: seq<Raw>, r: C.Association, pc: nat): Instr
    requires pc < |raw| && |r.owner| == |raw| && |r.captures| == |raw|
  {
    var w, binding, captures := raw[pc], r.owner[pc] >= 0, |r.captures[pc]|;
    if IsExtra(raw, pc) then Instr(Plain, 0, 0, 0, -1, true, binding, captures, false)
    else Instr(OpOf(w.op), w.a, w.c, w.bx - MAX_SBX, TargetFor(w, pc), false, binding, captures, IsOpen(w))
  }

  function CodeOf(raw: seq<Raw>, r: C.Association): (code: seq<Instr>)
    requires |r.owner| == |raw| && |r.captures| == |raw|
    ensures |code| == |raw| && forall pc :: 0 <= pc < |raw| ==> code[pc] == InstrOf(raw, r, pc)
  {
    seq(|raw|, pc requires 0 <= pc < |raw| => InstrOf(raw, r, pc))
  }

  /** What the operand checks ask of control: targets are instruction boundaries, and a CLOSURE's child exists. */
  ghost predicate ControlValid(code: seq<Instr>, words: seq<C.Word>, nups: seq<nat>)
    requires |words| == |code|
  {
    forall pc {:trigger code[pc]} :: 0 <= pc < |code| && Boundary(code, pc) ==>
      && (NeedsTarget(code[pc]) ==> Boundary(code, code[pc].target))
      && (code[pc].op.Closure? ==> C.IsClosure(words, nups, pc))
  }

  predicate NeedsTarget(i: Instr) {
    IsCondition(i) || i.op.Jmp? || i.op.ForLoop? || i.op.ForPrep? || i.op.TForLoop? || (i.op.LoadBool? && i.c != 0)
  }

  const OPCODES := 38

  ghost predicate OpcodesKnown(raw: seq<Raw>) {
    forall pc :: 0 <= pc < |raw| && !IsExtra(raw, pc) ==> raw[pc].op < OPCODES
  }

  /** The words decode, every opcode is known, every CLOSURE has its bindings, and the control operands are in order. */
  ghost predicate Accepted(raw: seq<Raw>, nups: seq<nat>, r: C.Association) {
    && !IsExtra(raw, |raw|) && OpcodesKnown(raw)
    && C.AllBindingsOk(WordsOf(raw), nups) && C.Associated(WordsOf(raw), nups, r, |raw|)
    && ControlValid(CodeOf(raw, r), WordsOf(raw), nups)
  }

  /** The one thing acceptance leaves open: a jump follows every test and every TFORLOOP. */
  ghost predicate TestsHaveJumps(code: seq<Instr>) {
    forall pc {:trigger code[pc]} :: 0 <= pc < |code| && Boundary(code, pc) && (IsCondition(code[pc]) || code[pc].op.TForLoop?) ==>
      pc + 1 < |code| && Boundary(code, pc + 1) && code[pc + 1].op.Jmp?
  }

  // ---------- operand words ----------

  /** Binding words are MOVE or GETUPVAL, and belong to the CLOSURE before them. */
  lemma BindingIsOwned(raw: seq<Raw>, nups: seq<nat>, r: C.Association, pc: nat)
    requires Accepted(raw, nups, r) && pc < |raw| && r.owner[pc] >= 0
    ensures C.Owns(WordsOf(raw), nups, r.owner[pc], pc) && C.IsBinding(WordsOf(raw)[pc])
    ensures !IsExtra(raw, pc) && OpOf(raw[pc].op).Plain?
  {
    assert C.IsClosure(WordsOf(raw), nups, r.owner[pc]);
  }

  /** The word after one that is no CLOSURE belongs to no CLOSURE unless that one does. */
  lemma NotOwnedAfter(raw: seq<Raw>, nups: seq<nat>, r: C.Association, pc: nat, next: nat)
    requires Accepted(raw, nups, r) && pc < next < |raw| && r.owner[pc] < 0
    requires forall k :: pc <= k < next ==> !C.Owns(WordsOf(raw), nups, k, next)
    ensures r.owner[next] < 0
  {
    if r.owner[next] >= 0 {
      var d := r.owner[next];
      BindingIsOwned(raw, nups, r, next);
      OwnedBetween(raw, nups, r, d, pc, next);
    }
  }

  /** A CLOSURE that owns a word behind `pc` and starts before `pc` owns `pc` too. */
  lemma OwnedBetween(raw: seq<Raw>, nups: seq<nat>, r: C.Association, d: int, pc: nat, next: nat)
    requires Accepted(raw, nups, r) && pc < next < |raw| && C.Owns(WordsOf(raw), nups, d, next) && d < pc
    ensures r.owner[pc] == d
  {
    assert C.Owns(WordsOf(raw), nups, d, pc);
  }

  // ---------- tiling ----------

  lemma ClosureTiled(raw: seq<Raw>, nups: seq<nat>, r: C.Association, pc: nat)
    requires Accepted(raw, nups, r) && pc < |raw| && Boundary(CodeOf(raw, r), pc) && CodeOf(raw, r)[pc].op.Closure?
    ensures Tiled(CodeOf(raw, r), pc)
  {
    var code, words := CodeOf(raw, r), WordsOf(raw);
    assert C.IsClosure(words, nups, pc) && C.BindingsOk(words, nups, pc);
    var n := C.Expected(words, nups, pc);
    assert r.captures[pc] == C.BindingsFor(words, pc, n);
    var next := pc + 1 + n;
    forall k | pc < k < next
      ensures !Boundary(code, k)
    {
      assert C.Owns(words, nups, pc, k);
    }
    if next < |code| {
      forall k | pc <= k < next
        ensures !C.Owns(words, nups, k, next)
      {
        if k > pc {
          assert C.Owns(words, nups, pc, k);
          C.OwnedIsNoClosure(words, nups, pc, k);
        }
      }
      NotOwnedAfter(raw, nups, r, pc, next);
      if n > 0 {
        assert C.IsBinding(words[next - 1]);
      }
      assert !IsExtra(raw, next);
    }
  }

  lemma BoundaryIff(raw: seq<Raw>, r: C.Association, pc: nat)
    requires |r.owner| == |raw| && |r.captures| == |raw| && pc < |raw|
    ensures Boundary(CodeOf(raw, r), pc) <==> !IsExtra(raw, pc) && r.owner[pc] < 0
  {
  }

  /** A CLOSURE that owns words comes before them, and a SETLIST owns none. */
  lemma BehindBlockNumber(raw: seq<Raw>, nups: seq<nat>, r: C.Association, pc: nat)
    requires Accepted(raw, nups, r) && pc + 2 < |raw| && r.owner[pc] < 0 && !IsExtra(raw, pc) && raw[pc].op == SETLIST && IsExtra(raw, pc + 1)
    ensures r.owner[pc + 2] < 0
  {
    NotOwnedAfter(raw, nups, r, pc, pc + 2);
  }

  /** A SETLIST without a block number takes the next word, and no more. */
  lemma NextIsNumber(raw: seq<Raw>, pc: nat)
    requires pc < |raw| && !IsExtra(raw, pc) && raw[pc].op == SETLIST && raw[pc].c == 0 && !IsExtra(raw, |raw|)
    ensures pc + 1 < |raw| && IsExtra(raw, pc + 1) && !IsExtra(raw, pc + 2)
  {
    assert IsExtra(raw, pc + 1);
  }

  lemma TwoWordsTiled(raw: seq<Raw>, r: C.Association, pc: nat)
    requires |r.owner| == |raw| && |r.captures| == |raw| && pc + 1 < |raw| && !IsExtra(raw, pc) && raw[pc].op == SETLIST && raw[pc].c == 0
    requires IsExtra(raw, pc + 1) && (pc + 2 < |raw| ==> !IsExtra(raw, pc + 2) && r.owner[pc + 2] < 0)
    ensures Tiled(CodeOf(raw, r), pc)
  {
    BoundaryIff(raw, r, pc + 1);
    if pc + 2 < |raw| {
      BoundaryIff(raw, r, pc + 2);
    }
  }

  lemma SetListTiled(raw: seq<Raw>, nups: seq<nat>, r: C.Association, pc: nat)
    requires Accepted(raw, nups, r) && pc < |raw| && !IsExtra(raw, pc) && r.owner[pc] < 0 && raw[pc].op == SETLIST && raw[pc].c == 0
    ensures Tiled(CodeOf(raw, r), pc)
  {
    NextIsNumber(raw, pc);
    if pc + 2 < |raw| {
      BehindBlockNumber(raw, nups, r, pc);
    }
    TwoWordsTiled(raw, r, pc);
  }

  lemma PlainTiled(raw: seq<Raw>, nups: seq<nat>, r: C.Association, pc: nat)
    requires Accepted(raw, nups, r) && pc < |raw| && Boundary(CodeOf(raw, r), pc) && Size(CodeOf(raw, r)[pc]) == 1
    requires !CodeOf(raw, r)[pc].op.Closure?
    ensures Tiled(CodeOf(raw, r), pc)
  {
    if pc + 1 < |raw| {
      assert !IsExtra(raw, pc + 1);
      assert !C.IsClosure(WordsOf(raw), nups, pc);
      NotOwnedAfter(raw, nups, r, pc, pc + 1);
    }
  }

  lemma EveryTiled(raw: seq<Raw>, nups: seq<nat>, r: C.Association, pc: nat)
    requires Accepted(raw, nups, r) && pc < |raw| && Boundary(CodeOf(raw, r), pc)
    ensures Tiled(CodeOf(raw, r), pc)
  {
    var i := CodeOf(raw, r)[pc];
    if i.op.Closure? {
      ClosureTiled(raw, nups, r, pc);
    } else if i.op.SetList? && raw[pc].c == 0 {
      SetListTiled(raw, nups, r, pc);
    } else {
      PlainTiled(raw, nups, r, pc);
    }
  }

  lemma FirstIsBoundary(raw: seq<Raw>, nups: seq<nat>, r: C.Association)
    requires Accepted(raw, nups, r) && |raw| > 0
    ensures Boundary(CodeOf(raw, r), 0)
  {
    if r.owner[0] >= 0 {
      BindingIsOwned(raw, nups, r, 0);
    }
  }

  lemma OperandsPlain(raw: seq<Raw>, nups: seq<nat>, r: C.Association, pc: nat)
    requires Accepted(raw, nups, r) && pc < |raw| && !Boundary(CodeOf(raw, r), pc)
    ensures CodeOf(raw, r)[pc].op.Plain?
  {
    if r.owner[pc] >= 0 {
      BindingIsOwned(raw, nups, r, pc);
    }
  }

  lemma EveryTargetOk(raw: seq<Raw>, nups: seq<nat>, r: C.Association, pc: nat)
    requires Accepted(raw, nups, r) && TestsHaveJumps(CodeOf(raw, r)) && pc < |raw| && Boundary(CodeOf(raw, r), pc)
    ensures TargetsOk(CodeOf(raw, r), pc)
  {
    var code := CodeOf(raw, r);
    assert NeedsTarget(code[pc]) ==> Boundary(code, code[pc].target);
  }

  lemma WellFormedHasJumps(code: seq<Instr>)
    requires WellFormed(code)
    ensures TestsHaveJumps(code)
  {
    forall pc | 0 <= pc < |code| && Boundary(code, pc) && (IsCondition(code[pc]) || code[pc].op.TForLoop?)
      ensures pc + 1 < |code| && Boundary(code, pc + 1) && code[pc + 1].op.Jmp?
    {
      assert TargetsOk(code, pc);
    }
  }

  /** A TEST, a MOVE and a RETURN: accepted, although no JMP follows the test. */
  lemma TestWithoutJump() returns (raw: seq<Raw>, r: C.Association)
    ensures Accepted(raw, [], r) && !TestsHaveJumps(CodeOf(raw, r)) && !WellFormed(CodeOf(raw, r))
  {
    raw := [Raw(26, 0, 0, 0, 0), Raw(0, 0, 0, 0, 0), Raw(30, 0, 1, 0, 0)];
    r := C.Association([-1, -1, -1], [-1, -1, -1], [[], [], []]);
    var code, words := CodeOf(raw, r), WordsOf(raw);
    assert forall pc :: 0 <= pc <= 3 ==> !IsExtra(raw, pc);
    assert forall pc :: !C.IsClosure(words, [], pc);
    assert C.Associated(words, [], r, |raw|);
    assert Boundary(code, 0) && Boundary(code, 2) && code[0].target == 2;
    assert code[0].op.Test? && code[1].op.Plain? && code[2].op.Return?;
    assert ControlValid(code, words, []);
    AcceptedIsWellFormedIff(raw, [], r);
  }

  /** Accepted code is well-formed exactly if a jump follows every test: the rest is what acceptance checks. */
  lemma AcceptedIsWellFormedIff(raw: seq<Raw>, nups: seq<nat>, r: C.Association)
    requires Accepted(raw, nups, r)
    ensures WellFormed(CodeOf(raw, r)) <==> TestsHaveJumps(CodeOf(raw, r))
  {
    var code := CodeOf(raw, r);
    if WellFormed(code) {
      WellFormedHasJumps(code);
    }
    if TestsHaveJumps(code) {
      if |code| > 0 {
        FirstIsBoundary(raw, nups, r);
      }
      forall pc | 0 <= pc < |code|
        ensures !Boundary(code, pc) ==> code[pc].op.Plain?
        ensures Boundary(code, pc) ==> Tiled(code, pc) && TargetsOk(code, pc)
      {
        if Boundary(code, pc) {
          EveryTiled(raw, nups, r, pc);
          EveryTargetOk(raw, nups, r, pc);
        } else {
          OperandsPlain(raw, nups, r, pc);
        }
      }
    }
  }
}
