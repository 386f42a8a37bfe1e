/** Associating CLOSURE instructions with their binding words, and choosing the registers kept in cells. */
module Captures {
  import opened CaptureCells

  const MOVE := 0
  const GETUPVAL := 4
  const CLOSE := 35
  const CLOSURE := 36

  datatype Word = Word(op: int, a: nat, b: nat, bx: int, extraWord: bool)

  datatype Binding = Binding(pc: nat, sourceIndex: nat, fromUpvalue: bool)

  datatype Failure = Truncated(pc: nat) | NotABinding(pc: nat)
  datatype Outcome<T> = Ok(value: T) | Fail(failure: Failure)

  /** Per instruction: the CLOSURE it is a binding of (-1 if none), its slot there, and a CLOSURE's own list. */
  datatype Association = Association(owner: seq<int>, slot: seq<int>, captures: seq<seq<Binding>>)

  /** A CLOSURE whose child exists; others are left for validation to refuse. */
  predicate IsClosure(code: seq<Word>, nups: seq<nat>, pc: int) {
    0 <= pc < |code| && code[pc].op == CLOSURE && 0 <= code[pc].bx < |nups|
  }

  function Expected(code: seq<Word>, nups: seq<nat>, pc: int): nat
    requires IsClosure(code, nups, pc)
  {
    nups[code[pc].bx]
  }

  predicate IsBinding(w: Word) {
    !w.extraWord && (w.op == MOVE || w.op == GETUPVAL)
  }

  /** The words after a CLOSURE, one for each upvalue of its child, all exist and are bindings. */
  ghost predicate BindingsOk(code: seq<Word>, nups: seq<nat>, pc: int)
    requires IsClosure(code, nups, pc)
  {
    pc + Expected(code, nups, pc) < |code| && forall k :: pc < k <= pc + Expected(code, nups, pc) ==> IsBinding(code[k])
  }

  ghost predicate AllBindingsOk(code: seq<Word>, nups: seq<nat>) {
    forall pc {:trigger IsClosure(code, nups, pc)} :: IsClosure(code, nups, pc) ==> BindingsOk(code, nups, pc)
  }

  ghost predicate Owns(code: seq<Word>, nups: seq<nat>, pc: int, k: int) {
    IsClosure(code, nups, pc) && pc < k <= pc + Expected(code, nups, pc)
  }

  lemma OwnedIsNoClosure(code: seq<Word>, nups: seq<nat>, c: int, k: int)
    requires Owns(code, nups, c, k) && BindingsOk(code, nups, c)
    ensures !IsClosure(code, nups, k)
  {
    assert IsBinding(code[k]);
  }

  /** A word belongs to one CLOSURE at most: the two candidates cannot lie apart. */
  lemma OwnerUnique(code: seq<Word>, nups: seq<nat>, c: int, d: int, k: int)
    requires Owns(code, nups, c, k) && Owns(code, nups, d, k) && BindingsOk(code, nups, c) && BindingsOk(code, nups, d)
    ensures c == d
  {
    if c < d {
      OwnedIsNoClosure(code, nups, c, d);
    } else if d < c {
      OwnedIsNoClosure(code, nups, d, c);
    }
  }

  function BindingsFor(code: seq<Word>, pc: nat, n: nat): (r: seq<Binding>)
    requires pc + n < |code|
    ensures |r| == n && forall s :: 0 <= s < n ==> r[s] == Binding(pc + s + 1, code[pc + s + 1].b, code[pc + s + 1].op == GETUPVAL)
  {
    seq(n, s requires 0 <= s < n => Binding(pc + s + 1, code[pc + s + 1].b, code[pc + s + 1].op == GETUPVAL))
  }

  /** What the association records about the words before `upTo`. */
  ghost predicate Associated(code: seq<Word>, nups: seq<nat>, r: Association, upTo: int) {
    && |r.owner| == |code| && |r.slot| == |code| && |r.captures| == |code|
    && (forall c, k {:trigger Owns(code, nups, c, k)} :: c < upTo && Owns(code, nups, c, k) && k < |code| ==> r.owner[k] == c && r.slot[k] == k - c - 1)
    && (forall k {:trigger r.owner[k]} :: 0 <= k < |code| && r.owner[k] >= 0 ==> r.owner[k] < upTo && Owns(code, nups, r.owner[k], k))
    && (forall k {:trigger r.owner[k]} :: 0 <= k < |code| && r.owner[k] < 0 ==> r.owner[k] == -1 && r.slot[k] == -1)
    && forall c {:trigger r.captures[c]} :: 0 <= c < |code| ==>
         if c < upTo && IsClosure(code, nups, c) && BindingsOk(code, nups, c)
         then r.captures[c] == BindingsFor(code, c, Expected(code, nups, c)) else r.captures[c] == []
  }

  /** A register some closure binds directly. */
  ghost predicate CapturedRegister(code: seq<Word>, nups: seq<nat>, upTo: int, r: int) {
    exists c, k :: c < upTo && CapturesAt(code, nups, c, k, r)
  }

  ghost predicate CapturesAt(code: seq<Word>, nups: seq<nat>, c: int, k: int, r: int) {
    Owns(code, nups, c, k) && k < |code| && code[k].op == MOVE && code[k].b == r
  }

  ghost predicate CapturedSoFar(code: seq<Word>, nups: seq<nat>, captured: seq<bool>, upTo: int) {
    forall r :: 0 <= r < |captured| ==> (captured[r] <==> CapturedRegister(code, nups, upTo, r))
  }

  /** Every CLOSURE before `pc` has its bindings, and they end before `pc`. */
  ghost predicate DoneBefore(code: seq<Word>, nups: seq<nat>, pc: int) {
    forall c {:trigger IsClosure(code, nups, c)} :: c < pc && IsClosure(code, nups, c) ==>
      BindingsOk(code, nups, c) && c + Expected(code, nups, c) < pc
  }

  lemma SkipKeeps(code: seq<Word>, nups: seq<nat>, r: Association, captured: seq<bool>, pc: int)
    requires 0 <= pc < |code| && !IsClosure(code, nups, pc)
    requires Associated(code, nups, r, pc) && CapturedSoFar(code, nups, captured, pc) && DoneBefore(code, nups, pc)
    ensures Associated(code, nups, r, pc + 1) && CapturedSoFar(code, nups, captured, pc + 1) && DoneBefore(code, nups, pc + 1)
  {
    forall q | 0 <= q < |captured|
      ensures CapturedRegister(code, nups, pc, q) <==> CapturedRegister(code, nups, pc + 1, q)
    {
    }
  }

  /** The loop over one CLOSURE's binding words, up to `n` of them. */
  ghost predicate SlotsDone(code: seq<Word>, pc: nat, n: nat, before: Association, after: Association) {
    && |before.owner| == |code| && |before.slot| == |code| && |before.captures| == |code|
    && |after.owner| == |code| && |after.slot| == |code| && |after.captures| == |code| && pc + n < |code|
    && (forall k {:trigger after.owner[k]} {:trigger after.slot[k]} :: 0 <= k < |code| ==>
          if pc < k <= pc + n then after.owner[k] == pc && after.slot[k] == k - pc - 1 && IsBinding(code[k])
          else after.owner[k] == before.owner[k] && after.slot[k] == before.slot[k])
    && (forall c {:trigger after.captures[c]} :: 0 <= c < |code| && c != pc ==> after.captures[c] == before.captures[c])
    && after.captures[pc] == BindingsFor(code, pc, n)
  }

  ghost predicate RegistersDone(code: seq<Word>, pc: nat, n: nat, before: seq<bool>, after: seq<bool>) {
    && |after| == |before| && pc + n < |code|
    && forall r :: 0 <= r < |after| ==>
         (after[r] <==> before[r] || exists k :: pc < k <= pc + n && code[k].op == MOVE && code[k].b == r)
  }

  method BindSlots(code: seq<Word>, pc: nat, expected: nat, before: Association, registers: seq<bool>)
    returns (result: Outcome<(Association, seq<bool>)>)
    requires pc + expected < |code| && |before.owner| == |code| && |before.slot| == |code| && |before.captures| == |code|
    ensures result.Ok? ==> SlotsDone(code, pc, expected, before, result.value.0) && RegistersDone(code, pc, expected, registers, result.value.1)
    ensures result.Fail? <==> !(forall k :: pc < k <= pc + expected ==> IsBinding(code[k]))
  {
    var r := before.(captures := before.captures[pc := []]);
    var captured := registers;
    var slot := 0;
    while slot < expected
      invariant 0 <= slot <= expected && SlotsDone(code, pc, slot, before, r) && RegistersDone(code, pc, slot, registers, captured)
      invariant forall k :: pc < k <= pc + slot ==> IsBinding(code[k])
    {
      var k := pc + slot + 1;
      var w := code[k];
      if w.extraWord || (w.op != MOVE && w.op != GETUPVAL) {
        return Fail(NotABinding(k));
      }
      r := Association(r.owner[k := pc], r.slot[k := slot],
                       r.captures[pc := r.captures[pc] + [Binding(k, w.b, w.op == GETUPVAL)]]);
      if w.op == MOVE && w.b < |captured| {
        captured := captured[w.b := true];
      }
      assert IsBinding(code[k]);
      slot := slot + 1;
    }
    result := Ok((r, captured));
  }

  lemma ClosureKeeps(code: seq<Word>, nups: seq<nat>, before: Association, after: Association, pc: nat)
    requires IsClosure(code, nups, pc) && Associated(code, nups, before, pc) && DoneBefore(code, nups, pc)
    requires pc + Expected(code, nups, pc) < |code| && SlotsDone(code, pc, Expected(code, nups, pc), before, after)
    ensures BindingsOk(code, nups, pc) && Associated(code, nups, after, pc + Expected(code, nups, pc) + 1)
    ensures DoneBefore(code, nups, pc + Expected(code, nups, pc) + 1)
  {
    var next := pc + Expected(code, nups, pc) + 1;
    forall k | pc < k < next
      ensures IsBinding(code[k]) && !IsClosure(code, nups, k)
    {
      assert after.owner[k] == pc;
    }
    forall c, k | c < next && Owns(code, nups, c, k) && k < |code|
      ensures after.owner[k] == c && after.slot[k] == k - c - 1
    {
      assert c <= pc;
    }
    forall c | 0 <= c < |code| && c != pc
      ensures if c < next && IsClosure(code, nups, c) && BindingsOk(code, nups, c)
              then after.captures[c] == BindingsFor(code, c, Expected(code, nups, c)) else after.captures[c] == []
    {
      assert after.captures[c] == before.captures[c];
    }
  }

  lemma RegistersKeep(code: seq<Word>, nups: seq<nat>, before: seq<bool>, after: seq<bool>, pc: nat)
    requires IsClosure(code, nups, pc) && CapturedSoFar(code, nups, before, pc) && BindingsOk(code, nups, pc)
    requires RegistersDone(code, pc, Expected(code, nups, pc), before, after)
    ensures CapturedSoFar(code, nups, after, pc + Expected(code, nups, pc) + 1)
  {
    var next := pc + Expected(code, nups, pc) + 1;
    forall r | 0 <= r < |after|
      ensures after[r] <==> CapturedRegister(code, nups, next, r)
    {
      if k :| pc < k < next && code[k].op == MOVE && code[k].b == r {
        assert CapturesAt(code, nups, pc, k, r);
      }
      if CapturedRegister(code, nups, next, r) {
        var c, k :| c < next && CapturesAt(code, nups, c, k, r);
        assert c > pc ==> IsBinding(code[c]);
      }
    }
  }

  /** Registers that are captured and at or above the operand of some CLOSE. */
  ghost predicate ManagedRegister(code: seq<Word>, captured: seq<bool>, upTo: nat, r: nat)
    requires upTo <= |code|
  {
    r < |captured| && captured[r] && exists pc :: 0 <= pc < upTo && code[pc].op == CLOSE && code[pc].a <= r
  }

  method CollectManaged(code: seq<Word>, captured: seq<bool>) returns (managed: seq<bool>)
    ensures |managed| == |captured| && forall r :: 0 <= r < |managed| ==> (managed[r] <==> ManagedRegister(code, captured, |code|, r))
  {
    managed := seq(|captured|, _ => false);
    for pc := 0 to |code|
      invariant |managed| == |captured| && forall r :: 0 <= r < |managed| ==> (managed[r] <==> ManagedRegister(code, captured, pc, r))
    {
      if code[pc].op == CLOSE {
        managed := CoverFrom(captured, managed, code[pc].a);
      }
    }
  }

  method CoverFrom(captured: seq<bool>, managed: seq<bool>, first: nat) returns (managed': seq<bool>)
    requires |managed| == |captured|
    ensures |managed'| == |managed| && forall r :: 0 <= r < |managed| ==> (managed'[r] <==> managed[r] || (captured[r] && first <= r))
  {
    managed' := managed;
    var r := first;
    while r < |captured|
      invariant first <= r && |managed'| == |managed|
      invariant forall q :: 0 <= q < |managed| ==> (managed'[q] <==> managed[q] || (captured[q] && first <= q < r))
    {
      if captured[r] {
        managed' := managed'[r := true];
      }
      r := r + 1;
    }
  }

  /** The whole result, for accepted code. */
  ghost predicate IsAssociation(code: seq<Word>, nups: seq<nat>, maxstack: nat, r: Association, captured: seq<bool>, managed: seq<bool>) {
    && AllBindingsOk(code, nups) && Associated(code, nups, r, |code|)
    && |captured| == maxstack && CapturedSoFar(code, nups, captured, |code|)
    && |managed| == maxstack && forall q :: 0 <= q < maxstack ==> (managed[q] <==> ManagedRegister(code, captured, |code|, q))
  }

  method Associate(code: seq<Word>, nups: seq<nat>, maxstack: nat) returns (result: Outcome<(Association, seq<bool>, seq<bool>)>)
    ensures result.Ok? <==> AllBindingsOk(code, nups)
    ensures result.Ok? ==> IsAssociation(code, nups, maxstack, result.value.0, result.value.1, result.value.2)
  {
    var captured := seq(maxstack, _ => false);
    var r := Association(seq(|code|, _ => -1), seq(|code|, _ => -1), seq(|code|, _ => []));
    var pc := 0;
    while pc < |code|
      invariant 0 <= pc <= |code| && |captured| == maxstack
      invariant Associated(code, nups, r, pc) && CapturedSoFar(code, nups, captured, pc) && DoneBefore(code, nups, pc)
    {
      if code[pc].op != CLOSURE || code[pc].bx < 0 || code[pc].bx >= |nups| {
        SkipKeeps(code, nups, r, captured, pc);
        pc := pc + 1;
        continue;
      }
      var expected := nups[code[pc].bx];
      if expected > |code| - pc - 1 {
        assert IsClosure(code, nups, pc) && !BindingsOk(code, nups, pc);
        return Fail(Truncated(pc));
      }
      var bound := BindSlots(code, pc, expected, r, captured);
      if bound.Fail? {
        assert IsClosure(code, nups, pc) && !BindingsOk(code, nups, pc);
        return Fail(bound.failure);
      }
      ClosureKeeps(code, nups, r, bound.value.0, pc);
      RegistersKeep(code, nups, captured, bound.value.1, pc);
      r, captured := bound.value.0, bound.value.1;
      pc := pc + expected + 1;
    }
    var managed := CollectManaged(code, captured);
    result := Ok((r, captured, managed));
  }

  /** A prototype, whose capture tables the association fills in. */
  class Prototype {
    const code: seq<Word>
    const childUpvalues: seq<nat>
    const maxstack: nat
    var association: Association
    var capturedRegisters: seq<bool>
    var managedCapturedRegisters: seq<bool>

    constructor (code: seq<Word>, childUpvalues: seq<nat>, maxstack: nat)
      ensures this.code == code && this.childUpvalues == childUpvalues && this.maxstack == maxstack
    {
      this.code, this.childUpvalues, this.maxstack := code, childUpvalues, maxstack;
      association := Association([], [], []);
      capturedRegisters, managedCapturedRegisters := [], [];
    }

    /** The failure, if any, is the exception of the original; the tables are then of no use to anyone. */
    method AssociateClosureCaptures() returns (failed: bool)
      modifies this
      ensures !failed <==> AllBindingsOk(code, childUpvalues)
      ensures !failed ==>
        IsAssociation(code, childUpvalues, maxstack, association, capturedRegisters, managedCapturedRegisters)
    {
      var result := Associate(code, childUpvalues, maxstack);
      failed := result.Fail?;
      if !failed {
        association, capturedRegisters, managedCapturedRegisters := result.value.0, result.value.1, result.value.2;
      }
    }
  }

  /** What the run-time model needs to know about the prototype. */
  function CaptureProto(code: seq<Word>, maxstack: nat, params: nat, captured: seq<bool>): Proto {
    Proto(maxstack, params, (set r: nat | r < |captured| && captured[r]), (set w | w in code && w.op == CLOSE :: w.a))
  }

  /** The managed registers of the tables are the registers the run-time model keeps in cells. */
  lemma ManagedAreCells(code: seq<Word>, nups: seq<nat>, maxstack: nat, params: nat,
                        r: Association, captured: seq<bool>, managed: seq<bool>, reg: nat)
    requires IsAssociation(code, nups, maxstack, r, captured, managed) && reg < maxstack
    ensures managed[reg] <==> Managed(CaptureProto(code, maxstack, params, captured), reg)
  {
    var p := CaptureProto(code, maxstack, params, captured);
    if managed[reg] {
      var pc :| 0 <= pc < |code| && code[pc].op == CLOSE && code[pc].a <= reg;
      assert code[pc] in code;
      assert code[pc].a in p.closes;
    }
    if Managed(p, reg) {
      var a :| a in p.closes && a <= reg;
      var w :| w in code && w.op == CLOSE && w.a == a;
      var pc :| 0 <= pc < |code| && code[pc] == w;
      assert ManagedRegister(code, captured, |code|, reg);
    }
  }

  /** Every local capture the association records is a register the run-time model knows as captured. */
  lemma LocalCapturesAreCaptured(code: seq<Word>, nups: seq<nat>, maxstack: nat, params: nat,
                                 r: Association, captured: seq<bool>, managed: seq<bool>, c: nat, s: nat)
    requires IsAssociation(code, nups, maxstack, r, captured, managed) && c < |code| && s < |r.captures[c]|
    requires !r.captures[c][s].fromUpvalue && r.captures[c][s].sourceIndex < maxstack
    ensures r.captures[c][s].sourceIndex in CaptureProto(code, maxstack, params, captured).captured
  {
    assert IsClosure(code, nups, c) && BindingsOk(code, nups, c);
    var k := c + s + 1;
    assert IsBinding(code[k]);
    assert CapturesAt(code, nups, c, k, r.captures[c][s].sourceIndex);
    assert CapturedRegister(code, nups, |code|, r.captures[c][s].sourceIndex);
  }
}
