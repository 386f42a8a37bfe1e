/** Unscrambling the opcode bytes of Luau code in place. */
module Opcodes {
  import opened Bytes

  /** A prototype's code: `words` 32-bit words from `offset` on. */
  datatype CodeRange = CodeRange(offset: nat, words: nat)

  /** The instruction set: how many opcodes there are, and how many words each takes, its AUX word included. */
  datatype Isa = Isa(count: nat, length: Byte -> nat)

  const ROBLOX_MULTIPLIER := 203
  const SCRAMBLE_KEY := 227

  datatype Error = UnknownOpcode(opcode: Byte, pc: nat) | TruncatedAux(pc: nat)
  datatype Result = Ok(bytes: seq<Byte>) | Err(error: Error)

  function OpcodeOffset(range: CodeRange, pc: nat): nat {
    range.offset + 4 * pc
  }

  predicate Fits(range: CodeRange, size: nat) {
    range.offset + 4 * range.words <= size
  }

  /** Ranges inside the bytes, one behind the other. */
  ghost predicate Ordered(ranges: seq<CodeRange>, size: nat) {
    && (forall k {:trigger ranges[k]} :: 0 <= k < |ranges| ==> Fits(ranges[k], size))
    && forall j, k {:trigger ranges[j], ranges[k]} :: 0 <= j < k < |ranges| ==> ranges[j].offset + 4 * ranges[j].words <= ranges[k].offset
  }

  function Times(b: Byte, multiplier: nat): Byte {
    b * multiplier % 256
  }

  // ---------- the transform ----------

  /** The words of a range from `pc` on, one instruction at a time. */
  function TransformRange(isa: Isa, bytes: seq<Byte>, range: CodeRange, pc: nat, multiplier: nat): (r: Result)
    requires Fits(range, |bytes|)
    ensures r.Ok? ==> |r.bytes| == |bytes|
    decreases range.words - pc
  {
    if pc >= range.words then Ok(bytes)
    else
      var opcode := Times(bytes[OpcodeOffset(range, pc)], multiplier);
      var length := isa.length(opcode);
      if opcode >= isa.count then Err(UnknownOpcode(opcode, pc))
      else if length == 0 || length > range.words - pc then Err(TruncatedAux(pc))
      else TransformRange(isa, bytes[OpcodeOffset(range, pc) := opcode], range, pc + length, multiplier)
  }

  function TransformAll(isa: Isa, bytes: seq<Byte>, ranges: seq<CodeRange>, k: nat, multiplier: nat): (r: Result)
    requires Ordered(ranges, |bytes|) && k <= |ranges|
    ensures r.Ok? ==> |r.bytes| == |bytes|
    decreases |ranges| - k
  {
    if k == |ranges| then Ok(bytes)
    else
      match TransformRange(isa, bytes, ranges[k], 0, multiplier) {
        case Err(e) => Err(e)
        case Ok(next) => TransformAll(isa, next, ranges, k + 1, multiplier)
      }
  }

  /** The transform in place. If it fails, the bytes are of no further use. */
  method ApplyOpcodeTransform(isa: Isa, bytes: array<Byte>, ranges: seq<CodeRange>, multiplier: nat) returns (error: seq<Error>)
    requires Ordered(ranges, bytes.Length)
    modifies bytes
    ensures var r := TransformAll(isa, old(bytes[..]), ranges, 0, multiplier);
      if r.Ok? then error == [] && bytes[..] == r.bytes else error == [r.error]
  {
    error := [];
    ghost var all := TransformAll(isa, bytes[..], ranges, 0, multiplier);
    for k := 0 to |ranges|
      invariant error == [] && TransformAll(isa, bytes[..], ranges, k, multiplier) == all
    {
      error := TransformCode(isa, bytes, ranges[k], multiplier);
      if error != [] {
        return;
      }
    }
  }

  method TransformCode(isa: Isa, bytes: array<Byte>, range: CodeRange, multiplier: nat) returns (error: seq<Error>)
    requires Fits(range, bytes.Length)
    modifies bytes
    ensures var r := TransformRange(isa, old(bytes[..]), range, 0, multiplier);
      if r.Ok? then error == [] && bytes[..] == r.bytes else error == [r.error]
  {
    error := [];
    ghost var all := TransformRange(isa, bytes[..], range, 0, multiplier);
    var pc := 0;
    while pc < range.words
      invariant error == [] && TransformRange(isa, bytes[..], range, pc, multiplier) == all
      decreases range.words - pc
    {
      var offset := OpcodeOffset(range, pc);
      var opcode: Byte := Times(bytes[offset], multiplier);
      if opcode >= isa.count {
        return [UnknownOpcode(opcode, pc)];
      }
      var length := isa.length(opcode);
      if length == 0 || length > range.words - pc {
        return [TruncatedAux(pc)];
      }
      ghost var before := bytes[..];
      bytes[offset] := opcode;
      assert bytes[..] == before[offset := opcode];
      pc := pc + length;
    }
  }

  // ---------- instructions of decoded code ----------

  /** Valid opcodes all the way, no instruction running past the range. */
  ghost predicate Decodes(isa: Isa, bytes: seq<Byte>, range: CodeRange, pc: nat)
    requires Fits(range, |bytes|)
    decreases range.words - pc
  {
    pc < range.words ==>
      var opcode := bytes[OpcodeOffset(range, pc)];
      opcode < isa.count && 0 < isa.length(opcode) <= range.words - pc && Decodes(isa, bytes, range, pc + isa.length(opcode))
  }

  /** Where the instructions from `pc` on have their opcode bytes. */
  ghost function Starts(isa: Isa, bytes: seq<Byte>, range: CodeRange, pc: nat): (r: set<nat>)
    requires Fits(range, |bytes|)
    ensures forall i :: i in r ==> OpcodeOffset(range, pc) <= i < range.offset + 4 * range.words
    decreases range.words - pc
  {
    if pc >= range.words then {}
    else
      var length := isa.length(bytes[OpcodeOffset(range, pc)]);
      {OpcodeOffset(range, pc)} + if length == 0 then {} else Starts(isa, bytes, range, pc + length)
  }

  ghost predicate DecodesFrom(isa: Isa, bytes: seq<Byte>, ranges: seq<CodeRange>, k: nat)
    requires Ordered(ranges, |bytes|)
  {
    forall j {:trigger ranges[j]} :: k <= j < |ranges| ==> Decodes(isa, bytes, ranges[j], 0)
  }

  ghost function StartsFrom(isa: Isa, bytes: seq<Byte>, ranges: seq<CodeRange>, k: nat): (r: set<nat>)
    requires Ordered(ranges, |bytes|) && k <= |ranges|
    ensures forall i :: i in r ==> k < |ranges| && ranges[k].offset <= i
    decreases |ranges| - k
  {
    if k == |ranges| then {} else Starts(isa, bytes, ranges[k], 0) + StartsFrom(isa, bytes, ranges, k + 1)
  }

  /** `scrambled` is `plain` with the bytes at `places`, and no others, multiplied by `key` modulo 256. */
  ghost predicate Scrambles(plain: seq<Byte>, scrambled: seq<Byte>, places: set<nat>, key: nat) {
    && |plain| == |scrambled|
    && forall i: nat {:trigger scrambled[i]} :: i < |plain| ==> scrambled[i] == if i in places then Times(plain[i], key) else plain[i]
  }

  // ---------- restoring ----------

  predicate InverseKeys(key: nat, multiplier: nat) {
    key * multiplier % 256 == 1
  }

  lemma TimesInverse(b: Byte, key: nat, multiplier: nat)
    requires InverseKeys(key, multiplier)
    ensures Times(Times(b, key), multiplier) == b
  {
    var q, r := b * key / 256, b * key % 256;
    var t := key * multiplier / 256;
    calc {
      r * multiplier;
      (b * key - 256 * q) * multiplier;
      b * (key * multiplier) - 256 * (q * multiplier);
      b * (256 * t + 1) - 256 * (q * multiplier);
      b + 256 * (b * t - q * multiplier);
    }
    ModShift(b, b * t - q * multiplier);
  }

  lemma ModShift(b: Byte, n: int)
    ensures (b + 256 * n) % 256 == b
  {
  }

  /** Code with the opcode bytes at `places` still scrambled: one range is restored, the other places stay. */
  lemma {:induction false} RestoreRange(
    isa: Isa, plain: seq<Byte>, bytes: seq<Byte>, places: set<nat>, range: CodeRange, pc: nat, key: nat, multiplier: nat)
    requires InverseKeys(key, multiplier) && Fits(range, |plain|) && Scrambles(plain, bytes, places, key)
    requires Decodes(isa, plain, range, pc) && Starts(isa, plain, range, pc) <= places
    ensures var r := TransformRange(isa, bytes, range, pc, multiplier);
      r.Ok? && Scrambles(plain, r.bytes, places - Starts(isa, plain, range, pc), key)
    decreases range.words - pc
  {
    if pc < range.words {
      var offset := OpcodeOffset(range, pc);
      var opcode := plain[offset];
      TimesInverse(opcode, key, multiplier);
      assert bytes[offset] == Times(opcode, key);
      var next := pc + isa.length(opcode);
      var rest := Starts(isa, plain, range, next);
      RestoreRange(isa, plain, bytes[offset := opcode], places - {offset}, range, next, key, multiplier);
      assert places - {offset} - rest == places - Starts(isa, plain, range, pc);
    } else {
      assert places - Starts(isa, plain, range, pc) == places;
    }
  }

  lemma {:induction false} RestoreAll(isa: Isa, plain: seq<Byte>, bytes: seq<Byte>, ranges: seq<CodeRange>, k: nat, key: nat, multiplier: nat)
    requires InverseKeys(key, multiplier) && Ordered(ranges, |plain|) && k <= |ranges| && DecodesFrom(isa, plain, ranges, k)
    requires Scrambles(plain, bytes, StartsFrom(isa, plain, ranges, k), key)
    ensures TransformAll(isa, bytes, ranges, k, multiplier) == Ok(plain)
    decreases |ranges| - k
  {
    if k == |ranges| {
      assert bytes == plain;
    } else {
      var places, later := StartsFrom(isa, plain, ranges, k), StartsFrom(isa, plain, ranges, k + 1);
      var here := Starts(isa, plain, ranges[k], 0);
      RestoreRange(isa, plain, bytes, places, ranges[k], 0, key, multiplier);
      assert places - here == later;
      RestoreAll(isa, plain, TransformRange(isa, bytes, ranges[k], 0, multiplier).bytes, ranges, k + 1, key, multiplier);
    }
  }

  // ---------- what a successful transform has changed ----------

  /** Two byte strings with the same bytes from `pc` on have the same instructions there. */
  lemma {:induction false} SameCode(isa: Isa, x: seq<Byte>, y: seq<Byte>, range: CodeRange, pc: nat)
    requires Fits(range, |x|) && |x| == |y|
    requires forall i :: OpcodeOffset(range, pc) <= i < range.offset + 4 * range.words ==> x[i] == y[i]
    ensures Decodes(isa, x, range, pc) == Decodes(isa, y, range, pc) && Starts(isa, x, range, pc) == Starts(isa, y, range, pc)
    decreases range.words - pc
  {
    if pc < range.words && isa.length(x[OpcodeOffset(range, pc)]) > 0 {
      SameCode(isa, x, y, range, pc + isa.length(x[OpcodeOffset(range, pc)]));
    }
  }

  /** What the transform of a range yields decodes, and differs from the input in its opcode bytes alone. */
  lemma {:induction false} RangeChanges(isa: Isa, bytes: seq<Byte>, range: CodeRange, pc: nat, multiplier: nat)
    requires Fits(range, |bytes|)
    ensures var r := TransformRange(isa, bytes, range, pc, multiplier);
      r.Ok? ==> Decodes(isa, r.bytes, range, pc) && Scrambles(bytes, r.bytes, Starts(isa, r.bytes, range, pc), multiplier)
    decreases range.words - pc
  {
    var r := TransformRange(isa, bytes, range, pc, multiplier);
    if pc < range.words && r.Ok? {
      var offset := OpcodeOffset(range, pc);
      var opcode: Byte := Times(bytes[offset], multiplier);
      var mid, next := bytes[offset := opcode], pc + isa.length(opcode);
      RangeChanges(isa, mid, range, next, multiplier);
      assert offset !in Starts(isa, r.bytes, range, next);
      assert r.bytes[offset] == opcode;
    }
  }

  lemma {:induction false} AllChanges(isa: Isa, bytes: seq<Byte>, ranges: seq<CodeRange>, k: nat, multiplier: nat)
    requires Ordered(ranges, |bytes|) && k <= |ranges|
    ensures var r := TransformAll(isa, bytes, ranges, k, multiplier);
      r.Ok? ==> DecodesFrom(isa, r.bytes, ranges, k) && Scrambles(bytes, r.bytes, StartsFrom(isa, r.bytes, ranges, k), multiplier)
    decreases |ranges| - k
  {
    var r := TransformAll(isa, bytes, ranges, k, multiplier);
    if k < |ranges| && r.Ok? {
      var mid := TransformRange(isa, bytes, ranges[k], 0, multiplier).bytes;
      RangeChanges(isa, bytes, ranges[k], 0, multiplier);
      AllChanges(isa, mid, ranges, k + 1, multiplier);
      KeepsEarlier(isa, bytes, mid, r.bytes, ranges, k, multiplier);
    }
  }

  /** The later ranges leave an earlier one as it is. */
  lemma KeepsEarlier(isa: Isa, bytes: seq<Byte>, mid: seq<Byte>, done: seq<Byte>, ranges: seq<CodeRange>, k: nat, multiplier: nat)
    requires Ordered(ranges, |bytes|) && k < |ranges| && |mid| == |bytes| && |done| == |bytes|
    requires Decodes(isa, mid, ranges[k], 0) && Scrambles(bytes, mid, Starts(isa, mid, ranges[k], 0), multiplier)
    requires DecodesFrom(isa, done, ranges, k + 1) && Scrambles(mid, done, StartsFrom(isa, done, ranges, k + 1), multiplier)
    ensures DecodesFrom(isa, done, ranges, k) && Scrambles(bytes, done, StartsFrom(isa, done, ranges, k), multiplier)
  {
    var range := ranges[k];
    var later := StartsFrom(isa, done, ranges, k + 1);
    forall i | range.offset <= i < range.offset + 4 * range.words
      ensures mid[i] == done[i]
    {
      assert i !in later;
      assert done[i] == mid[i];
    }
    SameCode(isa, mid, done, range, 0);
    forall i: nat | i < |bytes|
      ensures done[i] == if i in StartsFrom(isa, done, ranges, k) then Times(bytes[i], multiplier) else bytes[i]
    {
      assert mid[i] == if i in Starts(isa, mid, range, 0) then Times(bytes[i], multiplier) else bytes[i];
    }
  }

  /**
   With inverse keys, the transform turns `bytes` into `plain` exactly if `plain` decodes and `bytes` is `plain` with
   its opcode bytes scrambled: nothing but opcode bytes changes, no AUX word, no length, no instruction boundary.
   */
  lemma TransformRestoresIff(isa: Isa, bytes: seq<Byte>, plain: seq<Byte>, ranges: seq<CodeRange>, key: nat, multiplier: nat)
    requires InverseKeys(key, multiplier) && Ordered(ranges, |bytes|) && |plain| == |bytes|
    ensures TransformAll(isa, bytes, ranges, 0, multiplier) == Ok(plain) <==>
      DecodesFrom(isa, plain, ranges, 0) && Scrambles(plain, bytes, StartsFrom(isa, plain, ranges, 0), key)
  {
    if TransformAll(isa, bytes, ranges, 0, multiplier) == Ok(plain) {
      AllChanges(isa, bytes, ranges, 0, multiplier);
      assert InverseKeys(multiplier, key);
      forall i: nat | i < |plain|
        ensures bytes[i] == if i in StartsFrom(isa, plain, ranges, 0) then Times(plain[i], key) else plain[i]
      {
        assert plain[i] == if i in StartsFrom(isa, plain, ranges, 0) then Times(bytes[i], multiplier) else bytes[i];
        TimesInverse(bytes[i], multiplier, key);
      }
    }
    if DecodesFrom(isa, plain, ranges, 0) && Scrambles(plain, bytes, StartsFrom(isa, plain, ranges, 0), key) {
      RestoreAll(isa, plain, bytes, ranges, 0, key, multiplier);
    }
  }

  lemma RobloxKeys()
    ensures InverseKeys(SCRAMBLE_KEY, ROBLOX_MULTIPLIER) && InverseKeys(1, 1)
  {
  }

  // ---------- both readings ----------

  method TryMultiplier(isa: Isa, input: seq<Byte>, ranges: seq<CodeRange>, multiplier: nat) returns (ok: bool, candidate: seq<Byte>)
    requires Ordered(ranges, |input|)
    ensures var r := TransformAll(isa, input, ranges, 0, multiplier); if ok then r == Ok(candidate) else r.Err?
  {
    var copy := new Byte[|input|](i requires 0 <= i < |input| => input[i]);
    assert copy[..] == input;
    var error := ApplyOpcodeTransform(isa, copy, ranges, multiplier);
    ok, candidate := error == [], copy[..];
  }

  /**
   The readings of a chunk that make sense: as it is, and unscrambled. Each reading is found exactly if the chunk is that
   reading, plain or scrambled; the plain one comes first, and equal readings come once.
   */
  method OpcodeVariants(isa: Isa, input: seq<Byte>, ranges: seq<CodeRange>) returns (variants: seq<seq<Byte>>)
    requires Ordered(ranges, |input|)
    ensures input in variants <== DecodesFrom(isa, input, ranges, 0)
    ensures forall v :: v in variants ==> |v| == |input|
    ensures forall v {:trigger v in variants} :: |v| == |input| ==>
      (v in variants <==>
         DecodesFrom(isa, v, ranges, 0) && (v == input || Scrambles(v, input, StartsFrom(isa, v, ranges, 0), SCRAMBLE_KEY)))
    ensures |variants| <= 2 && (|variants| == 2 ==> variants[0] == input && variants[0] != variants[1])
  {
    RobloxKeys();
    var plainOk, plain := TryMultiplier(isa, input, ranges, 1);
    var robloxOk, roblox := TryMultiplier(isa, input, ranges, ROBLOX_MULTIPLIER);
    forall v: seq<Byte> | |v| == |input|
      ensures plainOk && plain == v <==> DecodesFrom(isa, v, ranges, 0) && v == input
      ensures robloxOk && roblox == v <==> DecodesFrom(isa, v, ranges, 0) && Scrambles(v, input, StartsFrom(isa, v, ranges, 0), SCRAMBLE_KEY)
    {
      TransformRestoresIff(isa, input, v, ranges, 1, 1);
      TransformRestoresIff(isa, input, v, ranges, SCRAMBLE_KEY, ROBLOX_MULTIPLIER);
      ScrambleByOne(v, input, StartsFrom(isa, v, ranges, 0));
    }
    variants := if plainOk then [plain] else [];
    if robloxOk && (variants == [] || variants[0] != roblox) {
      variants := variants + [roblox];
    }
  }

  lemma ScrambleByOne(plain: seq<Byte>, scrambled: seq<Byte>, places: set<nat>)
    ensures Scrambles(plain, scrambled, places, 1) <==> plain == scrambled
  {
    if Scrambles(plain, scrambled, places, 1) {
      assert forall i: nat :: i < |plain| ==> scrambled[i] == plain[i];
    }
  }
}
