/** Envelopes that differ only inside their code ranges have the same code ranges. */
module EnvelopeFrame {
  import opened Bytes
  import opened Opcodes
  import opened Envelope

  /** The same bytes from `p` up to `q`. */
  ghost predicate Agree(x: seq<Byte>, y: seq<Byte>, p: nat, q: nat) {
    |x| == |y| && forall i {:trigger y[i]} {:trigger x[i]} :: p <= i < q && i < |x| ==> x[i] == y[i]
  }

  // ---------- every reader looks only at what it consumes ----------

  lemma {:induction false} VarLocal(x: seq<Byte>, y: seq<Byte>, p: nat, i: nat, value: nat)
    requires var r := ReadVar(x, p, i, value); r.Got? && Agree(x, y, p, r.pos)
    ensures ReadVar(y, p, i, value) == ReadVar(x, p, i, value)
    decreases 5 - i
  {
    if x[p] >= 128 {
      VarLocal(x, y, p + 1, i + 1, value + Shifted(x[p] % 128, i));
    }
  }

  lemma {:induction false} Var64Local(x: seq<Byte>, y: seq<Byte>, p: nat, i: nat)
    requires var r := ReadVar64(x, p, i); r.Got? && Agree(x, y, p, r.pos)
    ensures ReadVar64(y, p, i) == ReadVar64(x, p, i)
    decreases 10 - i
  {
    if x[p] >= 128 {
      Var64Local(x, y, p + 1, i + 1);
    }
  }

  lemma FieldLocal(x: seq<Byte>, y: seq<Byte>, p: nat, f: Field)
    requires p <= |x| && var r := ReadField(x, p, f); r.Got? && Agree(x, y, p, r.pos)
    ensures ReadField(y, p, f) == ReadField(x, p, f)
  {
    match f {
      case Var(_) => VarLocal(x, y, p, 0, 0);
      case Var64 => Var64Local(x, y, p, 0);
      case _ =>
    }
  }

  lemma {:induction false} FieldsLocal(x: seq<Byte>, y: seq<Byte>, p: nat, fs: seq<Field>, k: nat, before: seq<nat>)
    requires p <= |x| && k <= |fs| && |before| == k
    requires var r := ReadFields(x, p, fs, k, before); r.Got? && Agree(x, y, p, r.pos)
    ensures ReadFields(y, p, fs, k, before) == ReadFields(x, p, fs, k, before)
    decreases |fs| - k
  {
    if k < |fs| {
      FieldLocal(x, y, p, fs[k]);
      var v := ReadField(x, p, fs[k]);
      FieldsLocal(x, y, v.pos, fs, k + 1, before + [v.value]);
    }
  }

  lemma {:induction false} RepeatLocal(x: seq<Byte>, y: seq<Byte>, p: nat, n: nat, fs: seq<Field>)
    requires p <= |x| && var r := Repeat(x, p, n, fs); r.Got? && Agree(x, y, p, r.pos)
    ensures Repeat(y, p, n, fs) == Repeat(x, p, n, fs)
    decreases n
  {
    if n > 0 {
      FieldsLocal(x, y, p, fs, 0, []);
      RepeatLocal(x, y, ReadFields(x, p, fs, 0, []).pos, n - 1, fs);
    }
  }

  lemma CountedLocal(x: seq<Byte>, y: seq<Byte>, p: nat, fs: seq<Field>)
    requires p <= |x| && var r := Counted(x, p, fs); r.Got? && Agree(x, y, p, r.pos)
    ensures Counted(y, p, fs) == Counted(x, p, fs)
  {
    FieldLocal(x, y, p, Var(MAX_OBJECTS + 1));
    var n := ReadField(x, p, Var(MAX_OBJECTS + 1));
    RepeatLocal(x, y, n.pos, n.value, fs);
  }

  lemma {:induction false} StringsLocal(x: seq<Byte>, y: seq<Byte>, p: nat, n: nat, total: nat)
    requires p <= |x| && var r := Strings(x, p, n, total); r.Got? && Agree(x, y, p, r.pos)
    ensures Strings(y, p, n, total) == Strings(x, p, n, total)
    decreases n
  {
    if n > 0 {
      FieldLocal(x, y, p, Var(WORD_LIMIT));
      var length := ReadField(x, p, Var(WORD_LIMIT));
      StringsLocal(x, y, length.pos + length.value, n - 1, total + length.value);
    }
  }

  lemma {:induction false} UserdataLocal(x: seq<Byte>, y: seq<Byte>, p: nat, strings: nat, entries: nat)
    requires p <= |x| && var r := Userdata(x, p, strings, entries); r.Got? && Agree(x, y, p, r.pos)
    ensures Userdata(y, p, strings, entries) == Userdata(x, p, strings, entries)
    decreases |x| - p
  {
    if x[p] != 0 {
      FieldLocal(x, y, p + 1, Var(strings + 1));
      UserdataLocal(x, y, ReadField(x, p + 1, Var(strings + 1)).pos, strings, entries + 1);
    }
  }

  lemma ShapeLocal(x: seq<Byte>, y: seq<Byte>, p: nat, shape: Shape, constants: nat)
    requires p <= |x| && var r := ReadShape(x, p, shape, constants); r.Got? && Agree(x, y, p, r.pos)
    ensures ReadShape(y, p, shape, constants) == ReadShape(x, p, shape, constants)
  {
    match shape {
      case Plain(fields) => FieldsLocal(x, y, p, fields, 0, []);
      case Table(item) => CountedLocal(x, y, p, item);
      case ClassShape =>
        FieldsLocal(x, y, p, [Var(constants), Var(WORD_LIMIT), Var(WORD_LIMIT)], 0, []);
        var v := ReadFields(x, p, [Var(constants), Var(WORD_LIMIT), Var(WORD_LIMIT)], 0, []);
        RepeatLocal(x, y, v.pos, v.value[1] + v.value[2], [Var(constants)]);
      case NoShape =>
    }
  }

  lemma {:induction false} ConstantListLocal(x: seq<Byte>, y: seq<Byte>, p: nat, n: nat, env: Env, constants: nat)
    requires p <= |x| && var r := ConstantList(x, p, n, env, constants); r.Got? && Agree(x, y, p, r.pos)
    ensures ConstantList(y, p, n, env, constants) == ConstantList(x, p, n, env, constants)
    decreases n
  {
    if n > 0 {
      var shape := ShapeOf(x[p], env, constants);
      ShapeLocal(x, y, p + 1, shape, constants);
      ConstantListLocal(x, y, ReadShape(x, p + 1, shape, constants).pos, n - 1, env, constants);
    }
  }

  lemma ConstantsLocal(x: seq<Byte>, y: seq<Byte>, p: nat, env: Env, total: nat)
    requires p <= |x| && var r := Constants(x, p, env, total); r.Got? && Agree(x, y, p, r.pos)
    ensures Constants(y, p, env, total) == Constants(x, p, env, total)
  {
    ListReaderLocal(env);
    CountThenLocal(x, y, p, total, ListReader(env));
  }

  /** A reader that looks only at what it consumes. */
  ghost predicate Local<T(!new)>(f: Decoder<T>) {
    forall x: seq<Byte>, y: seq<Byte>, p: nat {:trigger f(x, p), f(y, p)} ::
      f(x, p).Got? ==> p <= f(x, p).pos <= |x| && (Agree(x, y, p, f(x, p).pos) ==> f(y, p) == f(x, p))
  }

  lemma CountThenLocal(x: seq<Byte>, y: seq<Byte>, p: nat, total: nat, list: nat -> Decoder<nat>)
    requires forall n {:trigger list(n)} :: Local(list(n))
    requires p <= |x| && var r := CountThen(x, p, total, list); r.Got? && Agree(x, y, p, r.pos)
    ensures CountThen(y, p, total, list) == CountThen(x, p, total, list)
  {
    var n := ReadField(x, p, Var(MAX_OBJECTS + 1));
    var read := list(n.value);
    assert Local(read) && read(x, n.pos).Got?;
    assert read(y, n.pos) == read(y, n.pos);
    FieldLocal(x, y, p, Var(MAX_OBJECTS + 1));
  }

  lemma ListReaderLocal(env: Env)
    ensures forall n {:trigger ListReader(env)(n)} :: Local(ListReader(env)(n))
  {
    forall n: nat
      ensures Local(ListReader(env)(n))
    {
      var f := ListReader(env)(n);
      forall x: seq<Byte>, y: seq<Byte>, p: nat | f(x, p).Got? && Agree(x, y, p, f(x, p).pos)
        ensures f(y, p) == f(x, p)
      {
        ConstantListLocal(x, y, p, n, env, n);
      }
    }
  }

  lemma FlagsLocal(x: seq<Byte>, y: seq<Byte>, p: nat, env: Env, end: nat, maxStack: nat)
    requires p <= |x| && var r := ReadFlags(x, p, env, end, maxStack); r.Got? && Agree(x, y, p, r.pos)
    ensures ReadFlags(y, p, env, end, maxStack) == ReadFlags(x, p, env, end, maxStack)
  {
    if env.version >= 4 {
      FieldsLocal(x, y, p, [U8(256), Var(WORD_LIMIT)], 0, []);
    }
  }

  lemma PrefixLocal(x: seq<Byte>, y: seq<Byte>, p: nat, env: Env)
    requires p <= |x| && var r := ReadPrefix(x, p, env); r.Got? && Agree(x, y, p, r.pos)
    ensures ReadPrefix(y, p, env) == ReadPrefix(x, p, env)
  {
    var size := if env.version >= 12 then ReadField(x, p, Var(WORD_LIMIT)) else Got(0, p);
    var v := ReadFields(x, size.pos, [U8(256), U8(256), U8(201), U8(2)], 0, []);
    var end := if env.version >= 12 then size.pos + size.value else |x|;
    if env.version >= 12 {
      FieldLocal(x, y, p, Var(WORD_LIMIT));
    }
    FieldsLocal(x, y, size.pos, [U8(256), U8(256), U8(201), U8(2)], 0, []);
    FlagsLocal(x, y, v.pos, env, end, v.value[0]);
  }

  /** The code itself is skipped: only its word count is read. */
  lemma CodeLocal(x: seq<Byte>, y: seq<Byte>, p: nat, total: nat)
    requires p <= |x| && var r := ReadCode(x, p, total); r.Got? && Agree(x, y, p, r.value.offset)
    ensures ReadCode(y, p, total) == ReadCode(x, p, total)
  {
    FieldLocal(x, y, p, Var(MAX_OBJECTS + 1));
  }

  lemma LinesLocal(x: seq<Byte>, y: seq<Byte>, p: nat, words: nat)
    requires p <= |x| && var r := ReadLines(x, p, words); r.Got? && Agree(x, y, p, r.pos)
    ensures ReadLines(y, p, words) == ReadLines(x, p, words)
  {
    FieldLocal(x, y, p, U8(2));
    var present := ReadField(x, p, U8(2));
    if present.value != 0 {
      FieldLocal(x, y, present.pos, U8(32));
    }
  }

  lemma DebugLocal(x: seq<Byte>, y: seq<Byte>, p: nat, env: Env, maxStack: nat)
    requires p <= |x| && var r := ReadDebug(x, p, env, maxStack); r.Got? && Agree(x, y, p, r.pos)
    ensures ReadDebug(y, p, env, maxStack) == ReadDebug(x, p, env, maxStack)
  {
    FieldLocal(x, y, p, U8(2));
    var present := ReadField(x, p, U8(2));
    if present.value != 0 {
      var locals := [Var(env.strings + 1), Var(WORD_LIMIT), Var(WORD_LIMIT), U8(maxStack)];
      CountedLocal(x, y, present.pos, locals);
      CountedLocal(x, y, Counted(x, present.pos, locals).pos, [Var(env.strings + 1)]);
    }
  }

  lemma EndLocal(x: seq<Byte>, y: seq<Byte>, p: nat, env: Env, prefix: Prefix)
    requires p <= |x| && var r := ReadEnd(x, p, env, prefix); r.Got? && Agree(x, y, p, r.pos)
    ensures ReadEnd(y, p, env, prefix) == ReadEnd(x, p, env, prefix)
  {
    var feedback := if env.version >= 11 then Counted(x, p, [U8(1), Var(WORD_LIMIT)]) else Got(0, p);
    if env.version >= 11 {
      CountedLocal(x, y, p, [U8(1), Var(WORD_LIMIT)]);
    }
    if env.version >= 12 && prefix.flags / INLINABLE_BIT % 2 == 1 {
      FieldLocal(x, y, feedback.pos, Var64);
    }
  }

  lemma InfoLocal(x: seq<Byte>, y: seq<Byte>, p: nat, env: Env, prefix: Prefix, words: nat)
    requires p <= |x| && var r := ReadInfo(x, p, env, prefix, words); r.Got? && Agree(x, y, p, r.pos)
    ensures ReadInfo(y, p, env, prefix, words) == ReadInfo(x, p, env, prefix, words)
  {
    var r1 := ReadLines(x, p, words);
    var r2 := ReadDebug(x, r1.pos, env, prefix.maxStack);
    LinesLocal(x, y, p, words);
    DebugLocal(x, y, r1.pos, env, prefix.maxStack);
    EndLocal(x, y, r2.pos, env, prefix);
  }

  lemma NamedLocal(x: seq<Byte>, y: seq<Byte>, p: nat, env: Env, prefix: Prefix, words: nat)
    requires p <= |x| && var r := ReadNamed(x, p, env, prefix, words); r.Got? && Agree(x, y, p, r.pos)
    ensures ReadNamed(y, p, env, prefix, words) == ReadNamed(x, p, env, prefix, words)
  {
    var names := [Var(WORD_LIMIT), Var(env.strings + 1)];
    var r1 := ReadFields(x, p, names, 0, []);
    FieldsLocal(x, y, p, names, 0, []);
    InfoLocal(x, y, r1.pos, env, prefix, words);
  }

  lemma TailLocal(x: seq<Byte>, y: seq<Byte>, p: nat, env: Env, prefix: Prefix, words: nat)
    requires p <= |x| && var r := ReadTail(x, p, env, prefix, words); r.Got? && Agree(x, y, p, r.pos)
    ensures ReadTail(y, p, env, prefix, words) == ReadTail(x, p, env, prefix, words)
  {
    var r1 := Counted(x, p, [Var(env.protos)]);
    CountedLocal(x, y, p, [Var(env.protos)]);
    NamedLocal(x, y, r1.pos, env, prefix, words);
  }

  ghost predicate LocalTails(tail: (Prefix, nat) -> Decoder<nat>) {
    forall prefix, words {:trigger tail(prefix, words)} :: Local(tail(prefix, words))
  }

  /** A prototype looks at everything it consumes except its code. */
  lemma ChainLocal(x: seq<Byte>, y: seq<Byte>, p: nat, words: nat, prefixReader: Decoder<Prefix>, constantsReader: Decoder<nat>,
                   tailReader: (Prefix, nat) -> Decoder<nat>)
    requires Local(prefixReader) && Local(constantsReader) && LocalTails(tailReader)
    requires ProtoChain(x, p, words, prefixReader, constantsReader, tailReader).Got?
    requires var r := ProtoChain(x, p, words, prefixReader, constantsReader, tailReader);
      && Agree(x, y, p, r.value.range.offset) && Agree(x, y, r.value.range.offset + 4 * r.value.range.words, r.pos)
    ensures ProtoChain(y, p, words, prefixReader, constantsReader, tailReader)
         == ProtoChain(x, p, words, prefixReader, constantsReader, tailReader)
  {
    var r1 := prefixReader(x, p);
    var r2 := ReadCode(x, r1.pos, words);
    var r3 := constantsReader(x, r2.pos);
    var read := tailReader(r1.value, r2.value.words);
    assert Local(read);
    var r4 := read(x, r3.pos);
    assert prefixReader(y, p) == r1;
    CodeLocal(x, y, r1.pos, words);
    assert constantsReader(y, r2.pos) == r3;
    assert read(y, r3.pos) == r4;
  }

  lemma PartsLocal(env: Env, constants: nat)
    ensures Local(PrefixReader(env)) && Local(ConstantsReader(env, constants)) && LocalTails(TailReader(env))
  {
    PrefixReaderLocal(env);
    ConstantsReaderLocal(env, constants);
    TailReaderLocal(env);
  }

  lemma PrefixReaderLocal(env: Env)
    ensures Local(PrefixReader(env))
  {
    var f := PrefixReader(env);
    forall x: seq<Byte>, y: seq<Byte>, p: nat | f(x, p).Got? && Agree(x, y, p, f(x, p).pos)
      ensures f(y, p) == f(x, p)
    {
      PrefixLocal(x, y, p, env);
    }
  }

  lemma ConstantsReaderLocal(env: Env, constants: nat)
    ensures Local(ConstantsReader(env, constants))
  {
    var f := ConstantsReader(env, constants);
    forall x: seq<Byte>, y: seq<Byte>, p: nat | f(x, p).Got? && Agree(x, y, p, f(x, p).pos)
      ensures f(y, p) == f(x, p)
    {
      ConstantsLocal(x, y, p, env, constants);
    }
  }

  lemma TailReaderLocal(env: Env)
    ensures LocalTails(TailReader(env))
  {
    forall prefix, words
      ensures Local(TailReader(env)(prefix, words))
    {
      var f := TailReader(env)(prefix, words);
      forall x: seq<Byte>, y: seq<Byte>, p: nat | f(x, p).Got? && Agree(x, y, p, f(x, p).pos)
        ensures f(y, p) == f(x, p)
      {
        TailLocal(x, y, p, env, prefix, words);
      }
    }
  }

  // ---------- all prototypes ----------

  /** The range found lies in what was read. */
  ghost predicate Placed(read: ProtoReader) {
    forall b: seq<Byte>, p: nat, words: nat, constants: nat {:trigger read(b, p, words, constants)} ::
      var r := read(b, p, words, constants);
      r.Got? ==> p <= r.value.range.offset && End(r.value.range) <= r.pos <= |b|
  }

  ghost predicate LocalProto(read: ProtoReader) {
    forall x: seq<Byte>, y: seq<Byte>, p: nat, words: nat, constants: nat
      {:trigger read(x, p, words, constants), read(y, p, words, constants)} ::
      var r := read(x, p, words, constants);
      r.Got? && Agree(x, y, p, r.value.range.offset) && Agree(x, y, End(r.value.range), r.pos) ==> read(y, p, words, constants) == r
  }

  lemma ProtoReaderIsLocal(env: Env)
    ensures Placed(ProtoReaderFor(env)) && LocalProto(ProtoReaderFor(env))
  {
    var read := ProtoReaderFor(env);
    forall x: seq<Byte>, y: seq<Byte>, p: nat, words: nat, constants: nat
      | var r := read(x, p, words, constants); r.Got? && Agree(x, y, p, r.value.range.offset) && Agree(x, y, End(r.value.range), r.pos)
      ensures read(y, p, words, constants) == read(x, p, words, constants)
    {
      PartsLocal(env, constants);
      ChainLocal(x, y, p, words, PrefixReader(env), ConstantsReader(env, constants), TailReader(env));
    }
  }

  function End(range: CodeRange): nat {
    range.offset + 4 * range.words
  }

  ghost predicate EndBy(ranges: seq<CodeRange>, p: nat) {
    forall k {:trigger ranges[k]} :: 0 <= k < |ranges| ==> End(ranges[k]) <= p
  }

  /** The ranges found are inside what was read, one behind the other, and behind those found before. */
  lemma {:induction false} ProtosOrdered(read: ProtoReader, b: seq<Byte>, p: nat, n: nat, words: nat, constants: nat, before: seq<CodeRange>)
    requires Placed(read) && p <= |b| && Ordered(before, |b|) && EndBy(before, p)
    ensures var r := ReadProtos(read, b, p, n, words, constants, before);
      r.Got? ==>
        && Ordered(r.value, |b|) && EndBy(r.value, r.pos) && |before| + n == |r.value| && r.value[..|before|] == before
        && forall k {:trigger r.value[k]} :: |before| <= k < |r.value| ==> p <= r.value[k].offset
    decreases n
  {
    if n > 0 {
      var proto := read(b, p, words, constants);
      if proto.Got? {
        var more := before + [proto.value.range];
        ProtosOrdered(read, b, proto.pos, n - 1, proto.value.words, proto.value.constants, more);
        var r := ReadProtos(read, b, p, n, words, constants, before);
        if r.Got? {
          assert r.value[|before|] == r.value[..|more|][|before|];
          assert r.value[..|before|] == r.value[..|more|][..|before|];
        }
      }
    } else {
      assert before[..|before|] == before;
    }
  }

  predicate Covers(range: CodeRange, i: nat) {
    range.offset <= i < End(range)
  }

  /** The same bytes wherever no code range lies. */
  ghost predicate AgreeOutside(x: seq<Byte>, y: seq<Byte>, ranges: seq<CodeRange>) {
    && |x| == |y|
    && forall i: nat {:trigger y[i]} {:trigger x[i]} :: i < |x| && (forall k :: 0 <= k < |ranges| ==> !Covers(ranges[k], i)) ==> x[i] == y[i]
  }

  /** Between the end of one range and the start of the next there is no code. */
  lemma AgreeBetween(x: seq<Byte>, y: seq<Byte>, ranges: seq<CodeRange>, p: nat, q: nat)
    requires AgreeOutside(x, y, ranges)
    requires forall k {:trigger ranges[k]} :: 0 <= k < |ranges| ==> End(ranges[k]) <= p || q <= ranges[k].offset
    ensures Agree(x, y, p, q)
  {
  }

  lemma {:induction false} ProtosLocal(
    read: ProtoReader, x: seq<Byte>, y: seq<Byte>, p: nat, n: nat, words: nat, constants: nat, before: seq<CodeRange>)
    requires Placed(read) && LocalProto(read) && p <= |x| && Ordered(before, |x|) && EndBy(before, p)
    requires var r := ReadProtos(read, x, p, n, words, constants, before); r.Got? && AgreeOutside(x, y, r.value)
    ensures ReadProtos(read, y, p, n, words, constants, before) == ReadProtos(read, x, p, n, words, constants, before)
    decreases n
  {
    if n > 0 {
      var r := ReadProtos(read, x, p, n, words, constants, before);
      var proto := read(x, p, words, constants);
      var more := before + [proto.value.range];
      ProtosOrdered(read, x, proto.pos, n - 1, proto.value.words, proto.value.constants, more);
      ProtoApart(x, p, r.value, more, proto.value.range, proto.pos);
      AgreeBetween(x, y, r.value, p, proto.value.range.offset);
      AgreeBetween(x, y, r.value, End(proto.value.range), proto.pos);
      assert read(y, p, words, constants) == proto;
      ProtosLocal(read, x, y, proto.pos, n - 1, proto.value.words, proto.value.constants, more);
    }
  }

  /** Around a prototype's own range, no other range reaches into the prototype. */
  lemma ProtoApart(x: seq<Byte>, p: nat, ranges: seq<CodeRange>, more: seq<CodeRange>, range: CodeRange, q: nat)
    requires |more| > 0 && more[|more| - 1] == range && p <= range.offset && End(range) <= q
    requires |more| <= |ranges| && ranges[..|more|] == more && EndBy(more[..|more| - 1], p)
    requires forall k {:trigger ranges[k]} :: |more| <= k < |ranges| ==> q <= ranges[k].offset
    ensures forall k {:trigger ranges[k]} :: 0 <= k < |ranges| ==> End(ranges[k]) <= p || range.offset <= ranges[k].offset
    ensures forall k {:trigger ranges[k]} :: 0 <= k < |ranges| ==> End(ranges[k]) <= End(range) || q <= ranges[k].offset
  {
    forall k | 0 <= k < |ranges|
      ensures End(ranges[k]) <= p || (k == |more| - 1 && ranges[k] == range) || q <= ranges[k].offset
    {
      if k < |more| - 1 {
        assert ranges[k] == ranges[..|more|][k] == more[..|more| - 1][k];
      } else if k == |more| - 1 {
        assert ranges[k] == ranges[..|more|][k];
      }
    }
  }

  // ---------- the whole envelope ----------

  lemma VersionsLocal(x: seq<Byte>, y: seq<Byte>)
    requires var r := ReadVersions(x); r.Got? && Agree(x, y, 0, r.pos)
    ensures ReadVersions(y) == ReadVersions(x)
  {
  }

  lemma HeaderLocal(x: seq<Byte>, y: seq<Byte>)
    requires var r := ReadHeader(x); r.Got? && Agree(x, y, 0, r.pos)
    ensures ReadHeader(y) == ReadHeader(x)
  {
    var r1 := ReadVersions(x);
    var r2 := ReadField(x, r1.pos, Var(MAX_OBJECTS + 1));
    var r3 := Strings(x, r2.pos, r2.value, 0);
    VersionsLocal(x, y);
    FieldLocal(x, y, r1.pos, Var(MAX_OBJECTS + 1));
    StringsLocal(x, y, r2.pos, r2.value, 0);
    if r1.value.1 == 3 {
      UserdataLocal(x, y, r3.pos, r2.value, 0);
    }
  }

  /** The code ranges of an accepted envelope are inside it, in order and disjoint. */
  lemma ParsedRangesOrdered(b: seq<Byte>)
    ensures var r := Parse(b); r.Parsed? ==> Ordered(r.ranges, |b|) && |r.ranges| > 0
  {
    if Parse(b).Parsed? {
      var header := ReadHeader(b);
      var protos := ReadField(b, header.pos, Var(MAX_OBJECTS + 1));
      var env := Env(header.value.version, header.value.strings, protos.value);
      ProtoReaderIsLocal(env);
      ProtosOrdered(ProtoReaderFor(env), b, protos.pos, protos.value, 0, 0, []);
    }
  }

  /** Whatever bytes are put into the code ranges, the envelope parses to the same version and the same ranges. */
  lemma ParseIgnoresCode(x: seq<Byte>, y: seq<Byte>)
    requires Parse(x).Parsed? && AgreeOutside(x, y, Parse(x).ranges)
    ensures Parse(y) == Parse(x)
  {
    var ranges := Parse(x).ranges;
    var header := ReadHeader(x);
    var protos := ReadField(x, header.pos, Var(MAX_OBJECTS + 1));
    var env := Env(header.value.version, header.value.strings, protos.value);
    var read := ProtoReaderFor(env);
    var all := ReadProtos(read, x, protos.pos, protos.value, 0, 0, []);
    ProtoReaderIsLocal(env);
    ProtosOrdered(read, x, protos.pos, protos.value, 0, 0, []);
    assert all.value == ranges;
    AgreeBetween(x, y, ranges, 0, protos.pos);
    HeaderLocal(x, y);
    FieldLocal(x, y, header.pos, Var(MAX_OBJECTS + 1));
    ProtosLocal(read, x, y, protos.pos, protos.value, 0, 0, []);
    AgreeBetween(x, y, ranges, all.pos, |x|);
    FieldLocal(x, y, all.pos, Var(protos.value));
  }

  /** Scrambling the opcodes of an accepted envelope leaves its ranges alone. */
  lemma ScrambledParses(plain: seq<Byte>, scrambled: seq<Byte>, isa: Isa, key: nat)
    requires Parse(plain).Parsed? && Ordered(Parse(plain).ranges, |plain|)
    requires Scrambles(plain, scrambled, StartsFrom(isa, plain, Parse(plain).ranges, 0), key)
    ensures Parse(scrambled) == Parse(plain)
  {
    var ranges := Parse(plain).ranges;
    forall i: nat | i < |plain| && (forall k :: 0 <= k < |ranges| ==> !Covers(ranges[k], i))
      ensures plain[i] == scrambled[i]
    {
      StartsCovered(isa, plain, ranges, 0, i);
    }
    ParseIgnoresCode(plain, scrambled);
  }

  lemma {:induction false} StartsCovered(isa: Isa, b: seq<Byte>, ranges: seq<CodeRange>, k: nat, i: nat)
    requires Ordered(ranges, |b|) && k <= |ranges|
    requires forall j :: 0 <= j < |ranges| ==> !Covers(ranges[j], i)
    ensures i !in StartsFrom(isa, b, ranges, k)
    decreases |ranges| - k
  {
    if k < |ranges| {
      assert !Covers(ranges[k], i);
      StartsCovered(isa, b, ranges, k + 1, i);
    }
  }
}
