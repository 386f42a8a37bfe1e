/** The envelope parser as it runs, and what it is for: finding and unscrambling the code. */
module EnvelopeReader {
  import opened Bytes
  import opened Opcodes
  import opened Envelope
  import opened EnvelopeFrame

  /** How far the parts of a prototype have been read. */
  datatype Parts =
    | NoParts
    | HasPrefix(prefix: Prefix, q1: nat)
    | HasCode(prefix: Prefix, q1: nat, range: CodeRange, q2: nat)
    | HasAll(prefix: Prefix, q1: nat, range: CodeRange, q2: nat, total: nat, q3: nat, end: nat)

  /** The decoders for the parts, as the format combines them. */
  datatype Decoders = Decoders(prefix: Decoder<Prefix>, constants: nat -> Decoder<nat>, tail: (Prefix, nat) -> Decoder<nat>)

  function DecodersFor(env: Env): Decoders {
    Decoders(PrefixReader(env), total => ConstantsReader(env, total), TailReader(env))
  }

  function Chained(b: seq<Byte>, p: nat, words: nat, constants: nat, d: Decoders): Read<Proto> {
    ProtoChain(b, p, words, d.prefix, d.constants(constants), d.tail)
  }

  ghost predicate PartsRead(b: seq<Byte>, p: nat, words: nat, constants: nat, d: Decoders, parts: Parts, ok: bool) {
    && (ok ==> parts.HasAll?)
    && match parts {
         case NoParts => d.prefix(b, p).Bad?
         case HasPrefix(prefix, q1) => q1 <= |b| && d.prefix(b, p) == Got(prefix, q1) && ReadCode(b, q1, words).Bad?
         case HasCode(prefix, q1, range, q2) =>
           && q1 <= |b| && d.prefix(b, p) == Got(prefix, q1) && ReadCode(b, q1, words) == Got(range, q2)
           && d.constants(constants)(b, q2).Bad?
         case HasAll(prefix, q1, range, q2, total, q3, end) =>
           && q1 <= |b| && d.prefix(b, p) == Got(prefix, q1) && ReadCode(b, q1, words) == Got(range, q2)
           && d.constants(constants)(b, q2) == Got(total, q3)
           && d.tail(prefix, range.words)(b, q3) == if ok then Got(0, end) else Bad
       }
  }

  /** `read` decodes prototypes of these bytes with these decoders. */
  ghost predicate Follows(read: ProtoReader, b: seq<Byte>, d: Decoders) {
    forall p: nat, words: nat, constants: nat {:trigger Chained(b, p, words, constants, d)} ::
      p <= |b| ==> read(b, p, words, constants) == Chained(b, p, words, constants, d)
  }

  lemma PartsMean(read: ProtoReader, b: seq<Byte>, p: nat, words: nat, constants: nat, d: Decoders, parts: Parts, ok: bool)
    requires p <= |b| && Follows(read, b, d) && PartsRead(b, p, words, constants, d, parts, ok)
    ensures read(b, p, words, constants) ==
      if ok then Got(Proto(parts.range, words + parts.range.words, parts.total), parts.end) else Bad
  {
    assert read(b, p, words, constants) == Chained(b, p, words, constants, d);
  }

  lemma FormatFollows(env: Env, b: seq<Byte>)
    ensures Follows(ProtoReaderFor(env), b, DecodersFor(env))
  {
  }

  class Reader {
    const bytes: seq<Byte>
    var pos: nat

    constructor (bytes: seq<Byte>)
      ensures this.bytes == bytes && pos == 0
    {
      this.bytes, pos := bytes, 0;
    }

    predicate Valid()
      reads this
    {
      pos <= |bytes|
    }

    method ReadULEB() returns (ok: bool, value: nat)
      requires Valid()
      modifies this`pos
      ensures Valid() && (ReadVar(bytes, old(pos), 0, 0) == if ok then Got(value, pos) else Bad)
    {
      value := 0;
      var i := 0;
      while i < 5
        invariant 0 <= i <= 5 && Valid() && ReadVar(bytes, pos, i, value) == ReadVar(bytes, old(pos), 0, 0)
      {
        if pos >= |bytes| {
          return false, value;
        }
        var byte := bytes[pos];
        pos := pos + 1;
        if i == 4 && byte / 16 != 0 {
          return false, value;
        }
        value := value + Shifted(byte % 128, i);
        if byte < 128 {
          return true, value;
        }
        i := i + 1;
      }
      ok := false;
    }

    method ReadULEB64() returns (ok: bool)
      requires Valid()
      modifies this`pos
      ensures Valid() && (ReadVar64(bytes, old(pos), 0) == if ok then Got(0, pos) else Bad)
    {
      var i := 0;
      while i < 10
        invariant 0 <= i <= 10 && Valid() && ReadVar64(bytes, pos, i) == ReadVar64(bytes, old(pos), 0)
      {
        if pos >= |bytes| {
          return false;
        }
        var byte := bytes[pos];
        pos := pos + 1;
        if i == 9 && byte / 2 != 0 {
          return false;
        }
        if byte < 128 {
          return true;
        }
        i := i + 1;
      }
      ok := false;
    }

    /** One field with its check. */
    method Field(f: Field) returns (ok: bool, value: nat)
      requires Valid()
      modifies this`pos
      ensures Valid() && (ReadField(bytes, old(pos), f) == if ok then Got(value, pos) else Bad)
    {
      value := 0;
      match f {
        case U8(limit) =>
          ok := pos < |bytes| && bytes[pos] < limit;
          if ok {
            value := bytes[pos];
            pos := pos + 1;
          }
        case U32Index(limit) =>
          ok := pos + 4 <= |bytes| && (Word(bytes, pos) >= 0x8000_0000 || Word(bytes, pos) < limit);
          if ok {
            value := Word(bytes, pos);
            pos := pos + 4;
          }
        case Var(limit) =>
          ok, value := ReadULEB();
          ok := ok && value < limit;
        case Var64 =>
          ok := ReadULEB64();
        case Skip(count) =>
          ok := count <= |bytes| - pos;
          if ok {
            pos := pos + count;
          }
      }
    }

    method Fields(fs: seq<Field>) returns (ok: bool, values: seq<nat>)
      requires Valid()
      modifies this`pos
      ensures Valid() && (ReadFields(bytes, old(pos), fs, 0, []) == if ok then Got(values, pos) else Bad)
    {
      values := [];
      var k := 0;
      while k < |fs|
        invariant 0 <= k <= |fs| && |values| == k && Valid()
        invariant ReadFields(bytes, pos, fs, k, values) == ReadFields(bytes, old(pos), fs, 0, [])
      {
        var value;
        ok, value := Field(fs[k]);
        if !ok {
          return;
        }
        values := values + [value];
        k := k + 1;
      }
      ok := true;
    }

    method Times(n: nat, fs: seq<Field>) returns (ok: bool)
      requires Valid()
      modifies this`pos
      ensures Valid() && (Repeat(bytes, old(pos), n, fs) == if ok then Got(0, pos) else Bad)
    {
      var i := 0;
      while i < n
        invariant 0 <= i <= n && Valid() && Repeat(bytes, pos, n - i, fs) == Repeat(bytes, old(pos), n, fs)
      {
        var values;
        ok, values := Fields(fs);
        if !ok {
          return;
        }
        i := i + 1;
      }
      ok := true;
    }

    method CountedTimes(fs: seq<Field>) returns (ok: bool)
      requires Valid()
      modifies this`pos
      ensures Valid() && (Counted(bytes, old(pos), fs) == if ok then Got(0, pos) else Bad)
    {
      var n;
      ok, n := Field(Var(MAX_OBJECTS + 1));
      if ok {
        ok := Times(n, fs);
      }
    }

    method StringTable(n: nat) returns (ok: bool)
      requires Valid()
      modifies this`pos
      ensures Valid() && (Strings(bytes, old(pos), n, 0) == if ok then Got(0, pos) else Bad)
    {
      var i, total: nat := 0, 0;
      while i < n
        invariant 0 <= i <= n && Valid() && Strings(bytes, pos, n - i, total) == Strings(bytes, old(pos), n, 0)
      {
        var length;
        ok, length := Field(Var(WORD_LIMIT));
        if !ok {
          return;
        }
        total := total + length;
        if total > MAX_INPUT_BYTES || length > |bytes| - pos {
          return false;
        }
        pos := pos + length;
        i := i + 1;
      }
      ok := true;
    }

    method UserdataTypes(strings: nat) returns (ok: bool)
      requires Valid()
      modifies this`pos
      ensures Valid() && (Userdata(bytes, old(pos), strings, 0) == if ok then Got(0, pos) else Bad)
    {
      var entries := 0;
      while true
        invariant Valid() && Userdata(bytes, pos, strings, entries) == Userdata(bytes, old(pos), strings, 0)
        decreases |bytes| - pos
      {
        if pos >= |bytes| {
          return false;
        }
        var index := bytes[pos];
        pos := pos + 1;
        if index == 0 {
          return true;
        }
        entries := entries + 1;
        if entries > 255 {
          return false;
        }
        var id;
        ok, id := Field(Var(strings + 1));
        if !ok {
          return;
        }
      }
    }

    method ConstantBody(shape: Shape, constants: nat) returns (ok: bool)
      requires Valid()
      modifies this`pos
      ensures Valid() && (ReadShape(bytes, old(pos), shape, constants) == if ok then Got(0, pos) else Bad)
    {
      var v;
      match shape {
        case NoShape =>
          ok := false;
        case Plain(fields) =>
          ok, v := Fields(fields);
        case Table(item) =>
          ok := CountedTimes(item);
        case ClassShape =>
          ok, v := Fields([Var(constants), Var(WORD_LIMIT), Var(WORD_LIMIT)]);
          if !ok || v[1] + v[2] > MAX_OBJECTS {
            return false;
          }
          ok := Times(v[1] + v[2], [Var(constants)]);
      }
    }

    method ConstantTable(env: Env, n: nat) returns (ok: bool)
      requires Valid()
      modifies this`pos
      ensures Valid() && (ConstantList(bytes, old(pos), n, env, n) == if ok then Got(0, pos) else Bad)
    {
      var i := 0;
      while i < n
        invariant 0 <= i <= n && Valid() && ConstantList(bytes, pos, n - i, env, n) == ConstantList(bytes, old(pos), n, env, n)
      {
        if pos >= |bytes| {
          return false;
        }
        var kind := bytes[pos];
        pos := pos + 1;
        ok := ConstantBody(ShapeOf(kind, env, n), n);
        if !ok {
          return;
        }
        i := i + 1;
      }
      ok := true;
    }

    method AllConstants(env: Env, total: nat) returns (ok: bool, total': nat)
      requires Valid()
      modifies this`pos
      ensures Valid() && (Constants(bytes, old(pos), env, total) == if ok then Got(total', pos) else Bad)
    {
      var n;
      ok, n := Field(Var(MAX_OBJECTS + 1));
      total' := total + n;
      if !ok || total' > MAX_OBJECTS {
        return false, total';
      }
      ok := ConstantTable(env, n);
    }

    method ProtoPrefix(env: Env) returns (ok: bool, prefix: Prefix)
      requires Valid()
      modifies this`pos
      ensures Valid() && (ReadPrefix(bytes, old(pos), env) == if ok then Got(prefix, pos) else Bad)
    {
      prefix := Prefix(|bytes|, 0, 0);
      var end := |bytes|;
      if env.version >= 12 {
        var size;
        ok, size := Field(Var(WORD_LIMIT));
        if !ok || size == 0 || size > |bytes| - pos {
          return false, prefix;
        }
        end := pos + size;
      }
      var v;
      ok, v := Fields([U8(256), U8(256), U8(201), U8(2)]);
      if !ok || v[1] > v[0] {
        return false, prefix;
      }
      ok, prefix := ProtoFlags(env, end, v[0]);
    }

    method ProtoFlags(env: Env, end: nat, maxStack: nat) returns (ok: bool, prefix: Prefix)
      requires Valid()
      modifies this`pos
      ensures Valid() && (ReadFlags(bytes, old(pos), env, end, maxStack) == if ok then Got(prefix, pos) else Bad)
    {
      prefix := Prefix(end, maxStack, 0);
      if env.version < 4 {
        return true, prefix;
      }
      var v;
      ok, v := Fields([U8(256), Var(WORD_LIMIT)]);
      if !ok || v[1] > |bytes| - pos {
        return false, prefix;
      }
      prefix := Prefix(end, maxStack, v[0]);
      pos := pos + v[1];
    }

    method Code(total: nat) returns (ok: bool, range: CodeRange)
      requires Valid()
      modifies this`pos
      ensures Valid() && (ReadCode(bytes, old(pos), total) == if ok then Got(range, pos) else Bad)
    {
      var words;
      ok, words := Field(Var(MAX_OBJECTS + 1));
      range := CodeRange(pos, words);
      if !ok || total + words > MAX_OBJECTS || 4 * words > |bytes| - pos {
        return false, range;
      }
      pos := pos + 4 * words;
    }

    method Lines(words: nat) returns (ok: bool)
      requires Valid()
      modifies this`pos
      ensures Valid() && (ReadLines(bytes, old(pos), words) == if ok then Got(0, pos) else Bad)
    {
      var present, gap, skipped;
      ok, present := Field(U8(2));
      if !ok || present == 0 {
        return;
      }
      ok, gap := Field(U8(32));
      if ok {
        ok, skipped := Field(Skip(words + 4 * Intervals(words, gap)));
      }
    }

    method Debug(env: Env, maxStack: nat) returns (ok: bool)
      requires Valid()
      modifies this`pos
      ensures Valid() && (ReadDebug(bytes, old(pos), env, maxStack) == if ok then Got(0, pos) else Bad)
    {
      var present;
      ok, present := Field(U8(2));
      if !ok || present == 0 {
        return;
      }
      ok := CountedTimes([Var(env.strings + 1), Var(WORD_LIMIT), Var(WORD_LIMIT), U8(maxStack)]);
      if ok {
        ok := CountedTimes([Var(env.strings + 1)]);
      }
    }

    method ProtoEnd(env: Env, prefix: Prefix) returns (ok: bool)
      requires Valid()
      modifies this`pos
      ensures Valid() && (ReadEnd(bytes, old(pos), env, prefix) == if ok then Got(0, pos) else Bad)
    {
      ok := true;
      if env.version >= 11 {
        ok := CountedTimes([U8(1), Var(WORD_LIMIT)]);
      }
      if !ok || env.version < 12 {
        return;
      }
      if prefix.flags / INLINABLE_BIT % 2 == 1 {
        var cost;
        ok, cost := Field(Var64);
      }
      if !ok || pos > prefix.end || prefix.end > |bytes| {
        return false;
      }
      pos := prefix.end;
    }

    method ProtoTail(env: Env, prefix: Prefix, words: nat) returns (ok: bool)
      requires Valid()
      modifies this`pos
      ensures Valid() && (ReadTail(bytes, old(pos), env, prefix, words) == if ok then Got(0, pos) else Bad)
    {
      ok := CountedTimes([Var(env.protos)]);
      if !ok {
        return;
      }
      var names;
      ok, names := Fields([Var(WORD_LIMIT), Var(env.strings + 1)]);
      if !ok {
        return;
      }
      ok := Lines(words);
      if !ok {
        return;
      }
      ok := Debug(env, prefix.maxStack);
      if !ok {
        return;
      }
      ok := ProtoEnd(env, prefix);
    }

    /** The parts of a prototype, in order; `q1` to `q3` are the places between them. */
    method ProtoParts(env: Env, words: nat, constants: nat)
      returns (ok: bool, proto: Proto, ghost parts: Parts)
      requires Valid()
      modifies this`pos
      ensures Valid() && PartsRead(bytes, old(pos), words, constants, DecodersFor(env), parts, ok)
      ensures ok ==> proto == Proto(parts.range, words + parts.range.words, parts.total) && pos == parts.end
    {
      proto, parts := Proto(CodeRange(0, 0), 0, 0), NoParts;
      var prefix, range, total;
      ok, prefix := ProtoPrefix(env);
      if !ok {
        return;
      }
      ghost var q1 := pos;
      parts := HasPrefix(prefix, q1);
      ok, range := Code(words);
      if !ok {
        return;
      }
      ghost var q2 := pos;
      parts := HasCode(prefix, q1, range, q2);
      ok, total := AllConstants(env, constants);
      if !ok {
        return;
      }
      ghost var q3 := pos;
      ok := ProtoTail(env, prefix, range.words);
      parts := HasAll(prefix, q1, range, q2, total, q3, pos);
      proto := Proto(range, words + range.words, total);
    }

    method OneProto(env: Env, words: nat, constants: nat, ghost read: ProtoReader) returns (ok: bool, proto: Proto)
      requires Valid() && Follows(read, bytes, DecodersFor(env))
      modifies this`pos
      ensures Valid() && (read(bytes, old(pos), words, constants) == if ok then Got(proto, pos) else Bad)
    {
      ghost var parts;
      ok, proto, parts := ProtoParts(env, words, constants);
      PartsMean(read, bytes, old(pos), words, constants, DecodersFor(env), parts, ok);
    }

    method AllProtos(env: Env, n: nat, ghost read: ProtoReader) returns (ok: bool, code: seq<CodeRange>)
      requires Valid() && Follows(read, bytes, DecodersFor(env))
      modifies this`pos
      ensures Valid()
      ensures ReadProtos(read, bytes, old(pos), n, 0, 0, []) == if ok then Got(code, pos) else Bad
    {
      code := [];
      var i, words, constants := 0, 0, 0;
      while i < n
        invariant 0 <= i <= n && Valid()
        invariant ReadProtos(read, bytes, pos, n - i, words, constants, code) == ReadProtos(read, bytes, old(pos), n, 0, 0, [])
      {
        var proto;
        ok, proto := OneProto(env, words, constants, read);
        if !ok {
          return;
        }
        code, words, constants := code + [proto.range], proto.words, proto.constants;
        i := i + 1;
      }
      ok := true;
    }

    method Head() returns (ok: bool, header: Header)
      requires pos == 0
      modifies this`pos
      ensures Valid() && (ReadHeader(bytes) == if ok then Got(header, pos) else Bad)
    {
      header := Header(0, 0);
      if |bytes| == 0 || bytes[0] < VERSION_MIN || bytes[0] > VERSION_MAX {
        return false, header;
      }
      var version, typeVersion: nat := bytes[0], 0;
      pos := 1;
      if version >= 4 {
        if |bytes| < 2 || bytes[1] < TYPE_VERSION_MIN || bytes[1] > TYPE_VERSION_MAX {
          return false, header;
        }
        typeVersion := bytes[1];
        pos := 2;
      }
      var strings;
      ok, strings := Field(Var(MAX_OBJECTS + 1));
      if ok {
        ok := StringTable(strings);
      }
      if ok && typeVersion == 3 {
        ok := UserdataTypes(strings);
      }
      header := Header(version, strings);
    }
  }

  /** The stray five bytes some dumps carry in front. */
  const PREFIX: seq<Byte> := [27, 76, 117, 97, 117]

  function Stripped(input: seq<Byte>): seq<Byte> {
    if |input| >= 5 && input[..5] == PREFIX then input[5..] else input
  }

  method ParseEnvelope(input: seq<Byte>) returns (parsed: Parsed)
    ensures parsed == Parse(Stripped(input))
    ensures parsed.Parsed? ==> Ordered(parsed.ranges, |Stripped(input)|)
  {
    var b := Stripped(input);
    ParsedRangesOrdered(b);
    if |b| == 0 || |b| > MAX_INPUT_BYTES {
      return Refused;
    }
    var reader := new Reader(b);
    var ok, header := reader.Head();
    if !ok {
      return Refused;
    }
    var protos, code, main;
    ok, protos := reader.Field(Var(MAX_OBJECTS + 1));
    if !ok || protos == 0 {
      return Refused;
    }
    var env := Env(header.version, header.strings, protos);
    FormatFollows(env, b);
    ok, code := reader.AllProtos(env, protos, ProtoReaderFor(env));
    if !ok {
      return Refused;
    }
    ok, main := reader.Field(Var(protos));
    if !ok || (|b| - reader.pos != 0 && |b| - reader.pos != 24) {
      return Refused;
    }
    parsed := Parsed(header.version, code);
  }

  /** A plain chunk that parses and decodes, with its opcode bytes scrambled, parses alike and is restored exactly. */
  lemma ScrambledChunkIsRestored(isa: Isa, plain: seq<Byte>, scrambled: seq<Byte>)
    requires Parse(plain).Parsed? && Ordered(Parse(plain).ranges, |plain|)
    requires DecodesFrom(isa, plain, Parse(plain).ranges, 0)
    requires Scrambles(plain, scrambled, StartsFrom(isa, plain, Parse(plain).ranges, 0), SCRAMBLE_KEY)
    ensures Parse(scrambled) == Parse(plain)
    ensures TransformAll(isa, scrambled, Parse(scrambled).ranges, 0, ROBLOX_MULTIPLIER) == Ok(plain)
  {
    ScrambledParses(plain, scrambled, isa, SCRAMBLE_KEY);
    RobloxKeys();
    TransformRestoresIff(isa, scrambled, plain, Parse(plain).ranges, SCRAMBLE_KEY, ROBLOX_MULTIPLIER);
  }

  /** Every chunk the readings contain is the input's own envelope, with code that decodes. */
  method VariantsOf(isa: Isa, input: seq<Byte>) returns (ok: bool, variants: seq<seq<Byte>>)
    ensures ok ==> Parse(Stripped(input)).Parsed? && Ordered(Parse(Stripped(input)).ranges, |Stripped(input)|) && variants != []
    ensures ok ==> forall v :: v in variants ==>
      |v| == |Stripped(input)| && DecodesFrom(isa, v, Parse(Stripped(input)).ranges, 0) && Parse(v) == Parse(Stripped(input))
    ensures forall plain: seq<Byte> ::
      RestoredFrom(isa, plain, Stripped(input)) ==> ok && plain in variants
  {
    var parsed := ParseEnvelope(input);
    var b := Stripped(input);
    variants := [];
    if parsed.Parsed? {
      variants := OpcodeVariants(isa, b, parsed.ranges);
    }
    ok := variants != [];
    forall v | v in variants
      ensures Parse(v) == Parse(b)
    {
      VariantParses(isa, b, v);
    }
    forall plain | RestoredFrom(isa, plain, b)
      ensures parsed.Parsed? && plain in variants
    {
      ScrambledChunkIsRestored(isa, plain, b);
    }
  }

  /** `scrambled` is a chunk that parses and decodes, with its opcode bytes multiplied by the key. */
  ghost predicate RestoredFrom(isa: Isa, plain: seq<Byte>, scrambled: seq<Byte>) {
    && Parse(plain).Parsed? && Ordered(Parse(plain).ranges, |plain|)
    && DecodesFrom(isa, plain, Parse(plain).ranges, 0)
    && Scrambles(plain, scrambled, StartsFrom(isa, plain, Parse(plain).ranges, 0), SCRAMBLE_KEY)
  }

  lemma VariantParses(isa: Isa, b: seq<Byte>, v: seq<Byte>)
    requires Parse(b).Parsed? && Ordered(Parse(b).ranges, |b|) && |v| == |b|
    requires v == b || Scrambles(v, b, StartsFrom(isa, v, Parse(b).ranges, 0), SCRAMBLE_KEY)
    ensures Parse(v) == Parse(b)
  {
    if v != b {
      var ranges := Parse(b).ranges;
      forall i: nat | i < |b| && (forall k :: 0 <= k < |ranges| ==> !Covers(ranges[k], i))
        ensures b[i] == v[i]
      {
        StartsCovered(isa, v, ranges, 0, i);
      }
      ParseIgnoresCode(b, v);
    }
  }
}
