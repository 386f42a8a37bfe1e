/** The Luau bytecode envelope: where it says the code is, and that the code bytes themselves have no say in it. */
module Envelope {
  import opened Bytes
  import opened Opcodes

  const MAX_INPUT_BYTES := 256 * 1024 * 1024
  const MAX_OBJECTS := 2_000_000
  const VERSION_MIN := 3
  const VERSION_MAX := 14
  const TYPE_VERSION_MIN := 1
  const TYPE_VERSION_MAX := 3
  const WORD_LIMIT := 0x1_0000_0000
  const INLINABLE_BIT := 8

  datatype Read<T> = Bad | Got(value: T, pos: nat)

  // ---------- fields ----------

  /** A field and what is asked of its value; `limit` is the first value refused. */
  datatype Field =
    | U8(limit: nat)
    | U32Index(limit: nat)      // signed; negative values stand for "none"
    | Var(limit: nat)           // ULEB128 of at most 32 bits
    | Var64
    | Skip(count: nat)

  /** A group of seven bits at its place. */
  function Shifted(low: nat, i: nat): nat {
    if i == 0 then low else if i == 1 then 0x80 * low else if i == 2 then 0x4000 * low else if i == 3 then 0x20_0000 * low
    else 0x1000_0000 * low
  }

  function ReadVar(b: seq<Byte>, p: nat, i: nat, value: nat): (r: Read<nat>)
    ensures r.Got? ==> p < r.pos <= |b|
    decreases |b| - p
  {
    if i >= 5 || p >= |b| || (i == 4 && b[p] >= 16) then Bad
    else
      var value' := value + Shifted(b[p] % 128, i);
      if b[p] < 128 then Got(value', p + 1) else ReadVar(b, p + 1, i + 1, value')
  }

  function ReadVar64(b: seq<Byte>, p: nat, i: nat): (r: Read<nat>)
    ensures r.Got? ==> p < r.pos <= |b|
    decreases |b| - p
  {
    if i >= 10 || p >= |b| || (i == 9 && b[p] >= 2) then Bad
    else if b[p] < 128 then Got(0, p + 1)
    else ReadVar64(b, p + 1, i + 1)
  }

  function Word(b: seq<Byte>, p: nat): nat
    requires p + 4 <= |b|
  {
    var b0: nat, b1: nat, b2: nat, b3: nat := b[p], b[p + 1], b[p + 2], b[p + 3];
    b0 + 0x100 * b1 + 0x1_0000 * b2 + 0x100_0000 * b3
  }

  function ReadField(b: seq<Byte>, p: nat, f: Field): (r: Read<nat>)
    requires p <= |b|
    ensures r.Got? ==> p <= r.pos <= |b|
  {
    match f {
      case U8(limit) => if p < |b| && b[p] < limit then Got(b[p], p + 1) else Bad
      case U32Index(limit) =>
        if p + 4 <= |b| && (Word(b, p) >= 0x8000_0000 || Word(b, p) < limit) then Got(Word(b, p), p + 4) else Bad
      case Var(limit) =>
        var r := ReadVar(b, p, 0, 0);
        if r.Got? && r.value < limit then r else Bad
      case Var64 => ReadVar64(b, p, 0)
      case Skip(count) => if count <= |b| - p then Got(0, p + count) else Bad
    }
  }

  /** The fields from `k` on, behind the values read before. */
  function ReadFields(b: seq<Byte>, p: nat, fs: seq<Field>, k: nat, before: seq<nat>): (r: Read<seq<nat>>)
    requires p <= |b| && k <= |fs| && |before| == k
    ensures r.Got? ==> p <= r.pos <= |b| && |r.value| == |fs|
    decreases |b|, |fs| - k
  {
    if k == |fs| then Got(before, p)
    else
      match ReadField(b, p, fs[k]) {
        case Bad => Bad
        case Got(v, q) => ReadFields(b, q, fs, k + 1, before + [v])
      }
  }

  /** The same fields `n` times over. */
  function Repeat(b: seq<Byte>, p: nat, n: nat, fs: seq<Field>): (r: Read<nat>)
    requires p <= |b|
    ensures r.Got? ==> p <= r.pos <= |b|
    decreases n
  {
    if n == 0 then Got(0, p)
    else
      match ReadFields(b, p, fs, 0, []) {
        case Bad => Bad
        case Got(_, q) => Repeat(b, q, n - 1, fs)
      }
  }

  /** A count, and that many groups of fields. */
  function Counted(b: seq<Byte>, p: nat, fs: seq<Field>): (r: Read<nat>)
    requires p <= |b|
    ensures r.Got? ==> p <= r.pos <= |b|
  {
    match ReadField(b, p, Var(MAX_OBJECTS + 1)) {
      case Bad => Bad
      case Got(n, q) => Repeat(b, q, n, fs)
    }
  }

  // ---------- tables before the prototypes ----------

  function Strings(b: seq<Byte>, p: nat, n: nat, total: nat): (r: Read<nat>)
    requires p <= |b|
    ensures r.Got? ==> p <= r.pos <= |b|
    decreases n
  {
    if n == 0 then Got(0, p)
    else
      match ReadField(b, p, Var(WORD_LIMIT)) {
        case Bad => Bad
        case Got(length, q) =>
          if total + length > MAX_INPUT_BYTES || length > |b| - q then Bad
          else Strings(b, q + length, n - 1, total + length)
      }
  }

  /** Userdata type names, up to a zero index. */
  function Userdata(b: seq<Byte>, p: nat, strings: nat, entries: nat): (r: Read<nat>)
    requires p <= |b|
    ensures r.Got? ==> p <= r.pos <= |b|
    decreases |b| - p
  {
    if p >= |b| then Bad
    else if b[p] == 0 then Got(0, p + 1)
    else if entries + 1 > 255 then Bad
    else
      match ReadField(b, p + 1, Var(strings + 1)) {
        case Bad => Bad
        case Got(_, q) => Userdata(b, q, strings, entries + 1)
      }
  }

  // ---------- one prototype ----------

  datatype Env = Env(version: nat, strings: nat, protos: nat)

  /** What a constant's kind byte is followed by: plain fields, or a count and repeated fields; `None` refuses it. */
  datatype Shape = NoShape | Plain(fields: seq<Field>) | Table(item: seq<Field>) | ClassShape

  function ShapeOf(kind: Byte, env: Env, constants: nat): Shape {
    match kind {
      case 0 => Plain([])
      case 1 => Plain([Skip(1)])
      case 2 => Plain([Skip(8)])
      case 3 => Plain([Var(env.strings + 1)])
      case 4 => Plain([Skip(4)])
      case 5 => Table([Var(constants)])
      case 6 => Plain([Var(env.protos)])
      case 7 => if env.version < 5 then NoShape else Plain([Skip(16)])
      case 8 => if env.version < 7 then NoShape else Table([Var(constants), U32Index(constants)])
      case 9 => if env.version < 8 then NoShape else Plain([Skip(1), Var64])
      case 10 => if env.version < 10 then NoShape else ClassShape
      case 11 => if env.version < 13 then NoShape else Plain([Skip(32)])
      case _ => NoShape
    }
  }

  function ReadShape(b: seq<Byte>, p: nat, shape: Shape, constants: nat): (r: Read<nat>)
    requires p <= |b|
    ensures r.Got? ==> p <= r.pos <= |b|
  {
    match shape {
      case NoShape => Bad
      case Plain(fields) =>
        (match ReadFields(b, p, fields, 0, []) {
           case Bad => Bad
           case Got(_, q) => Got(0, q)
         })
      case Table(item) => Counted(b, p, item)
      case ClassShape =>
        match ReadFields(b, p, [Var(constants), Var(WORD_LIMIT), Var(WORD_LIMIT)], 0, []) {
          case Bad => Bad
          case Got(v, q) => if v[1] + v[2] > MAX_OBJECTS then Bad else Repeat(b, q, v[1] + v[2], [Var(constants)])
        }
    }
  }

  function ConstantList(b: seq<Byte>, p: nat, n: nat, env: Env, constants: nat): (r: Read<nat>)
    requires p <= |b|
    ensures r.Got? ==> p <= r.pos <= |b|
    decreases n
  {
    if n == 0 then Got(0, p)
    else if p >= |b| then Bad
    else
      match ReadShape(b, p + 1, ShapeOf(b[p], env, constants), constants) {
        case Bad => Bad
        case Got(_, q) => ConstantList(b, q, n - 1, env, constants)
      }
  }

  /** A decoder as a value; it refuses positions behind the end. */
  type Decoder<!T> = (seq<Byte>, nat) -> Read<T>

  /** A count, as many constants, and the running total with them; `list` reads the given number of constants. */
  function CountThen(b: seq<Byte>, p: nat, total: nat, list: nat -> Decoder<nat>): Read<nat>
    requires p <= |b|
  {
    match ReadField(b, p, Var(MAX_OBJECTS + 1)) {
      case Bad => Bad
      case Got(n, q) =>
        if total + n > MAX_OBJECTS then Bad
        else
          match list(n)(b, q) {
            case Bad => Bad
            case Got(_, q') => Got(total + n, q')
          }
    }
  }

  function ListReader(env: Env): nat -> Decoder<nat> {
    n => (b: seq<Byte>, p: nat) => if p <= |b| then ConstantList(b, p, n, env, n) else Bad
  }

  function Constants(b: seq<Byte>, p: nat, env: Env, total: nat): (r: Read<nat>)
    requires p <= |b|
    ensures r.Got? ==> p <= r.pos <= |b|
  {
    CountThen(b, p, total, ListReader(env))
  }

  datatype Prefix = Prefix(end: nat, maxStack: nat, flags: nat)

  /** Everything in front of the code: the declared size, the register counts, the flags and the type info. */
  function ReadPrefix(b: seq<Byte>, p: nat, env: Env): (r: Read<Prefix>)
    requires p <= |b|
    ensures r.Got? ==> p <= r.pos <= |b|
  {
    match if env.version >= 12 then ReadField(b, p, Var(WORD_LIMIT)) else Got(0, p) {
      case Bad => Bad
      case Got(size, q) =>
        if env.version >= 12 && (size == 0 || size > |b| - q) then Bad
        else
          match ReadFields(b, q, [U8(256), U8(256), U8(201), U8(2)], 0, []) {
            case Bad => Bad
            case Got(v, q1) =>
              if v[1] > v[0] then Bad
              else ReadFlags(b, q1, env, if env.version >= 12 then q + size else |b|, v[0])
          }
    }
  }

  function ReadFlags(b: seq<Byte>, p: nat, env: Env, end: nat, maxStack: nat): (r: Read<Prefix>)
    requires p <= |b|
    ensures r.Got? ==> p <= r.pos <= |b|
  {
    if env.version < 4 then Got(Prefix(end, maxStack, 0), p)
    else
      match ReadFields(b, p, [U8(256), Var(WORD_LIMIT)], 0, []) {
        case Bad => Bad
        case Got(v, q) => if v[1] <= |b| - q then Got(Prefix(end, maxStack, v[0]), q + v[1]) else Bad
      }
  }

  /** The code: its word count, the running total with it, and the words, which are skipped unread. */
  function ReadCode(b: seq<Byte>, p: nat, total: nat): (r: Read<CodeRange>)
    requires p <= |b|
    ensures r.Got? ==> p <= r.value.offset && r.value.offset + 4 * r.value.words == r.pos <= |b|
  {
    match ReadField(b, p, Var(MAX_OBJECTS + 1)) {
      case Bad => Bad
      case Got(words, q) =>
        if total + words > MAX_OBJECTS || 4 * words > |b| - q then Bad else Got(CodeRange(q, words), q + 4 * words)
    }
  }

  function HalvedBy(x: nat, bits: nat): nat
    decreases bits
  {
    if bits == 0 then x else HalvedBy(x / 2, bits - 1)
  }

  /** Line intervals: one for every `2^gap` words begun. */
  function Intervals(words: nat, gap: nat): nat {
    if words == 0 then 0 else HalvedBy(words - 1, gap) + 1
  }

  function ReadLines(b: seq<Byte>, p: nat, words: nat): (r: Read<nat>)
    requires p <= |b|
    ensures r.Got? ==> p <= r.pos <= |b|
  {
    match ReadField(b, p, U8(2)) {
      case Bad => Bad
      case Got(present, q) =>
        if present == 0 then Got(0, q)
        else
          match ReadField(b, q, U8(32)) {
            case Bad => Bad
            case Got(gap, q1) => ReadField(b, q1, Skip(words + 4 * Intervals(words, gap)))
          }
    }
  }

  function ReadDebug(b: seq<Byte>, p: nat, env: Env, maxStack: nat): (r: Read<nat>)
    requires p <= |b|
    ensures r.Got? ==> p <= r.pos <= |b|
  {
    match ReadField(b, p, U8(2)) {
      case Bad => Bad
      case Got(present, q) =>
        if present == 0 then Got(0, q)
        else
          match Counted(b, q, [Var(env.strings + 1), Var(WORD_LIMIT), Var(WORD_LIMIT), U8(maxStack)]) {
            case Bad => Bad
            case Got(_, q1) => Counted(b, q1, [Var(env.strings + 1)])
          }
    }
  }

  /** Feedback slots and the end of a sized prototype. */
  function ReadEnd(b: seq<Byte>, p: nat, env: Env, prefix: Prefix): (r: Read<nat>)
    requires p <= |b|
    ensures r.Got? ==> p <= r.pos <= |b|
  {
    match if env.version >= 11 then Counted(b, p, [U8(1), Var(WORD_LIMIT)]) else Got(0, p) {
      case Bad => Bad
      case Got(_, q) =>
        if env.version < 12 then Got(0, q)
        else
          match if prefix.flags / INLINABLE_BIT % 2 == 1 then ReadField(b, q, Var64) else Got(0, q) {
            case Bad => Bad
            case Got(_, q1) => if q1 <= prefix.end <= |b| then Got(0, prefix.end) else Bad
          }
    }
  }

  /** Lines, debug info and the end. */
  function ReadInfo(b: seq<Byte>, p: nat, env: Env, prefix: Prefix, words: nat): (r: Read<nat>)
    requires p <= |b|
    ensures r.Got? ==> p <= r.pos <= |b|
  {
    match ReadLines(b, p, words) {
      case Bad => Bad
      case Got(_, q1) =>
        match ReadDebug(b, q1, env, prefix.maxStack) {
          case Bad => Bad
          case Got(_, q2) => ReadEnd(b, q2, env, prefix)
        }
    }
  }

  /** The line and the name a function is declared with, and its info. */
  function ReadNamed(b: seq<Byte>, p: nat, env: Env, prefix: Prefix, words: nat): (r: Read<nat>)
    requires p <= |b|
    ensures r.Got? ==> p <= r.pos <= |b|
  {
    match ReadFields(b, p, [Var(WORD_LIMIT), Var(env.strings + 1)], 0, []) {
      case Bad => Bad
      case Got(_, q) => ReadInfo(b, q, env, prefix, words)
    }
  }

  /** Everything behind the constants: children, names, lines, debug info and the end. */
  function ReadTail(b: seq<Byte>, p: nat, env: Env, prefix: Prefix, words: nat): (r: Read<nat>)
    requires p <= |b|
    ensures r.Got? ==> p <= r.pos <= |b|
  {
    match Counted(b, p, [Var(env.protos)]) {
      case Bad => Bad
      case Got(_, q) => ReadNamed(b, q, env, prefix, words)
    }
  }

  /** A prototype's code range and the totals with it. */
  datatype Proto = Proto(range: CodeRange, words: nat, constants: nat)

  /** A prototype from readers for its parts. */
  function ProtoChain(b: seq<Byte>, p: nat, words: nat, prefixReader: Decoder<Prefix>, constantsReader: Decoder<nat>,
                      tailReader: (Prefix, nat) -> Decoder<nat>): Read<Proto>
  {
    match prefixReader(b, p) {
      case Bad => Bad
      case Got(prefix, q1) =>
        if q1 > |b| then Bad
        else
          match ReadCode(b, q1, words) {
            case Bad => Bad
            case Got(range, q2) =>
              match constantsReader(b, q2) {
                case Bad => Bad
                case Got(total, q3) =>
                  match tailReader(prefix, range.words)(b, q3) {
                    case Bad => Bad
                    case Got(_, q4) => Got(Proto(range, words + range.words, total), q4)
                  }
              }
          }
    }
  }

  function PrefixReader(env: Env): Decoder<Prefix> {
    (b: seq<Byte>, p: nat) => if p <= |b| then ReadPrefix(b, p, env) else Bad
  }

  function ConstantsReader(env: Env, total: nat): Decoder<nat> {
    (b: seq<Byte>, p: nat) => if p <= |b| then Constants(b, p, env, total) else Bad
  }

  function TailReader(env: Env): (Prefix, nat) -> Decoder<nat> {
    (prefix, words) => (b: seq<Byte>, p: nat) => if p <= |b| then ReadTail(b, p, env, prefix, words) else Bad
  }

  function ReadProto(b: seq<Byte>, p: nat, env: Env, words: nat, constants: nat): (r: Read<Proto>)
    requires p <= |b|
    ensures r.Got? ==> p <= r.value.range.offset && r.value.range.offset + 4 * r.value.range.words <= r.pos <= |b|
  {
    ProtoChain(b, p, words, PrefixReader(env), ConstantsReader(env, constants), TailReader(env))
  }

  /** Reads a prototype; the last two arguments are the totals of code words and constants so far. */
  type ProtoReader = (seq<Byte>, nat, nat, nat) -> Read<Proto>

  function ProtoReaderFor(env: Env): ProtoReader {
    (b: seq<Byte>, p: nat, words: nat, constants: nat) => if p <= |b| then ReadProto(b, p, env, words, constants) else Bad
  }

  /** `n` more prototypes, behind those whose ranges are `before`. */
  function ReadProtos(read: ProtoReader, b: seq<Byte>, p: nat, n: nat, words: nat, constants: nat, before: seq<CodeRange>)
    : (r: Read<seq<CodeRange>>)
    requires p <= |b|
    ensures r.Got? ==> r.pos <= |b|
    decreases n
  {
    if n == 0 then Got(before, p)
    else
      match read(b, p, words, constants) {
        case Bad => Bad
        case Got(proto, q) =>
          if q > |b| then Bad else ReadProtos(read, b, q, n - 1, proto.words, proto.constants, before + [proto.range])
      }
  }

  // ---------- the whole envelope ----------

  datatype Header = Header(version: nat, strings: nat)

  function ReadVersions(b: seq<Byte>): (r: Read<(nat, nat)>)
    ensures r.Got? ==> r.pos <= |b|
  {
    if |b| == 0 || b[0] < VERSION_MIN || b[0] > VERSION_MAX then Bad
    else if b[0] < 4 then Got((b[0], 0), 1)
    else if |b| < 2 || b[1] < TYPE_VERSION_MIN || b[1] > TYPE_VERSION_MAX then Bad
    else Got((b[0], b[1]), 2)
  }

  function ReadHeader(b: seq<Byte>): (r: Read<Header>)
    ensures r.Got? ==> r.pos <= |b|
  {
    match ReadVersions(b) {
      case Bad => Bad
      case Got((version, typeVersion), q1) =>
        match ReadField(b, q1, Var(MAX_OBJECTS + 1)) {
          case Bad => Bad
          case Got(strings, q2) =>
            match Strings(b, q2, strings, 0) {
              case Bad => Bad
              case Got(_, q3) =>
                match if typeVersion == 3 then Userdata(b, q3, strings, 0) else Got(0, q3) {
                  case Bad => Bad
                  case Got(_, q4) => Got(Header(version, strings), q4)
                }
            }
        }
    }
  }

  /** The version and the code ranges of an envelope, the stray prefix already removed. */
  datatype Parsed = Refused | Parsed(version: nat, ranges: seq<CodeRange>)

  function ProtoReaders(): Env -> ProtoReader {
    env => ProtoReaderFor(env)
  }

  function ParseWith(b: seq<Byte>, readers: Env -> ProtoReader): Parsed {
    if |b| == 0 || |b| > MAX_INPUT_BYTES then Refused
    else
      match ReadHeader(b) {
        case Bad => Refused
        case Got(header, q1) =>
          match ReadField(b, q1, Var(MAX_OBJECTS + 1)) {
            case Bad => Refused
            case Got(protos, q2) =>
              if protos == 0 then Refused
              else
                match ReadProtos(readers(Env(header.version, header.strings, protos)), b, q2, protos, 0, 0, []) {
                  case Bad => Refused
                  case Got(ranges, q3) =>
                    match ReadField(b, q3, Var(protos)) {
                      case Bad => Refused
                      case Got(_, q4) => if |b| - q4 == 0 || |b| - q4 == 24 then Parsed(header.version, ranges) else Refused
                    }
                }
          }
      }
  }

  function Parse(b: seq<Byte>): Parsed {
    ParseWith(b, ProtoReaders())
  }
}
