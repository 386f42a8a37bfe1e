/** A writer for Luau envelopes, field by field, and that parsing what it writes finds its version and its code. */
module EnvelopeWriter {
  import opened Bytes
  import opened Opcodes
  import opened Envelope

  // ---------- fields ----------

  /** Groups of seven bits, the lowest first; every byte but the last has its top bit set. */
  function Leb(n: nat): seq<Byte> {
    if n < 128 then [n] else [n % 128 + 128] + Leb(n / 128)
  }

  /** A written field: a byte, four bytes lowest first, a number in groups of seven bits, or bytes as they are. */
  datatype Item = One(value: nat) | Four(value: nat) | Grouped(value: nat) | Raw(bytes: seq<Byte>)

  function WriteItem(x: Item): seq<Byte> {
    match x {
      case One(value) => [value % 256]
      case Four(value) => LittleEndian(value, 4)
      case Grouped(value) => Leb(value)
      case Raw(bytes) => bytes
    }
  }

  function ItemWriter(): Item -> seq<Byte> {
    x => WriteItem(x)
  }

  function WriteItems(xs: seq<Item>): seq<Byte> {
    Joined(xs, ItemWriter())
  }

  /** The item is one the field asks for, and its value one it takes. */
  predicate Matches(f: Field, x: Item) {
    match f {
      case U8(limit) => x.One? && x.value < limit && x.value < 256
      case U32Index(limit) => x.Four? && x.value < 0x1_0000_0000 && (x.value < limit || x.value >= 0x8000_0000)
      case Var(limit) => x.Grouped? && x.value < limit && x.value < 0x1_0000_0000
      case Var64 => x.Grouped? && x.value < 0x1_0000_0000_0000_0000
      case Skip(count) => x.Raw? && |x.bytes| == count
    }
  }

  function ValueOf(f: Field, x: Item): nat
    requires Matches(f, x)
  {
    match f {
      case U8(_) => x.value
      case U32Index(_) => x.value
      case Var(_) => x.value
      case Var64 => 0
      case Skip(_) => 0
    }
  }

  // ---------- numbers read back ----------

  /** What is left of 32 bits after `i` groups. */
  function Left(i: nat): nat {
    if i == 0 then 0x1_0000_0000 else if i == 1 then 0x200_0000 else if i == 2 then 0x4_0000 else if i == 3 then 0x800 else 16
  }

  lemma FirstGroup(n: nat)
    requires n >= 128
    ensures Leb(n) == [n % 128 + 128] + Leb(n / 128) && |Leb(n)| == 1 + |Leb(n / 128)|
  {
  }

  lemma NextGroup(n: nat, i: nat)
    requires i < 4 && n < Left(i)
    ensures n / 128 < Left(i + 1) && Shifted(n, i) == Shifted(n % 128, i) + Shifted(n / 128, i + 1)
  {
    assert n == n % 128 + 128 * (n / 128);
  }

  lemma GroupGoesOn(b: seq<Byte>, p: nat, i: nat, value: nat, low: nat)
    requires i < 4 && p < |b| && low < 128 && b[p] == low + 128
    ensures ReadVar(b, p, i, value) == ReadVar(b, p + 1, i + 1, value + Shifted(low, i))
  {
  }

  lemma GroupEnds(b: seq<Byte>, p: nat, i: nat, value: nat, n: nat)
    requires i < 5 && p < |b| && n < 128 && n < Left(i) && b[p] == n
    ensures ReadVar(b, p, i, value) == Got(value + Shifted(n, i), p + 1)
  {
  }

  lemma {:induction false} VarReads(b: seq<Byte>, p: nat, i: nat, value: nat, n: nat)
    requires i < 5 && n < Left(i) && Stands(b, p, Leb(n))
    ensures ReadVar(b, p, i, value) == Got(value + Shifted(n, i), p + |Leb(n)|)
    decreases 5 - i
  {
    StandsAt(b, p, Leb(n), 0);
    if n < 128 {
      GroupEnds(b, p, i, value, n);
    } else {
      FirstGroup(n);
      StandsSplit(b, p, [n % 128 + 128], Leb(n / 128));
      NextGroup(n, i);
      GroupGoesOn(b, p, i, value, n % 128);
      VarReads(b, p + 1, i + 1, value + Shifted(n % 128, i), n / 128);
    }
  }

  /** Every 32-bit number reads back from its groups, wherever they stand. */
  lemma NumberReads(b: seq<Byte>, p: nat, n: nat)
    requires n < 0x1_0000_0000 && Stands(b, p, Leb(n))
    ensures ReadVar(b, p, 0, 0) == Got(n, p + |Leb(n)|)
  {
    VarReads(b, p, 0, 0, n);
  }

  function Left64(i: nat): nat
    decreases if i < 9 then 9 - i else 0
  {
    if i >= 9 then 2 else 128 * Left64(i + 1)
  }

  lemma {:induction false} Var64Reads(b: seq<Byte>, p: nat, i: nat, n: nat)
    requires i < 10 && n < Left64(i) && Stands(b, p, Leb(n))
    ensures ReadVar64(b, p, i) == Got(0, p + |Leb(n)|)
    decreases 10 - i
  {
    StandsAt(b, p, Leb(n), 0);
    if n >= 128 {
      FirstGroup(n);
      StandsSplit(b, p, [n % 128 + 128], Leb(n / 128));
      Var64Reads(b, p + 1, i + 1, n / 128);
    }
  }

  lemma SixtyFourBits()
    ensures Left64(0) == 0x1_0000_0000_0000_0000
  {
    assert Left64(9) == 2;
    assert Left64(8) == 0x100 && Left64(7) == 0x8000;
    assert Left64(6) == 0x40_0000 && Left64(5) == 0x2000_0000;
    assert Left64(4) == 0x10_0000_0000 && Left64(3) == 0x800_0000_0000;
    assert Left64(2) == 0x4_0000_0000_0000 && Left64(1) == 0x200_0000_0000_0000;
  }

  lemma WordReads(b: seq<Byte>, p: nat, n: nat)
    requires n < 0x1_0000_0000 && Stands(b, p, LittleEndian(n, 4))
    ensures p + 4 <= |b| && Word(b, p) == n
  {
    FourBytes(n);
    StandsAt(b, p, LittleEndian(n, 4), 0);
    StandsAt(b, p, LittleEndian(n, 4), 1);
    StandsAt(b, p, LittleEndian(n, 4), 2);
    StandsAt(b, p, LittleEndian(n, 4), 3);
    var n1: nat := n / 256;
    var n2: nat := n1 / 256;
    assert n == 256 * n1 + n % 256 && n1 == 256 * n2 + n1 % 256 && n2 == 256 * (n2 / 256) + n2 % 256;
  }

  // ---------- lists read back ----------

  /** The result of a list of `n` when one entry of it has been read. */
  function Onward(r: Read<nat>, list: (nat, nat) -> Read<nat>, n: nat): Read<nat> {
    match r {
      case Bad => Bad
      case Got(_, q) => list(q, n)
    }
  }

  ghost predicate ListStep(size: nat, read: nat -> Read<nat>, list: (nat, nat) -> Read<nat>, p: nat, n: nat) {
    p <= size ==> list(p, n) == if n == 0 then Got(0, p) else Onward(read(p), list, n - 1)
  }

  /** `list` reads as many entries as it is told, one after the other. */
  ghost predicate IsListOf(size: nat, read: nat -> Read<nat>, list: (nat, nat) -> Read<nat>) {
    forall p: nat, n: nat {:trigger ListStep(size, read, list, p, n)} :: ListStep(size, read, list, p, n)
  }

  ghost predicate ReadsEntry<T>(b: seq<Byte>, write: T -> seq<Byte>, read: nat -> Read<nat>, x: T, p: nat) {
    Stands(b, p, write(x)) ==> read(p) == Got(0, p + |write(x)|)
  }

  /** Every entry of the list reads back, wherever it stands. */
  ghost predicate ReadsEach<T>(b: seq<Byte>, xs: seq<T>, write: T -> seq<Byte>, read: nat -> Read<nat>) {
    forall k: nat, p: nat {:trigger ReadsEntry(b, write, read, xs[k], p)} :: k < |xs| ==> ReadsEntry(b, write, read, xs[k], p)
  }

  lemma {:induction false} ListReadsBack<T>(b: seq<Byte>, p: nat, xs: seq<T>, write: T -> seq<Byte>, read: nat -> Read<nat>,
                                            list: (nat, nat) -> Read<nat>)
    requires IsListOf(|b|, read, list) && ReadsEach(b, xs, write, read) && Stands(b, p, Joined(xs, write))
    ensures list(p, |xs|) == Got(0, p + |Joined(xs, write)|)
    decreases |xs|
  {
    assert ListStep(|b|, read, list, p, |xs|);
    if xs != [] {
      JoinedHead(b, p, xs, write);
      assert ReadsEntry(b, write, read, xs[0], p);
      EachOfRest(b, xs, write, read);
      ListReadsBack(b, p + |write(xs[0])|, xs[1..], write, read, list);
    }
  }

  lemma EachOfRest<T>(b: seq<Byte>, xs: seq<T>, write: T -> seq<Byte>, read: nat -> Read<nat>)
    requires xs != [] && ReadsEach(b, xs, write, read)
    ensures ReadsEach(b, xs[1..], write, read)
  {
    forall k: nat, p: nat | k < |xs[1..]| ensures ReadsEntry(b, write, read, xs[1..][k], p) {
      assert xs[1..][k] == xs[k + 1];
      assert ReadsEntry(b, write, read, xs[k + 1], p);
    }
  }

  // ---------- groups of fields read back ----------

  lemma FieldReads(b: seq<Byte>, p: nat, f: Field, x: Item)
    requires Matches(f, x) && Stands(b, p, WriteItem(x))
    ensures p <= |b| && ReadField(b, p, f) == Got(ValueOf(f, x), p + |WriteItem(x)|)
  {
    match f {
      case U8(_) => StandsAt(b, p, [x.value % 256], 0);
      case U32Index(_) => WordReads(b, p, x.value);
      case Var(_) => NumberReads(b, p, x.value);
      case Var64 =>
        SixtyFourBits();
        Var64Reads(b, p, 0, x.value);
      case Skip(_) =>
    }
  }

  ghost predicate AllMatch(fs: seq<Field>, xs: seq<Item>) {
    |xs| == |fs| && forall k :: 0 <= k < |fs| ==> Matches(fs[k], xs[k])
  }

  function ValuesOf(fs: seq<Field>, xs: seq<Item>): (r: seq<nat>)
    requires AllMatch(fs, xs)
    ensures |r| == |fs| && forall k :: 0 <= k < |fs| ==> r[k] == ValueOf(fs[k], xs[k])
  {
    seq(|fs|, k requires 0 <= k < |fs| => ValueOf(fs[k], xs[k]))
  }

  lemma ItemStands(b: seq<Byte>, p: nat, xs: seq<Item>)
    requires xs != [] && Stands(b, p, WriteItems(xs))
    ensures Stands(b, p, WriteItem(xs[0])) && Stands(b, p + |WriteItem(xs[0])|, WriteItems(xs[1..]))
    ensures |WriteItems(xs)| == |WriteItem(xs[0])| + |WriteItems(xs[1..])|
  {
    JoinedHead(b, p, xs, ItemWriter());
    assert ItemWriter()(xs[0]) == WriteItem(xs[0]);
  }

  lemma {:induction false} FieldsRead(b: seq<Byte>, p: nat, fs: seq<Field>, xs: seq<Item>, k: nat, before: seq<nat>)
    requires AllMatch(fs, xs) && k <= |fs| && |before| == k && before == ValuesOf(fs, xs)[..k] && Stands(b, p, WriteItems(xs[k..]))
    ensures p <= |b| && ReadFields(b, p, fs, k, before) == Got(ValuesOf(fs, xs), p + |WriteItems(xs[k..])|)
    decreases |fs| - k
  {
    if k < |fs| {
      assert xs[k..][0] == xs[k] && xs[k..][1..] == xs[k + 1..];
      ItemStands(b, p, xs[k..]);
      FieldReads(b, p, fs[k], xs[k]);
      assert before + [ValueOf(fs[k], xs[k])] == ValuesOf(fs, xs)[..k + 1];
      FieldsRead(b, p + |WriteItem(xs[k])|, fs, xs, k + 1, before + [ValueOf(fs[k], xs[k])]);
    } else {
      assert xs[k..] == [] && ValuesOf(fs, xs)[..k] == ValuesOf(fs, xs);
    }
  }

  /** A row of fields, from the first. */
  lemma RowReads(b: seq<Byte>, p: nat, fs: seq<Field>, xs: seq<Item>)
    requires AllMatch(fs, xs) && Stands(b, p, WriteItems(xs))
    ensures p <= |b| && ReadFields(b, p, fs, 0, []) == Got(ValuesOf(fs, xs), p + |WriteItems(xs)|)
  {
    assert xs[0..] == xs;
    FieldsRead(b, p, fs, xs, 0, []);
  }

  function RowWriter(): seq<Item> -> seq<Byte> {
    row => WriteItems(row)
  }

  function WriteRows(rows: seq<seq<Item>>): seq<Byte> {
    Joined(rows, RowWriter())
  }

  ghost predicate RowsMatch(fs: seq<Field>, rows: seq<seq<Item>>) {
    forall k :: 0 <= k < |rows| ==> AllMatch(fs, rows[k])
  }

  function RowReader(b: seq<Byte>, fs: seq<Field>): nat -> Read<nat> {
    (p: nat) =>
      if p > |b| then Bad
      else
        match ReadFields(b, p, fs, 0, []) {
          case Bad => Bad
          case Got(_, q) => Got(0, q)
        }
  }

  function RowsReader(b: seq<Byte>, fs: seq<Field>): (nat, nat) -> Read<nat> {
    (p: nat, n: nat) => if p > |b| then Bad else Repeat(b, p, n, fs)
  }

  lemma RowsAreList(b: seq<Byte>, fs: seq<Field>)
    ensures IsListOf(|b|, RowReader(b, fs), RowsReader(b, fs))
  {
    forall p: nat, n: nat ensures ListStep(|b|, RowReader(b, fs), RowsReader(b, fs), p, n) {
    }
  }

  lemma RowEntryReads(b: seq<Byte>, fs: seq<Field>, row: seq<Item>, p: nat)
    requires AllMatch(fs, row)
    ensures ReadsEntry(b, RowWriter(), RowReader(b, fs), row, p)
  {
    assert RowWriter()(row) == WriteItems(row);
    if Stands(b, p, WriteItems(row)) {
      RowReads(b, p, fs, row);
    }
  }

  lemma RowsRead(b: seq<Byte>, p: nat, fs: seq<Field>, rows: seq<seq<Item>>)
    requires RowsMatch(fs, rows) && Stands(b, p, WriteRows(rows))
    ensures p <= |b| && Repeat(b, p, |rows|, fs) == Got(0, p + |WriteRows(rows)|)
  {
    RowsAreList(b, fs);
    forall k: nat, q: nat | k < |rows| ensures ReadsEntry(b, RowWriter(), RowReader(b, fs), rows[k], q) {
      RowEntryReads(b, fs, rows[k], q);
    }
    ListReadsBack(b, p, rows, RowWriter(), RowReader(b, fs), RowsReader(b, fs));
    assert RowsReader(b, fs)(p, |rows|) == Repeat(b, p, |rows|, fs);
  }

  /** A count and as many rows. */
  function WriteCounted(rows: seq<seq<Item>>): seq<Byte> {
    Leb(|rows|) + WriteRows(rows)
  }

  lemma CountReads(b: seq<Byte>, p: nat, n: nat)
    requires n <= MAX_OBJECTS && Stands(b, p, Leb(n))
    ensures p <= |b| && ReadField(b, p, Var(MAX_OBJECTS + 1)) == Got(n, p + |Leb(n)|)
  {
    FieldReads(b, p, Var(MAX_OBJECTS + 1), Grouped(n));
  }

  lemma CountedReads(b: seq<Byte>, p: nat, fs: seq<Field>, rows: seq<seq<Item>>)
    requires RowsMatch(fs, rows) && |rows| <= MAX_OBJECTS && Stands(b, p, WriteCounted(rows))
    ensures p <= |b| && Counted(b, p, fs) == Got(0, p + |WriteCounted(rows)|)
  {
    StandsSplit(b, p, Leb(|rows|), WriteRows(rows));
    CountReads(b, p, |rows|);
    RowsRead(b, p + |Leb(|rows|)|, fs, rows);
  }

  // ---------- constants ----------

  /** The constants a prototype may have; `bits` are values kept as they are. */
  datatype Constant =
    | Nil
    | Boolean(bits: seq<Byte>)
    | Number(bits: seq<Byte>)
    | String(id: nat)
    | Import(bits: seq<Byte>)
    | Template(keys: seq<nat>)
    | Closure(proto: nat)
    | Vector(bits: seq<Byte>)
    | TemplateWithValues(entries: seq<(nat, nat)>)
    | Integer(sign: Byte, magnitude: nat)
    | ClassShape(name: nat, properties: seq<nat>, methods: seq<nat>)
    | DoubleVector(bits: seq<Byte>)

  function KindByte(c: Constant): Byte {
    match c {
      case Nil => 0
      case Boolean(_) => 1
      case Number(_) => 2
      case String(_) => 3
      case Import(_) => 4
      case Template(_) => 5
      case Closure(_) => 6
      case Vector(_) => 7
      case TemplateWithValues(_) => 8
      case Integer(_, _) => 9
      case ClassShape(_, _, _) => 10
      case DoubleVector(_) => 11
    }
  }

  function Numbers(ns: seq<nat>): (rows: seq<seq<Item>>)
    ensures |rows| == |ns| && forall k :: 0 <= k < |ns| ==> rows[k] == [Grouped(ns[k])]
  {
    seq(|ns|, k requires 0 <= k < |ns| => [Grouped(ns[k])])
  }

  function Entries(ns: seq<(nat, nat)>): (rows: seq<seq<Item>>)
    ensures |rows| == |ns| && forall k :: 0 <= k < |ns| ==> rows[k] == [Grouped(ns[k].0), Four(ns[k].1)]
  {
    seq(|ns|, k requires 0 <= k < |ns| => [Grouped(ns[k].0), Four(ns[k].1)])
  }

  function ConstantBody(c: Constant): seq<Byte> {
    match c {
      case Nil => WriteItems([])
      case Boolean(bits) => WriteItems([Raw(bits)])
      case Number(bits) => WriteItems([Raw(bits)])
      case String(id) => WriteItems([Grouped(id)])
      case Import(bits) => WriteItems([Raw(bits)])
      case Template(keys) => WriteCounted(Numbers(keys))
      case Closure(proto) => WriteItems([Grouped(proto)])
      case Vector(bits) => WriteItems([Raw(bits)])
      case TemplateWithValues(entries) => WriteCounted(Entries(entries))
      case Integer(sign, magnitude) => WriteItems([Raw([sign]), Grouped(magnitude)])
      case ClassShape(name, properties, methods) =>
        WriteItems([Grouped(name), Grouped(|properties|), Grouped(|methods|)]) + WriteRows(Numbers(properties + methods))
      case DoubleVector(bits) => WriteItems([Raw(bits)])
    }
  }

  function WriteConstant(c: Constant): seq<Byte> {
    [KindByte(c)] + ConstantBody(c)
  }

  ghost predicate AllBelow(ns: seq<nat>, limit: nat) {
    limit <= 0x1_0000_0000 && forall k :: 0 <= k < |ns| ==> ns[k] < limit
  }

  /** A constant that a prototype with `n` constants may hold. */
  ghost predicate ConstantOk(c: Constant, env: Env, n: nat) {
    match c {
      case Nil => true
      case Boolean(bits) => |bits| == 1
      case Number(bits) => |bits| == 8
      case String(id) => id <= env.strings && id < 0x1_0000_0000
      case Import(bits) => |bits| == 4
      case Template(keys) => AllBelow(keys, n) && |keys| <= MAX_OBJECTS
      case Closure(proto) => proto < env.protos && proto < 0x1_0000_0000
      case Vector(bits) => env.version >= 5 && |bits| == 16
      case TemplateWithValues(entries) => env.version >= 7 && |entries| <= MAX_OBJECTS && EntriesOk(entries, n)
      case Integer(_, magnitude) => env.version >= 8 && magnitude < 0x1_0000_0000_0000_0000
      case ClassShape(name, properties, methods) =>
        env.version >= 10 && AllBelow([name], n) && AllBelow(properties + methods, n) && |properties + methods| <= MAX_OBJECTS
      case DoubleVector(bits) => env.version >= 13 && |bits| == 32
    }
  }

  /** Keys are constants, and values are constants or, from 2^31 on, none. */
  ghost predicate EntriesOk(entries: seq<(nat, nat)>, n: nat) {
    forall k :: 0 <= k < |entries| ==>
      entries[k].0 < n && entries[k].0 < 0x1_0000_0000 && entries[k].1 < 0x1_0000_0000 && (entries[k].1 < n || entries[k].1 >= 0x8000_0000)
  }

  lemma NumbersMatch(ns: seq<nat>, limit: nat)
    requires AllBelow(ns, limit)
    ensures RowsMatch([Var(limit)], Numbers(ns))
  {
  }

  lemma PlainReads(b: seq<Byte>, p: nat, fs: seq<Field>, xs: seq<Item>, constants: nat)
    requires AllMatch(fs, xs) && Stands(b, p, WriteItems(xs))
    ensures p <= |b| && ReadShape(b, p, Plain(fs), constants) == Got(0, p + |WriteItems(xs)|)
  {
    RowReads(b, p, fs, xs);
  }

  lemma ClassPartsRead(b: seq<Byte>, p: nat, name: nat, properties: seq<nat>, methods: seq<nat>, n: nat, head: seq<Byte>, rows: seq<Byte>)
    requires AllBelow([name], n) && AllBelow(properties + methods, n) && |properties + methods| <= MAX_OBJECTS
    requires head == WriteItems([Grouped(name), Grouped(|properties|), Grouped(|methods|)]) && rows == WriteRows(Numbers(properties + methods))
    requires Stands(b, p, head) && Stands(b, p + |head|, rows)
    ensures p <= |b| && ReadShape(b, p, Shape.ClassShape, n) == Got(0, p + |head| + |rows|)
  {
    var fs, xs := [Var(n), Var(WORD_LIMIT), Var(WORD_LIMIT)], [Grouped(name), Grouped(|properties|), Grouped(|methods|)];
    assert [name][0] < n;
    RowReads(b, p, fs, xs);
    NumbersMatch(properties + methods, n);
    RowsRead(b, p + |head|, [Var(n)], Numbers(properties + methods));
  }

  lemma ClassReads(b: seq<Byte>, p: nat, name: nat, properties: seq<nat>, methods: seq<nat>, n: nat, w: seq<Byte>)
    requires AllBelow([name], n) && AllBelow(properties + methods, n) && |properties + methods| <= MAX_OBJECTS
    requires w == ConstantBody(Constant.ClassShape(name, properties, methods)) && Stands(b, p, w)
    ensures p <= |b| && ReadShape(b, p, Shape.ClassShape, n) == Got(0, p + |w|)
  {
    var head, rows := WriteItems([Grouped(name), Grouped(|properties|), Grouped(|methods|)]), WriteRows(Numbers(properties + methods));
    StandsSplit(b, p, head, rows);
    ClassPartsRead(b, p, name, properties, methods, n, head, rows);
  }

  lemma PlainBodyReads(b: seq<Byte>, p: nat, c: Constant, env: Env, n: nat)
    requires ConstantOk(c, env, n) && !IsTable(c) && Stands(b, p, ConstantBody(c))
    ensures p <= |b| && ReadShape(b, p, ShapeOf(KindByte(c), env, n), n) == Got(0, p + |ConstantBody(c)|)
  {
    match c {
      case Nil => PlainReads(b, p, [], [], n);
      case Boolean(bits) => PlainReads(b, p, [Skip(1)], [Raw(bits)], n);
      case Number(bits) => PlainReads(b, p, [Skip(8)], [Raw(bits)], n);
      case String(id) => PlainReads(b, p, [Var(env.strings + 1)], [Grouped(id)], n);
      case Import(bits) => PlainReads(b, p, [Skip(4)], [Raw(bits)], n);
      case Closure(proto) => PlainReads(b, p, [Var(env.protos)], [Grouped(proto)], n);
      case Vector(bits) => PlainReads(b, p, [Skip(16)], [Raw(bits)], n);
      case Integer(sign, magnitude) => PlainReads(b, p, [Skip(1), Var64], [Raw([sign]), Grouped(magnitude)], n);
      case DoubleVector(bits) => PlainReads(b, p, [Skip(32)], [Raw(bits)], n);
    }
  }

  predicate IsTable(c: Constant) {
    c.Template? || c.TemplateWithValues? || c.ClassShape?
  }

  lemma TableBodyReads(b: seq<Byte>, p: nat, c: Constant, env: Env, n: nat)
    requires ConstantOk(c, env, n) && IsTable(c) && Stands(b, p, ConstantBody(c))
    ensures p <= |b| && ReadShape(b, p, ShapeOf(KindByte(c), env, n), n) == Got(0, p + |ConstantBody(c)|)
  {
    match c {
      case Template(keys) =>
        NumbersMatch(keys, n);
        CountedReads(b, p, [Var(n)], Numbers(keys));
      case TemplateWithValues(entries) => CountedReads(b, p, [Var(n), U32Index(n)], Entries(entries));
      case ClassShape(name, properties, methods) => ClassReads(b, p, name, properties, methods, n, ConstantBody(c));
    }
  }

  lemma BodyReads(b: seq<Byte>, p: nat, c: Constant, env: Env, n: nat)
    requires ConstantOk(c, env, n) && Stands(b, p, ConstantBody(c))
    ensures p <= |b| && ReadShape(b, p, ShapeOf(KindByte(c), env, n), n) == Got(0, p + |ConstantBody(c)|)
  {
    if IsTable(c) {
      TableBodyReads(b, p, c, env, n);
    } else {
      PlainBodyReads(b, p, c, env, n);
    }
  }

  function ConstantWriter(): Constant -> seq<Byte> {
    c => WriteConstant(c)
  }

  ghost predicate ConstantsOk(cs: seq<Constant>, env: Env, n: nat) {
    forall k {:trigger ConstantOk(cs[k], env, n)} :: 0 <= k < |cs| ==> ConstantOk(cs[k], env, n)
  }

  lemma OneConstantReads(b: seq<Byte>, p: nat, c: Constant, env: Env, n: nat, w: seq<Byte>)
    requires ConstantOk(c, env, n) && w == ConstantWriter()(c) && Stands(b, p, w)
    ensures p < |b| && ReadShape(b, p + 1, ShapeOf(b[p], env, n), n) == Got(0, p + |w|)
  {
    assert ConstantWriter()(c) == WriteConstant(c);
    StandsSplit(b, p, [KindByte(c)], ConstantBody(c));
    StandsAt(b, p, [KindByte(c)], 0);
    BodyReads(b, p + 1, c, env, n);
  }

  function EntryReader(b: seq<Byte>, env: Env, n: nat): nat -> Read<nat> {
    (p: nat) => if p >= |b| then Bad else ReadShape(b, p + 1, ShapeOf(b[p], env, n), n)
  }

  function EntriesReader(b: seq<Byte>, env: Env, n: nat): (nat, nat) -> Read<nat> {
    (p: nat, k: nat) => if p > |b| then Bad else ConstantList(b, p, k, env, n)
  }

  lemma ConstantListAt(b: seq<Byte>, env: Env, n: nat, read: nat -> Read<nat>, list: (nat, nat) -> Read<nat>, p: nat, k: nat)
    requires p <= |b| && list(p, k) == ConstantList(b, p, k, env, n)
    requires read(p) == if p == |b| then Bad else ReadShape(b, p + 1, ShapeOf(b[p], env, n), n)
    requires k > 0 && read(p).Got? ==> list(read(p).pos, k - 1) == ConstantList(b, read(p).pos, k - 1, env, n)
    ensures ListStep(|b|, read, list, p, k)
  {
  }

  lemma EntryReaderAt(b: seq<Byte>, env: Env, n: nat, p: nat)
    requires p <= |b|
    ensures EntryReader(b, env, n)(p) == if p == |b| then Bad else ReadShape(b, p + 1, ShapeOf(b[p], env, n), n)
    ensures EntryReader(b, env, n)(p).Got? ==> EntryReader(b, env, n)(p).pos <= |b|
  {
  }

  lemma EntriesReaderAt(b: seq<Byte>, env: Env, n: nat, p: nat, k: nat)
    requires p <= |b|
    ensures EntriesReader(b, env, n)(p, k) == ConstantList(b, p, k, env, n)
  {
  }

  lemma ConstantsAreList(b: seq<Byte>, env: Env, n: nat)
    ensures IsListOf(|b|, EntryReader(b, env, n), EntriesReader(b, env, n))
  {
    var read, list := EntryReader(b, env, n), EntriesReader(b, env, n);
    forall p: nat, k: nat ensures ListStep(|b|, read, list, p, k) {
      if p <= |b| {
        EntryReaderAt(b, env, n, p);
        EntriesReaderAt(b, env, n, p, k);
        if k > 0 && read(p).Got? {
          EntriesReaderAt(b, env, n, read(p).pos, k - 1);
        }
        ConstantListAt(b, env, n, read, list, p, k);
      }
    }
  }

  lemma ConstantEntryReads(b: seq<Byte>, env: Env, n: nat, c: Constant, p: nat)
    requires ConstantOk(c, env, n)
    ensures ReadsEntry(b, ConstantWriter(), EntryReader(b, env, n), c, p)
  {
    if Stands(b, p, ConstantWriter()(c)) {
      OneConstantReads(b, p, c, env, n, ConstantWriter()(c));
    }
  }

  lemma EachConstantReads(b: seq<Byte>, cs: seq<Constant>, env: Env, n: nat)
    requires ConstantsOk(cs, env, n)
    ensures ReadsEach(b, cs, ConstantWriter(), EntryReader(b, env, n))
  {
    var write, read := ConstantWriter(), EntryReader(b, env, n);
    forall k: nat, q: nat | k < |cs| ensures ReadsEntry(b, write, read, cs[k], q) {
      ConstantEntryReads(b, env, n, cs[k], q);
    }
  }

  function WriteConstants(cs: seq<Constant>): seq<Byte> {
    Leb(|cs|) + Joined(cs, ConstantWriter())
  }

  lemma CountThenReads(b: seq<Byte>, p: nat, total: nat, list: nat -> Decoder<nat>, n: nat, q: nat, end: nat)
    requires p <= |b| && ReadField(b, p, Var(MAX_OBJECTS + 1)) == Got(n, q) && total + n <= MAX_OBJECTS && list(n)(b, q) == Got(0, end)
    ensures CountThen(b, p, total, list) == Got(total + n, end)
  {
  }

  lemma ListReads(b: seq<Byte>, q: nat, env: Env, n: nat, end: nat)
    requires q <= |b| && ConstantList(b, q, n, env, n) == Got(0, end)
    ensures ListReader(env)(n)(b, q) == Got(0, end)
  {
  }

  lemma TableStands<T>(b: seq<Byte>, p: nat, xs: seq<T>, write: T -> seq<Byte>) returns (q: nat)
    requires |xs| <= MAX_OBJECTS && Stands(b, p, Leb(|xs|) + Joined(xs, write))
    ensures p <= q <= |b| && ReadField(b, p, Var(MAX_OBJECTS + 1)) == Got(|xs|, q)
    ensures Stands(b, q, Joined(xs, write)) && q + |Joined(xs, write)| == p + |Leb(|xs|) + Joined(xs, write)|
  {
    StandsSplit(b, p, Leb(|xs|), Joined(xs, write));
    CountReads(b, p, |xs|);
    q := p + |Leb(|xs|)|;
  }

  lemma ConstantTableFrom(b: seq<Byte>, p: nat, n: nat, env: Env, total: nat, q: nat, end: nat)
    requires p <= |b| && q <= |b| && ReadField(b, p, Var(MAX_OBJECTS + 1)) == Got(n, q) && total + n <= MAX_OBJECTS
    requires ConstantList(b, q, n, env, n) == Got(0, end)
    ensures Constants(b, p, env, total) == Got(total + n, end)
  {
    ListReads(b, q, env, n, end);
    CountThenReads(b, p, total, ListReader(env), n, q, end);
  }

  /** A count `n` at `p`, and `n` entries behind it, up to `end`. */
  ghost predicate TableAt(b: seq<Byte>, p: nat, n: nat, list: (nat, nat) -> Read<nat>, end: nat) {
    exists q: nat :: p <= q <= |b| && ReadField(b, p, Var(MAX_OBJECTS + 1)) == Got(n, q) && list(q, n) == Got(0, end)
  }

  /** A count and a list of that many entries, each of which reads back. */
  lemma TableTaken<T>(b: seq<Byte>, p: nat, xs: seq<T>, write: T -> seq<Byte>, entry: nat -> Read<nat>, list: (nat, nat) -> Read<nat>)
    requires |xs| <= MAX_OBJECTS && ReadsEach(b, xs, write, entry) && IsListOf(|b|, entry, list)
    requires Stands(b, p, Leb(|xs|) + Joined(xs, write))
    ensures TableAt(b, p, |xs|, list, p + |Leb(|xs|) + Joined(xs, write)|)
  {
    var q := TableStands(b, p, xs, write);
    ListReadsBack(b, q, xs, write, entry, list);
  }

  lemma ConstantTableAt(b: seq<Byte>, p: nat, n: nat, env: Env, total: nat, list: (nat, nat) -> Read<nat>, end: nat)
    requires TableAt(b, p, n, list, end) && ListsConstants(b, env, n, list) && total + n <= MAX_OBJECTS
    ensures p <= |b| && Constants(b, p, env, total) == Got(total + n, end)
  {
    var q: nat :| p <= q <= |b| && ReadField(b, p, Var(MAX_OBJECTS + 1)) == Got(n, q) && list(q, n) == Got(0, end);
    assert ListsAt(b, env, n, list, q);
    ConstantTableFrom(b, p, n, env, total, q, end);
  }

  ghost predicate ListsAt(b: seq<Byte>, env: Env, n: nat, list: (nat, nat) -> Read<nat>, q: nat) {
    q <= |b| ==> list(q, n) == ConstantList(b, q, n, env, n)
  }

  ghost predicate ListsConstants(b: seq<Byte>, env: Env, n: nat, list: (nat, nat) -> Read<nat>) {
    forall q: nat {:trigger ListsAt(b, env, n, list, q)} :: ListsAt(b, env, n, list, q)
  }

  lemma EntriesAreConstants(b: seq<Byte>, env: Env, n: nat)
    ensures ListsConstants(b, env, n, EntriesReader(b, env, n))
  {
  }

  // ---------- a prototype ----------

  datatype Lines = NoLines | Lines(gap: nat, bytes: seq<Byte>)
  datatype Local = Local(name: nat, start: nat, end: nat, register: nat)
  datatype Debug = NoDebug | Debug(locals: seq<Local>, names: seq<nat>)

  /** A prototype's fields; those its version does not have are not written. `words` are four bytes of code each. */
  datatype WrittenProto = WrittenProto(
    maxStack: nat, parameters: nat, upvalues: nat, vararg: nat, flags: nat, typeInfo: seq<Byte>,
    words: nat, code: seq<Byte>, constants: seq<Constant>, children: seq<nat>, line: nat, name: nat,
    lines: Lines, debug: Debug, feedback: seq<nat>, cost: nat, extra: seq<Byte>)

  function Power2(n: nat): (r: nat)
    ensures r > 0
  {
    if n == 0 then 1 else 2 * Power2(n - 1)
  }

  /** How many chunks of `size` have been begun. */
  function Chunks(words: nat, size: nat): nat
    requires size > 0
  {
    if words == 0 then 0 else 1 + if words > size then Chunks(words - size, size) else 0
  }

  function LocalRows(ls: seq<Local>): (rows: seq<seq<Item>>)
    ensures |rows| == |ls|
    ensures forall k :: 0 <= k < |ls| ==> rows[k] == [Grouped(ls[k].name), Grouped(ls[k].start), Grouped(ls[k].end), One(ls[k].register)]
  {
    seq(|ls|, k requires 0 <= k < |ls| => [Grouped(ls[k].name), Grouped(ls[k].start), Grouped(ls[k].end), One(ls[k].register)])
  }

  function FeedbackRows(ns: seq<nat>): (rows: seq<seq<Item>>)
    ensures |rows| == |ns| && forall k :: 0 <= k < |ns| ==> rows[k] == [One(0), Grouped(ns[k])]
  {
    seq(|ns|, k requires 0 <= k < |ns| => [One(0), Grouped(ns[k])])
  }

  function WriteLines(lines: Lines): seq<Byte> {
    match lines {
      case NoLines => WriteItem(One(0))
      case Lines(gap, bytes) => WriteItem(One(1)) + (WriteItem(One(gap)) + bytes)
    }
  }

  function WriteDebug(debug: Debug): seq<Byte> {
    match debug {
      case NoDebug => WriteItem(One(0))
      case Debug(locals, names) => WriteItem(One(1)) + (WriteCounted(LocalRows(locals)) + WriteCounted(Numbers(names)))
    }
  }

  function WriteCost(t: WrittenProto): seq<Byte> {
    if t.flags / 8 % 2 == 1 then Leb(t.cost) else []
  }

  function WriteFeedback(t: WrittenProto, version: nat): seq<Byte> {
    if version >= 11 then WriteCounted(FeedbackRows(t.feedback)) else []
  }

  /** What only sized prototypes have; further fields may follow. */
  function WriteExtra(t: WrittenProto, version: nat): seq<Byte> {
    if version >= 12 then WriteCost(t) + t.extra else []
  }

  function WriteEnd(t: WrittenProto, version: nat): seq<Byte> {
    WriteFeedback(t, version) + WriteExtra(t, version)
  }

  function WriteNames(t: WrittenProto): seq<Byte> {
    WriteItems([Grouped(t.line), Grouped(t.name)])
  }

  /** Children, line and name, line table, debug info and the end. */
  function WriteTail(t: WrittenProto, version: nat): seq<Byte> {
    WriteCounted(Numbers(t.children)) + (WriteNames(t) + (WriteLines(t.lines) + (WriteDebug(t.debug) + WriteEnd(t, version))))
  }

  function WriteTypes(t: WrittenProto, version: nat): seq<Byte> {
    if version >= 4 then WriteItems([One(t.flags), Grouped(|t.typeInfo|)]) + t.typeInfo else []
  }

  function WriteRegisters(t: WrittenProto): seq<Byte> {
    WriteItems([One(t.maxStack), One(t.parameters), One(t.upvalues), One(t.vararg)])
  }

  /** Everything in front of the word count, without the size. */
  function WriteHead(t: WrittenProto, version: nat): seq<Byte> {
    WriteRegisters(t) + WriteTypes(t, version)
  }

  /** Later versions put the size of a prototype in front of it. */
  function WriteSize(body: nat, version: nat): seq<Byte> {
    if version >= 12 then Leb(body) else []
  }

  /** A prototype's parts in order; `count` is the number of its constants. */
  datatype Parts = Parts(head: seq<Byte>, words: nat, code: seq<Byte>, count: nat, constants: seq<Byte>, tail: seq<Byte>)

  function Assembled(x: Parts): seq<Byte> {
    x.head + (Leb(x.words) + (x.code + (x.constants + x.tail)))
  }

  function Sized(x: Parts, version: nat): seq<Byte> {
    WriteSize(|Assembled(x)|, version) + Assembled(x)
  }

  function PartsOf(t: WrittenProto, version: nat): Parts {
    Parts(WriteHead(t, version), t.words, t.code, |t.constants|, WriteConstants(t.constants), WriteTail(t, version))
  }

  /** A byte for each word, and four for every `2^gap` words begun. */
  ghost predicate LinesOk(lines: Lines, words: nat) {
    lines.Lines? ==> lines.gap < 32 && |lines.bytes| == words + 4 * Chunks(words, Power2(lines.gap))
  }

  ghost predicate LocalOk(l: Local, strings: nat, maxStack: nat) {
    && l.name <= strings && l.name < 0x1_0000_0000 && l.start < 0x1_0000_0000 && l.end < 0x1_0000_0000
    && l.register < maxStack && l.register < 256
  }

  ghost predicate DebugOk(debug: Debug, strings: nat, maxStack: nat) {
    debug.Debug? ==>
      && |debug.locals| <= MAX_OBJECTS && |debug.names| <= MAX_OBJECTS && AllBelow32(debug.names, strings + 1)
      && forall k :: 0 <= k < |debug.locals| ==> LocalOk(debug.locals[k], strings, maxStack)
  }

  ghost predicate AllBelow32(ns: seq<nat>, limit: nat) {
    forall k :: 0 <= k < |ns| ==> ns[k] < limit && ns[k] < 0x1_0000_0000
  }

  ghost predicate EndOk(t: WrittenProto) {
    AllBelow32(t.feedback, 0x1_0000_0000) && |t.feedback| <= MAX_OBJECTS && t.cost < 0x1_0000_0000_0000_0000
  }

  ghost predicate InfoOk(t: WrittenProto, strings: nat) {
    LinesOk(t.lines, t.words) && DebugOk(t.debug, strings, t.maxStack) && EndOk(t)
  }

  predicate NamesOk(t: WrittenProto, strings: nat) {
    t.line < 0x1_0000_0000 && t.name <= strings && t.name < 0x1_0000_0000
  }

  ghost predicate TailOk(t: WrittenProto, env: Env) {
    AllBelow32(t.children, env.protos) && |t.children| <= MAX_OBJECTS && NamesOk(t, env.strings) && InfoOk(t, env.strings)
  }

  predicate HeadOk(t: WrittenProto) {
    t.parameters <= t.maxStack < 256 && t.upvalues <= 200 && t.vararg <= 1 && t.flags < 256 && |t.typeInfo| < 0x1_0000_0000
  }

  ghost predicate ProtoOk(t: WrittenProto, env: Env) {
    HeadOk(t) && |t.code| == 4 * t.words && ConstantsOk(t.constants, env, |t.constants|) && TailOk(t, env)
  }

  // ---------- the parts of a prototype read back ----------

  lemma {:induction false} HalvingTakesAway(x: nat, bits: nat)
    requires x >= Power2(bits)
    ensures HalvedBy(x, bits) == 1 + HalvedBy(x - Power2(bits), bits)
    decreases bits
  {
    if bits > 0 {
      HalvingTakesAway(x / 2, bits - 1);
      assert (x - Power2(bits)) / 2 == x / 2 - Power2(bits - 1);
    }
  }

  lemma {:induction false} HalvingEnds(x: nat, bits: nat)
    requires x < Power2(bits)
    ensures HalvedBy(x, bits) == 0
    decreases bits
  {
    if bits > 0 {
      HalvingEnds(x / 2, bits - 1);
    }
  }

  lemma {:induction false} IntervalsAre(words: nat, gap: nat)
    ensures Intervals(words, gap) == Chunks(words, Power2(gap))
    decreases words
  {
    if words > Power2(gap) {
      HalvingTakesAway(words - 1, gap);
      IntervalsAre(words - Power2(gap), gap);
    } else if words > 0 {
      HalvingEnds(words - 1, gap);
    }
  }

  lemma LinesRead(b: seq<Byte>, p: nat, lines: Lines, words: nat, w: seq<Byte>)
    requires LinesOk(lines, words) && w == WriteLines(lines) && Stands(b, p, w)
    ensures p <= |b| && ReadLines(b, p, words) == Got(0, p + |w|)
  {
    match lines {
      case NoLines => FieldReads(b, p, U8(2), One(0));
      case Lines(gap, bytes) =>
        StandsSplitThree(b, p, WriteItem(One(1)), WriteItem(One(gap)), bytes);
        FieldReads(b, p, U8(2), One(1));
        FieldReads(b, p + 1, U8(32), One(gap));
        IntervalsAre(words, gap);
        FieldReads(b, p + 2, Skip(words + 4 * Intervals(words, gap)), Raw(bytes));
    }
  }

  lemma RowsOfNumbers(ns: seq<nat>, limit: nat)
    requires AllBelow32(ns, limit)
    ensures RowsMatch([Var(limit)], Numbers(ns))
  {
  }

  lemma RowsOfLocals(ls: seq<Local>, strings: nat, maxStack: nat)
    requires forall k :: 0 <= k < |ls| ==> LocalOk(ls[k], strings, maxStack)
    ensures RowsMatch([Var(strings + 1), Var(WORD_LIMIT), Var(WORD_LIMIT), U8(maxStack)], LocalRows(ls))
  {
  }

  lemma LocalsRead(b: seq<Byte>, p: nat, locals: seq<Local>, strings: nat, maxStack: nat, w: seq<Byte>)
    requires |locals| <= MAX_OBJECTS && forall k :: 0 <= k < |locals| ==> LocalOk(locals[k], strings, maxStack)
    requires w == WriteCounted(LocalRows(locals)) && Stands(b, p, w)
    ensures p <= |b| && Counted(b, p, [Var(strings + 1), Var(WORD_LIMIT), Var(WORD_LIMIT), U8(maxStack)]) == Got(0, p + |w|)
  {
    RowsOfLocals(locals, strings, maxStack);
    CountedReads(b, p, [Var(strings + 1), Var(WORD_LIMIT), Var(WORD_LIMIT), U8(maxStack)], LocalRows(locals));
  }

  lemma NumbersRead(b: seq<Byte>, p: nat, ns: seq<nat>, limit: nat, w: seq<Byte>)
    requires |ns| <= MAX_OBJECTS && AllBelow32(ns, limit) && w == WriteCounted(Numbers(ns)) && Stands(b, p, w)
    ensures p <= |b| && Counted(b, p, [Var(limit)]) == Got(0, p + |w|)
  {
    RowsOfNumbers(ns, limit);
    CountedReads(b, p, [Var(limit)], Numbers(ns));
  }

  lemma DebugFrom(b: seq<Byte>, p: nat, env: Env, maxStack: nat, q: nat, end: nat)
    requires p < |b| && ReadField(b, p, U8(2)) == Got(1, p + 1) && q <= |b|
    requires Counted(b, p + 1, [Var(env.strings + 1), Var(WORD_LIMIT), Var(WORD_LIMIT), U8(maxStack)]) == Got(0, q)
    requires Counted(b, q, [Var(env.strings + 1)]) == Got(0, end)
    ensures ReadDebug(b, p, env, maxStack) == Got(0, end)
  {
  }

  lemma DebugStands(b: seq<Byte>, p: nat, locals: seq<Local>, names: seq<nat>) returns (l: seq<Byte>, n: seq<Byte>)
    requires Stands(b, p, WriteDebug(Debug(locals, names)))
    ensures l == WriteCounted(LocalRows(locals)) && n == WriteCounted(Numbers(names)) && |WriteDebug(Debug(locals, names))| == 1 + |l| + |n|
    ensures p + 1 + |l| + |n| <= |b| && ReadField(b, p, U8(2)) == Got(1, p + 1) && Stands(b, p + 1, l) && Stands(b, p + 1 + |l|, n)
  {
    l, n := WriteCounted(LocalRows(locals)), WriteCounted(Numbers(names));
    StandsSplitThree(b, p, WriteItem(One(1)), l, n);
    FieldReads(b, p, U8(2), One(1));
  }

  lemma DebugPartsRead(b: seq<Byte>, p: nat, debug: Debug, env: Env, maxStack: nat, l: seq<Byte>, n: seq<Byte>)
    requires debug.Debug? && DebugOk(debug, env.strings, maxStack) && p + 1 + |l| + |n| <= |b| && ReadField(b, p, U8(2)) == Got(1, p + 1)
    requires l == WriteCounted(LocalRows(debug.locals)) && n == WriteCounted(Numbers(debug.names))
    requires Stands(b, p + 1, l) && Stands(b, p + 1 + |l|, n)
    ensures ReadDebug(b, p, env, maxStack) == Got(0, p + 1 + |l| + |n|)
  {
    LocalsRead(b, p + 1, debug.locals, env.strings, maxStack, l);
    NumbersRead(b, p + 1 + |l|, debug.names, env.strings + 1, n);
    DebugFrom(b, p, env, maxStack, p + 1 + |l|, p + 1 + |l| + |n|);
  }

  lemma DebugReads(b: seq<Byte>, p: nat, debug: Debug, env: Env, maxStack: nat, w: seq<Byte>)
    requires DebugOk(debug, env.strings, maxStack) && w == WriteDebug(debug) && Stands(b, p, w)
    ensures p <= |b| && ReadDebug(b, p, env, maxStack) == Got(0, p + |w|)
  {
    if debug.Debug? {
      var l, n := DebugStands(b, p, debug.locals, debug.names);
      DebugPartsRead(b, p, debug, env, maxStack, l, n);
    } else {
      FieldReads(b, p, U8(2), One(0));
    }
  }

  lemma RowsOfFeedback(ns: seq<nat>)
    requires AllBelow32(ns, 0x1_0000_0000)
    ensures RowsMatch([U8(1), Var(WORD_LIMIT)], FeedbackRows(ns))
  {
  }

  lemma FeedbackReads(b: seq<Byte>, p: nat, ns: seq<nat>, w: seq<Byte>)
    requires AllBelow32(ns, 0x1_0000_0000) && |ns| <= MAX_OBJECTS && w == WriteCounted(FeedbackRows(ns)) && Stands(b, p, w)
    ensures p <= |b| && Counted(b, p, [U8(1), Var(WORD_LIMIT)]) == Got(0, p + |w|)
  {
    RowsOfFeedback(ns);
    CountedReads(b, p, [U8(1), Var(WORD_LIMIT)], FeedbackRows(ns));
  }

  lemma CostReads(b: seq<Byte>, p: nat, t: WrittenProto, w: seq<Byte>)
    requires t.cost < 0x1_0000_0000_0000_0000 && w == WriteCost(t) && Stands(b, p, w)
    ensures p <= |b| && (if t.flags / INLINABLE_BIT % 2 == 1 then ReadField(b, p, Var64) else Got(0, p)) == Got(0, p + |w|)
  {
    if t.flags / 8 % 2 == 1 {
      FieldReads(b, p, Var64, Grouped(t.cost));
    }
  }

  lemma EndFrom(b: seq<Byte>, p: nat, env: Env, prefix: Prefix, q: nat, q1: nat)
    requires p <= |b| && q <= |b| && q1 <= |b|
    requires (if env.version >= 11 then Counted(b, p, [U8(1), Var(WORD_LIMIT)]) else Got(0, p)) == Got(0, q)
    requires env.version >= 12 ==> (if prefix.flags / INLINABLE_BIT % 2 == 1 then ReadField(b, q, Var64) else Got(0, q)) == Got(0, q1)
    requires env.version >= 12 ==> q1 <= prefix.end <= |b|
    ensures ReadEnd(b, p, env, prefix) == Got(0, if env.version >= 12 then prefix.end else q)
  {
  }

  lemma EndStands(b: seq<Byte>, p: nat, t: WrittenProto, version: nat) returns (f: seq<Byte>, c: seq<Byte>)
    requires Stands(b, p, WriteEnd(t, version))
    ensures f == WriteFeedback(t, version) && Stands(b, p, f) && |WriteEnd(t, version)| == |f| + |WriteExtra(t, version)|
    ensures c == WriteCost(t) && (version >= 12 ==> Stands(b, p + |f|, c) && |WriteEnd(t, version)| >= |f| + |c|)
    ensures version < 12 ==> |WriteEnd(t, version)| == |f|
    ensures p + |WriteEnd(t, version)| <= |b|
  {
    f, c := WriteFeedback(t, version), WriteCost(t);
    StandsSplit(b, p, f, WriteExtra(t, version));
    if version >= 12 {
      StandsSplit(b, p + |f|, c, t.extra);
    }
  }

  lemma EndPartsRead(b: seq<Byte>, p: nat, t: WrittenProto, env: Env, prefix: Prefix, f: seq<Byte>, c: seq<Byte>)
    requires EndOk(t) && f == WriteFeedback(t, env.version) && c == WriteCost(t) && Stands(b, p, f)
    requires (env.version >= 4 ==> prefix.flags == t.flags)
    requires env.version >= 12 ==> Stands(b, p + |f|, c) && p + |f| + |c| <= prefix.end <= |b|
    ensures p <= |b| && ReadEnd(b, p, env, prefix) == Got(0, if env.version >= 12 then prefix.end else p + |f|)
  {
    if env.version >= 11 {
      FeedbackReads(b, p, t.feedback, f);
    }
    if env.version >= 12 {
      CostReads(b, p + |f|, t, c);
    }
    EndFrom(b, p, env, prefix, p + |f|, p + |f| + if env.version >= 12 then |c| else 0);
  }

  lemma EndReads(b: seq<Byte>, p: nat, t: WrittenProto, env: Env, prefix: Prefix, w: seq<Byte>)
    requires EndOk(t) && w == WriteEnd(t, env.version) && Stands(b, p, w) && (env.version >= 4 ==> prefix.flags == t.flags)
    requires env.version >= 12 ==> prefix.end == p + |w|
    ensures p <= |b| && ReadEnd(b, p, env, prefix) == Got(0, p + |w|)
  {
    var f, c := EndStands(b, p, t, env.version);
    EndPartsRead(b, p, t, env, prefix, f, c);
  }

  // ---------- the tail ----------

  /** A reader of one part of the input, by the place it starts at. */
  type Step = nat -> Read<nat>

  function Then(first: Step, second: Step): Step {
    (p: nat) =>
      match first(p) {
        case Bad => Bad
        case Got(_, q) => second(q)
      }
  }

  ghost predicate Taken(b: seq<Byte>, w: seq<Byte>, read: Step, p: nat) {
    Stands(b, p, w) ==> read(p) == Got(0, p + |w|)
  }

  /** Wherever `w` stands, the reader takes it and nothing else. */
  ghost predicate Takes(b: seq<Byte>, w: seq<Byte>, read: Step) {
    forall p: nat {:trigger Taken(b, w, read, p)} :: Taken(b, w, read, p)
  }

  ghost predicate TakenTo(b: seq<Byte>, w: seq<Byte>, ends: bool, read: nat -> Step, p: nat, end: nat) {
    Stands(b, p, w) && (ends ==> end == p + |w|) ==> read(end)(p) == Got(0, p + |w|)
  }

  /** The same for a reader that is told where the prototype ends, if it `ends` where it says. */
  ghost predicate TakesTo(b: seq<Byte>, w: seq<Byte>, ends: bool, read: nat -> Step) {
    forall p: nat, end: nat {:trigger TakenTo(b, w, ends, read, p, end)} :: TakenTo(b, w, ends, read, p, end)
  }

  function ThenTo(first: Step, second: nat -> Step): nat -> Step {
    end => Then(first, second(end))
  }

  lemma ThenTakes(b: seq<Byte>, w1: seq<Byte>, w2: seq<Byte>, first: Step, second: nat -> Step, ends: bool)
    requires Takes(b, w1, first) && TakesTo(b, w2, ends, second)
    ensures TakesTo(b, w1 + w2, ends, ThenTo(first, second))
  {
    forall p: nat, end: nat ensures TakenTo(b, w1 + w2, ends, ThenTo(first, second), p, end) {
      if Stands(b, p, w1 + w2) {
        StandsSplit(b, p, w1, w2);
        assert Taken(b, w1, first, p);
        assert TakenTo(b, w2, ends, second, p + |w1|, end);
      }
    }
  }

  ghost predicate SameAt(read: nat -> Step, other: nat -> Step, p: nat, end: nat) {
    read(end)(p) == other(end)(p)
  }

  ghost predicate Same(read: nat -> Step, other: nat -> Step) {
    forall p: nat, end: nat {:trigger SameAt(read, other, p, end)} :: SameAt(read, other, p, end)
  }

  lemma SameTakes(b: seq<Byte>, w: seq<Byte>, ends: bool, read: nat -> Step, other: nat -> Step)
    requires TakesTo(b, w, ends, read) && Same(read, other)
    ensures TakesTo(b, w, ends, other)
  {
    forall p: nat, end: nat ensures TakenTo(b, w, ends, other, p, end) {
      assert TakenTo(b, w, ends, read, p, end) && SameAt(read, other, p, end);
    }
  }

  // ----- the readers of the tail -----

  function CountedStep(b: seq<Byte>, fs: seq<Field>): Step {
    (p: nat) => if p <= |b| then Counted(b, p, fs) else Bad
  }

  function LinesStep(b: seq<Byte>, words: nat): Step {
    (p: nat) => if p <= |b| then ReadLines(b, p, words) else Bad
  }

  function DebugStep(b: seq<Byte>, env: Env, maxStack: nat): Step {
    (p: nat) => if p <= |b| then ReadDebug(b, p, env, maxStack) else Bad
  }

  function EndStep(b: seq<Byte>, env: Env, prefix: Prefix): nat -> Step {
    end => (p: nat) => if p <= |b| then ReadEnd(b, p, env, prefix.(end := end)) else Bad
  }

  function InfoStep(b: seq<Byte>, env: Env, prefix: Prefix, words: nat): nat -> Step {
    end => (p: nat) => if p <= |b| then ReadInfo(b, p, env, prefix.(end := end), words) else Bad
  }

  function TailStep(b: seq<Byte>, env: Env, prefix: Prefix, words: nat): nat -> Step {
    end => (p: nat) => if p <= |b| then ReadTail(b, p, env, prefix.(end := end), words) else Bad
  }

  lemma InfoAt(b: seq<Byte>, p: nat, env: Env, prefix: Prefix, words: nat, lines: Step, debug: Step, end: Step)
    requires lines(p) == (if p <= |b| then ReadLines(b, p, words) else Bad)
    requires p <= |b| && lines(p).Got? ==> debug(lines(p).pos) == ReadDebug(b, lines(p).pos, env, prefix.maxStack)
    requires p <= |b| && lines(p).Got? && debug(lines(p).pos).Got? ==>
      end(debug(lines(p).pos).pos) == ReadEnd(b, debug(lines(p).pos).pos, env, prefix)
    ensures Then(lines, Then(debug, end))(p) == if p <= |b| then ReadInfo(b, p, env, prefix, words) else Bad
  {
  }

  lemma InfoIsSteps(b: seq<Byte>, env: Env, prefix: Prefix, words: nat)
    ensures Same(ThenTo(LinesStep(b, words), ThenTo(DebugStep(b, env, prefix.maxStack), EndStep(b, env, prefix))),
                 InfoStep(b, env, prefix, words))
  {
    var lines, debug, end := LinesStep(b, words), DebugStep(b, env, prefix.maxStack), EndStep(b, env, prefix);
    var steps, info := ThenTo(lines, ThenTo(debug, end)), InfoStep(b, env, prefix, words);
    forall p: nat, e: nat ensures SameAt(steps, info, p, e) {
      InfoAt(b, p, env, prefix.(end := e), words, lines, debug, end(e));
    }
  }

  lemma TailAtSteps(b: seq<Byte>, p: nat, env: Env, prefix: Prefix, words: nat, children: Step, names: Step, info: Step)
    requires children(p) == (if p <= |b| then Counted(b, p, [Var(env.protos)]) else Bad)
    requires p <= |b| && children(p).Got? ==>
      var r := ReadFields(b, children(p).pos, [Var(WORD_LIMIT), Var(env.strings + 1)], 0, []);
      names(children(p).pos) == if r.Got? then Got(0, r.pos) else Bad
    requires p <= |b| && children(p).Got? && names(children(p).pos).Got? ==>
      info(names(children(p).pos).pos) == ReadInfo(b, names(children(p).pos).pos, env, prefix, words)
    ensures Then(children, Then(names, info))(p) == if p <= |b| then ReadTail(b, p, env, prefix, words) else Bad
  {
  }

  lemma TailIsSteps(b: seq<Byte>, env: Env, prefix: Prefix, words: nat)
    ensures Same(ThenTo(CountedStep(b, [Var(env.protos)]),
                        ThenTo(RowReader(b, [Var(WORD_LIMIT), Var(env.strings + 1)]), InfoStep(b, env, prefix, words))),
                 TailStep(b, env, prefix, words))
  {
    var children, names := CountedStep(b, [Var(env.protos)]), RowReader(b, [Var(WORD_LIMIT), Var(env.strings + 1)]);
    var info := InfoStep(b, env, prefix, words);
    var steps, tail := ThenTo(children, ThenTo(names, info)), TailStep(b, env, prefix, words);
    forall p: nat, e: nat ensures SameAt(steps, tail, p, e) {
      TailAtSteps(b, p, env, prefix.(end := e), words, children, names, info(e));
    }
  }

  // ----- the parts taken -----

  lemma ChildrenTaken(b: seq<Byte>, ns: seq<nat>, limit: nat)
    requires |ns| <= MAX_OBJECTS && AllBelow32(ns, limit)
    ensures Takes(b, WriteCounted(Numbers(ns)), CountedStep(b, [Var(limit)]))
  {
    var w, read := WriteCounted(Numbers(ns)), CountedStep(b, [Var(limit)]);
    forall p: nat ensures Taken(b, w, read, p) {
      if Stands(b, p, w) {
        NumbersRead(b, p, ns, limit, w);
      }
    }
  }

  lemma NamesTaken(b: seq<Byte>, t: WrittenProto, strings: nat)
    requires NamesOk(t, strings)
    ensures Takes(b, WriteNames(t), RowReader(b, [Var(WORD_LIMIT), Var(strings + 1)]))
  {
    var w, read := WriteNames(t), RowReader(b, [Var(WORD_LIMIT), Var(strings + 1)]);
    forall p: nat ensures Taken(b, w, read, p) {
      if Stands(b, p, w) {
        RowReads(b, p, [Var(WORD_LIMIT), Var(strings + 1)], [Grouped(t.line), Grouped(t.name)]);
      }
    }
  }

  lemma LinesTaken(b: seq<Byte>, lines: Lines, words: nat)
    requires LinesOk(lines, words)
    ensures Takes(b, WriteLines(lines), LinesStep(b, words))
  {
    var w, read := WriteLines(lines), LinesStep(b, words);
    forall p: nat ensures Taken(b, w, read, p) {
      if Stands(b, p, w) {
        LinesRead(b, p, lines, words, w);
      }
    }
  }

  lemma DebugTaken(b: seq<Byte>, debug: Debug, env: Env, maxStack: nat)
    requires DebugOk(debug, env.strings, maxStack)
    ensures Takes(b, WriteDebug(debug), DebugStep(b, env, maxStack))
  {
    var w, read := WriteDebug(debug), DebugStep(b, env, maxStack);
    forall p: nat ensures Taken(b, w, read, p) {
      if Stands(b, p, w) {
        DebugReads(b, p, debug, env, maxStack, w);
      }
    }
  }

  lemma EndTaken(b: seq<Byte>, t: WrittenProto, env: Env, prefix: Prefix)
    requires EndOk(t) && (env.version >= 4 ==> prefix.flags == t.flags)
    ensures TakesTo(b, WriteEnd(t, env.version), env.version >= 12, EndStep(b, env, prefix))
  {
    var w, read, ends := WriteEnd(t, env.version), EndStep(b, env, prefix), env.version >= 12;
    forall p: nat, end: nat ensures TakenTo(b, w, ends, read, p, end) {
      if Stands(b, p, w) && (ends ==> end == p + |w|) {
        EndReads(b, p, t, env, prefix.(end := end), w);
      }
    }
  }

  lemma FiveTaken(b: seq<Byte>, w1: seq<Byte>, w2: seq<Byte>, w3: seq<Byte>, w4: seq<Byte>, w5: seq<Byte>, r1: Step, r2: Step, r3: Step,
                  r4: Step, r5: nat -> Step, info: nat -> Step, tail: nat -> Step, ends: bool)
    requires Takes(b, w1, r1) && Takes(b, w2, r2) && Takes(b, w3, r3) && Takes(b, w4, r4) && TakesTo(b, w5, ends, r5)
    requires Same(ThenTo(r3, ThenTo(r4, r5)), info) && Same(ThenTo(r1, ThenTo(r2, info)), tail)
    ensures TakesTo(b, w1 + (w2 + (w3 + (w4 + w5))), ends, tail)
  {
    ThenTakes(b, w4, w5, r4, r5, ends);
    ThenTakes(b, w3, w4 + w5, r3, ThenTo(r4, r5), ends);
    SameTakes(b, w3 + (w4 + w5), ends, ThenTo(r3, ThenTo(r4, r5)), info);
    ThenTakes(b, w2, w3 + (w4 + w5), r2, info, ends);
    ThenTakes(b, w1, w2 + (w3 + (w4 + w5)), r1, ThenTo(r2, info), ends);
    SameTakes(b, w1 + (w2 + (w3 + (w4 + w5))), ends, ThenTo(r1, ThenTo(r2, info)), tail);
  }

  lemma TailTaken(b: seq<Byte>, t: WrittenProto, env: Env, prefix: Prefix)
    requires TailOk(t, env) && prefix.maxStack == t.maxStack && (env.version >= 4 ==> prefix.flags == t.flags)
    ensures TakesTo(b, WriteTail(t, env.version), env.version >= 12, TailStep(b, env, prefix, t.words))
  {
    ChildrenTaken(b, t.children, env.protos);
    NamesTaken(b, t, env.strings);
    LinesTaken(b, t.lines, t.words);
    DebugTaken(b, t.debug, env, prefix.maxStack);
    EndTaken(b, t, env, prefix);
    InfoIsSteps(b, env, prefix, t.words);
    TailIsSteps(b, env, prefix, t.words);
    FiveTaken(b, WriteCounted(Numbers(t.children)), WriteNames(t), WriteLines(t.lines), WriteDebug(t.debug), WriteEnd(t, env.version),
              CountedStep(b, [Var(env.protos)]), RowReader(b, [Var(WORD_LIMIT), Var(env.strings + 1)]), LinesStep(b, t.words),
              DebugStep(b, env, prefix.maxStack), EndStep(b, env, prefix), InfoStep(b, env, prefix, t.words),
              TailStep(b, env, prefix, t.words), env.version >= 12);
  }

  // ---------- the front ----------

  /** What the parts of a prototype are read with. */
  ghost predicate PrefixFits(t: WrittenProto, version: nat, prefix: Prefix, end: nat) {
    prefix.maxStack == t.maxStack && (version >= 4 ==> prefix.flags == t.flags) && (version >= 12 ==> prefix.end == end)
  }

  lemma RegistersRead(b: seq<Byte>, p: nat, t: WrittenProto, w: seq<Byte>) returns (values: seq<nat>)
    requires HeadOk(t) && w == WriteRegisters(t) && Stands(b, p, w)
    ensures p <= |b| && ReadFields(b, p, [U8(256), U8(256), U8(201), U8(2)], 0, []) == Got(values, p + |w|)
    ensures |values| == 4 && values[0] == t.maxStack && values[1] == t.parameters
  {
    var fs, xs := [U8(256), U8(256), U8(201), U8(2)], [One(t.maxStack), One(t.parameters), One(t.upvalues), One(t.vararg)];
    RowReads(b, p, fs, xs);
    values := ValuesOf(fs, xs);
  }

  lemma TypesRead(b: seq<Byte>, p: nat, t: WrittenProto, env: Env, end: nat, w: seq<Byte>)
    requires HeadOk(t) && w == WriteTypes(t, env.version) && Stands(b, p, w)
    ensures p <= |b|
    ensures ReadFlags(b, p, env, end, t.maxStack) == Got(Prefix(end, t.maxStack, if env.version >= 4 then t.flags else 0), p + |w|)
  {
    if env.version >= 4 {
      var fs, xs := [U8(256), Var(WORD_LIMIT)], [One(t.flags), Grouped(|t.typeInfo|)];
      StandsSplit(b, p, WriteItems(xs), t.typeInfo);
      RowReads(b, p, fs, xs);
    }
  }

  lemma PrefixFrom(b: seq<Byte>, p: nat, env: Env, size: nat, q: nat, values: seq<nat>, q1: nat, prefix: Prefix, end: nat)
    requires p <= |b| && q <= |b| && q1 <= |b| && |values| == 4 && values[1] <= values[0]
    requires (if env.version >= 12 then ReadField(b, p, Var(WORD_LIMIT)) else Got(0, p)) == Got(size, q)
    requires env.version >= 12 ==> 0 < size <= |b| - q
    requires ReadFields(b, q, [U8(256), U8(256), U8(201), U8(2)], 0, []) == Got(values, q1)
    requires ReadFlags(b, q1, env, if env.version >= 12 then q + size else |b|, values[0]) == Got(prefix, end)
    ensures ReadPrefix(b, p, env) == Got(prefix, end)
  {
  }

  lemma SizeReads(b: seq<Byte>, p: nat, version: nat, body: nat, w: seq<Byte>)
    requires body < 0x1_0000_0000 && w == WriteSize(body, version) && Stands(b, p, w)
    ensures p <= |b|
    ensures (if version >= 12 then ReadField(b, p, Var(WORD_LIMIT)) else Got(0, p)) == Got(if version >= 12 then body else 0, p + |w|)
  {
    if version >= 12 {
      FieldReads(b, p, Var(WORD_LIMIT), Grouped(body));
    }
  }

  /** Size, registers and types stand one behind the other, and the body they open lies in the input. */
  lemma PrefixReads(b: seq<Byte>, p: nat, t: WrittenProto, env: Env, body: nat, size: seq<Byte>, registers: seq<Byte>, types: seq<Byte>)
    returns (prefix: Prefix)
    requires HeadOk(t) && 0 < body < 0x1_0000_0000 && size == WriteSize(body, env.version)
    requires registers == WriteRegisters(t) && types == WriteTypes(t, env.version)
    requires Stands(b, p, size) && Stands(b, p + |size|, registers) && Stands(b, p + |size| + |registers|, types)
    requires p + |size| + body <= |b|
    ensures p <= |b| && ReadPrefix(b, p, env) == Got(prefix, p + |size| + |registers| + |types|)
    ensures PrefixFits(t, env.version, prefix, p + |size| + body)
  {
    var q := p + |size|;
    var q1 := q + |registers|;
    SizeReads(b, p, env.version, body, size);
    var values := RegistersRead(b, q, t, registers);
    var end := if env.version >= 12 then q + body else |b|;
    TypesRead(b, q1, t, env, end, types);
    prefix := Prefix(end, t.maxStack, if env.version >= 4 then t.flags else 0);
    PrefixFrom(b, p, env, if env.version >= 12 then body else 0, q, values, q1, prefix, q1 + |types|);
  }

  lemma CodeReads(b: seq<Byte>, p: nat, words: nat, code: seq<Byte>, total: nat, count: seq<Byte>)
    requires |code| == 4 * words && total + words <= MAX_OBJECTS && count == Leb(words)
    requires Stands(b, p, count) && Stands(b, p + |count|, code)
    ensures p <= |b| && ReadCode(b, p, total) == Got(CodeRange(p + |count|, words), p + |count| + |code|)
  {
    CountReads(b, p, words);
  }

  // ---------- a whole prototype ----------

  lemma ChainFrom(b: seq<Byte>, p: nat, words: nat, prefixReader: Decoder<Prefix>, constantsReader: Decoder<nat>,
                  tailReader: (Prefix, nat) -> Decoder<nat>, prefix: Prefix, q1: nat, range: CodeRange, q2: nat, total: nat, q3: nat, end: nat)
    requires prefixReader(b, p) == Got(prefix, q1) && q1 <= |b| && ReadCode(b, q1, words) == Got(range, q2)
    requires constantsReader(b, q2) == Got(total, q3) && tailReader(prefix, range.words)(b, q3) == Got(0, end)
    ensures ProtoChain(b, p, words, prefixReader, constantsReader, tailReader) == Got(Proto(range, words + range.words, total), end)
  {
  }

  /** Where the words begin, and where the constants and the tail do, from the beginning of the prototype. */
  function CodeAt(x: Parts, version: nat): nat {
    |WriteSize(|Assembled(x)|, version)| + |x.head| + |Leb(x.words)|
  }

  function ConstantsAt(x: Parts, version: nat): nat {
    CodeAt(x, version) + |x.code|
  }

  function TailAt(x: Parts, version: nat): nat {
    ConstantsAt(x, version) + |x.constants|
  }

  function EndAt(x: Parts, version: nat): nat {
    TailAt(x, version) + |x.tail|
  }

  /** The parts stand one behind the other. */
  ghost predicate PartsStand(b: seq<Byte>, p: nat, x: Parts, version: nat) {
    var q := p + |WriteSize(|Assembled(x)|, version)|;
    && Stands(b, p, WriteSize(|Assembled(x)|, version)) && Stands(b, q, x.head) && Stands(b, q + |x.head|, Leb(x.words))
    && Stands(b, p + CodeAt(x, version), x.code) && Stands(b, p + ConstantsAt(x, version), x.constants)
    && Stands(b, p + TailAt(x, version), x.tail)
  }

  lemma AssembledStands(b: seq<Byte>, q: nat, x: Parts)
    requires Stands(b, q, Assembled(x))
    ensures Stands(b, q, x.head) && Stands(b, q + |x.head|, Leb(x.words)) && Stands(b, q + |x.head| + |Leb(x.words)|, x.code)
    ensures Stands(b, q + |x.head| + |Leb(x.words)| + |x.code|, x.constants)
    ensures Stands(b, q + |x.head| + |Leb(x.words)| + |x.code| + |x.constants|, x.tail)
    ensures |Assembled(x)| == |x.head| + |Leb(x.words)| + |x.code| + |x.constants| + |x.tail|
  {
    var count, rest := Leb(x.words), x.code + (x.constants + x.tail);
    StandsSplitThree(b, q, x.head, count, rest);
    StandsSplitThree(b, q + |x.head| + |count|, x.code, x.constants, x.tail);
  }

  lemma SizedStands(b: seq<Byte>, p: nat, x: Parts, version: nat)
    requires Stands(b, p, Sized(x, version))
    ensures PartsStand(b, p, x, version) && |Sized(x, version)| == EndAt(x, version)
    ensures |Assembled(x)| == |x.head| + |Leb(x.words)| + |x.code| + |x.constants| + |x.tail|
  {
    StandsSplit(b, p, WriteSize(|Assembled(x)|, version), Assembled(x));
    AssembledStands(b, p + |WriteSize(|Assembled(x)|, version)|, x);
  }

  // ----- what is asked of the three readers -----

  ghost predicate HeadTaken(b: seq<Byte>, p: nat, head: seq<Byte>, version: nat, body: nat, read: Decoder<Prefix>, prefix: Prefix) {
    var q := p + |WriteSize(body, version)|;
    Stands(b, p, WriteSize(body, version)) && Stands(b, q, head) && q + body <= |b| && 0 < body < WORD_LIMIT ==>
      read(b, p) == Got(if version >= 12 then prefix.(end := q + body) else prefix, q + |head|)
  }

  /** Behind its size, the head reads as `prefix`. */
  ghost predicate TakesHead(b: seq<Byte>, head: seq<Byte>, version: nat, read: Decoder<Prefix>, prefix: Prefix) {
    forall p: nat, body: nat {:trigger HeadTaken(b, p, head, version, body, read, prefix)} ::
      HeadTaken(b, p, head, version, body, read, prefix)
  }

  ghost predicate ConstantsTaken(b: seq<Byte>, p: nat, w: seq<Byte>, read: Decoder<nat>, total: nat) {
    Stands(b, p, w) ==> read(b, p) == Got(total, p + |w|)
  }

  ghost predicate TakesConstants(b: seq<Byte>, w: seq<Byte>, read: Decoder<nat>, total: nat) {
    forall p: nat {:trigger ConstantsTaken(b, p, w, read, total)} :: ConstantsTaken(b, p, w, read, total)
  }

  /** A tail reader, as a step on this input. */
  function StepOf(b: seq<Byte>, tail: (Prefix, nat) -> Decoder<nat>, words: nat, prefix: Prefix): nat -> Step {
    end => (p: nat) => tail(prefix.(end := end), words)(b, p)
  }

  lemma ChainReads(b: seq<Byte>, p: nat, x: Parts, version: nat, words: nat, total: nat, prefixReader: Decoder<Prefix>,
                   constantsReader: Decoder<nat>, tailReader: (Prefix, nat) -> Decoder<nat>, prefix: Prefix)
    requires PartsStand(b, p, x, version) && |x.code| == 4 * x.words && words + x.words <= MAX_OBJECTS && 0 < |Assembled(x)| < WORD_LIMIT
    requires |Assembled(x)| == |x.head| + |Leb(x.words)| + |x.code| + |x.constants| + |x.tail|
    requires TakesHead(b, x.head, version, prefixReader, prefix) && TakesConstants(b, x.constants, constantsReader, total)
    requires TakesTo(b, x.tail, version >= 12, StepOf(b, tailReader, x.words, prefix))
    ensures ProtoChain(b, p, words, prefixReader, constantsReader, tailReader)
         == Got(Proto(CodeRange(p + CodeAt(x, version), x.words), words + x.words, total), p + EndAt(x, version))
  {
    var q := p + |WriteSize(|Assembled(x)|, version)|;
    assert HeadTaken(b, p, x.head, version, |Assembled(x)|, prefixReader, prefix);
    var prefix' := if version >= 12 then prefix.(end := q + |Assembled(x)|) else prefix;
    CodeReads(b, q + |x.head|, x.words, x.code, words, Leb(x.words));
    assert ConstantsTaken(b, p + ConstantsAt(x, version), x.constants, constantsReader, total);
    var end := prefix'.end;
    assert prefix.(end := end) == prefix';
    assert TakenTo(b, x.tail, version >= 12, StepOf(b, tailReader, x.words, prefix), p + TailAt(x, version), end);
    ChainFrom(b, p, words, prefixReader, constantsReader, tailReader, prefix', q + |x.head|,
              CodeRange(p + CodeAt(x, version), x.words), p + ConstantsAt(x, version), total, p + TailAt(x, version), p + EndAt(x, version));
  }

  lemma HeadParts(b: seq<Byte>, p: nat, t: WrittenProto, env: Env, body: nat, size: seq<Byte>, registers: seq<Byte>, types: seq<Byte>)
    requires HeadOk(t) && 0 < body < WORD_LIMIT && size == WriteSize(body, env.version)
    requires registers == WriteRegisters(t) && types == WriteTypes(t, env.version)
    requires Stands(b, p, size) && Stands(b, p + |size|, registers + types)
    requires p + |size| + body <= |b|
    ensures p <= |b|
    ensures ReadPrefix(b, p, env)
         == Got(Prefix(if env.version >= 12 then p + |size| + body else |b|, t.maxStack, if env.version >= 4 then t.flags else 0),
                p + |size| + |registers + types|)
  {
    StandsSplit(b, p + |size|, registers, types);
    var prefix := PrefixReads(b, p, t, env, body, size, registers, types);
  }

  lemma HeadReads(b: seq<Byte>, t: WrittenProto, env: Env)
    requires HeadOk(t)
    ensures TakesHead(b, WriteHead(t, env.version), env.version, PrefixReader(env),
                      Prefix(|b|, t.maxStack, if env.version >= 4 then t.flags else 0))
  {
    var head, prefix := WriteHead(t, env.version), Prefix(|b|, t.maxStack, if env.version >= 4 then t.flags else 0);
    forall p: nat, body: nat ensures HeadTaken(b, p, head, env.version, body, PrefixReader(env), prefix) {
      var size := WriteSize(body, env.version);
      if Stands(b, p, size) && Stands(b, p + |size|, head) && p + |size| + body <= |b| && 0 < body < WORD_LIMIT {
        HeadParts(b, p, t, env, body, size, WriteRegisters(t), WriteTypes(t, env.version));
      }
    }
  }

  ghost predicate TableTakenAt(b: seq<Byte>, w: seq<Byte>, n: nat, list: (nat, nat) -> Read<nat>, p: nat) {
    Stands(b, p, w) ==> TableAt(b, p, n, list, p + |w|)
  }

  /** Wherever `w` stands, it is a count `n` and as many entries. */
  ghost predicate TakesTable(b: seq<Byte>, w: seq<Byte>, n: nat, list: (nat, nat) -> Read<nat>) {
    forall p: nat {:trigger TableTakenAt(b, w, n, list, p)} :: TableTakenAt(b, w, n, list, p)
  }

  lemma TableTakes<T>(b: seq<Byte>, xs: seq<T>, write: T -> seq<Byte>, entry: nat -> Read<nat>, list: (nat, nat) -> Read<nat>)
    requires |xs| <= MAX_OBJECTS && ReadsEach(b, xs, write, entry) && IsListOf(|b|, entry, list)
    ensures TakesTable(b, Leb(|xs|) + Joined(xs, write), |xs|, list)
  {
    var w := Leb(|xs|) + Joined(xs, write);
    forall p: nat ensures TableTakenAt(b, w, |xs|, list, p) {
      if Stands(b, p, w) {
        TableTaken(b, p, xs, write, entry, list);
      }
    }
  }

  lemma ConstantTableTakes(b: seq<Byte>, w: seq<Byte>, n: nat, env: Env, total: nat, list: (nat, nat) -> Read<nat>)
    requires TakesTable(b, w, n, list) && ListsConstants(b, env, n, list) && total + n <= MAX_OBJECTS
    ensures TakesConstants(b, w, Envelope.ConstantsReader(env, total), total + n)
  {
    var read, sum := Envelope.ConstantsReader(env, total), total + n;
    forall p: nat ensures ConstantsTaken(b, p, w, read, sum) {
      if Stands(b, p, w) {
        assert TableTakenAt(b, w, n, list, p);
        ConstantTableAt(b, p, n, env, total, list, p + |w|);
      }
    }
  }

  lemma ConstantsTake(b: seq<Byte>, cs: seq<Constant>, env: Env, total: nat)
    requires ConstantsOk(cs, env, |cs|) && total + |cs| <= MAX_OBJECTS
    ensures TakesConstants(b, WriteConstants(cs), Envelope.ConstantsReader(env, total), total + |cs|)
  {
    EachConstantReads(b, cs, env, |cs|);
    ConstantsAreList(b, env, |cs|);
    EntriesAreConstants(b, env, |cs|);
    TableTakes(b, cs, ConstantWriter(), EntryReader(b, env, |cs|), EntriesReader(b, env, |cs|));
    ConstantTableTakes(b, WriteConstants(cs), |cs|, env, total, EntriesReader(b, env, |cs|));
  }

  lemma TailTakes(b: seq<Byte>, t: WrittenProto, env: Env, prefix: Prefix)
    requires TailOk(t, env) && prefix.maxStack == t.maxStack && (env.version >= 4 ==> prefix.flags == t.flags)
    ensures TakesTo(b, WriteTail(t, env.version), env.version >= 12, StepOf(b, TailReader(env), t.words, prefix))
  {
    TailTaken(b, t, env, prefix);
    TailStepIs(b, env, prefix, t.words);
    SameTakes(b, WriteTail(t, env.version), env.version >= 12, TailStep(b, env, prefix, t.words), StepOf(b, TailReader(env), t.words, prefix));
  }

  lemma TailStepIs(b: seq<Byte>, env: Env, prefix: Prefix, words: nat)
    ensures Same(TailStep(b, env, prefix, words), StepOf(b, TailReader(env), words, prefix))
  {
  }

  /** The prefix a head reads as where the body ends the input. */
  function PrefixOf(b: seq<Byte>, t: WrittenProto, version: nat): Prefix {
    Prefix(|b|, t.maxStack, if version >= 4 then t.flags else 0)
  }

  lemma SizedReads(b: seq<Byte>, p: nat, x: Parts, version: nat, words: nat, total: nat, prefixReader: Decoder<Prefix>,
                   constantsReader: Decoder<nat>, tailReader: (Prefix, nat) -> Decoder<nat>, prefix: Prefix)
    requires Stands(b, p, Sized(x, version)) && |x.code| == 4 * x.words && words + x.words <= MAX_OBJECTS && 0 < |Assembled(x)| < WORD_LIMIT
    requires TakesHead(b, x.head, version, prefixReader, prefix) && TakesConstants(b, x.constants, constantsReader, total)
    requires TakesTo(b, x.tail, version >= 12, StepOf(b, tailReader, x.words, prefix))
    ensures ProtoChain(b, p, words, prefixReader, constantsReader, tailReader)
         == Got(Proto(CodeRange(p + CodeAt(x, version), x.words), words + x.words, total), p + |Sized(x, version)|)
  {
    SizedStands(b, p, x, version);
    ChainReads(b, p, x, version, words, total, prefixReader, constantsReader, tailReader, prefix);
  }

  // ----- a prototype taken -----

  ghost predicate ChainsAt(b: seq<Byte>, read: ProtoReader, words: nat, constants: nat, prefixReader: Decoder<Prefix>,
                           constantsReader: Decoder<nat>, tailReader: (Prefix, nat) -> Decoder<nat>, p: nat)
  {
    p <= |b| ==> read(b, p, words, constants) == ProtoChain(b, p, words, prefixReader, constantsReader, tailReader)
  }

  /** `read` is made of the three readers. */
  ghost predicate Chains(b: seq<Byte>, read: ProtoReader, words: nat, constants: nat, prefixReader: Decoder<Prefix>,
                         constantsReader: Decoder<nat>, tailReader: (Prefix, nat) -> Decoder<nat>)
  {
    forall p: nat {:trigger ChainsAt(b, read, words, constants, prefixReader, constantsReader, tailReader, p)} ::
      ChainsAt(b, read, words, constants, prefixReader, constantsReader, tailReader, p)
  }

  ghost predicate TakenBy(b: seq<Byte>, read: ProtoReader, x: Parts, version: nat, p: nat, words: nat, constants: nat) {
    Stands(b, p, Sized(x, version)) && words + x.words <= MAX_OBJECTS && constants + x.count <= MAX_OBJECTS ==>
      read(b, p, words, constants)
      == Got(Proto(CodeRange(p + CodeAt(x, version), x.words), words + x.words, constants + x.count), p + |Sized(x, version)|)
  }

  lemma SizedTaken(b: seq<Byte>, p: nat, x: Parts, version: nat, words: nat, constants: nat, read: ProtoReader,
                   prefixReader: Decoder<Prefix>, constantsReader: Decoder<nat>, tailReader: (Prefix, nat) -> Decoder<nat>, prefix: Prefix)
    requires Chains(b, read, words, constants, prefixReader, constantsReader, tailReader)
    requires |x.code| == 4 * x.words && |x.head| > 0 && |b| <= MAX_INPUT_BYTES
    requires TakesHead(b, x.head, version, prefixReader, prefix) && TakesTo(b, x.tail, version >= 12, StepOf(b, tailReader, x.words, prefix))
    requires constants + x.count <= MAX_OBJECTS ==> TakesConstants(b, x.constants, constantsReader, constants + x.count)
    ensures TakenBy(b, read, x, version, p, words, constants)
  {
    if Stands(b, p, Sized(x, version)) && words + x.words <= MAX_OBJECTS && constants + x.count <= MAX_OBJECTS {
      SizedReads(b, p, x, version, words, constants + x.count, prefixReader, constantsReader, tailReader, prefix);
      assert ChainsAt(b, read, words, constants, prefixReader, constantsReader, tailReader, p);
    }
  }

  lemma ReaderChains(b: seq<Byte>, env: Env, words: nat, constants: nat)
    ensures Chains(b, ProtoReaderFor(env), words, constants, PrefixReader(env), Envelope.ConstantsReader(env, constants), TailReader(env))
  {
  }

  lemma HeadNotEmpty(t: WrittenProto, version: nat)
    ensures |WriteHead(t, version)| > 0
  {
    assert |WriteItems([One(t.maxStack), One(t.parameters), One(t.upvalues), One(t.vararg)])| > 0;
  }

  lemma HeadAndTailTake(b: seq<Byte>, t: WrittenProto, env: Env, x: Parts) returns (prefix: Prefix)
    requires ProtoOk(t, env) && x == PartsOf(t, env.version)
    ensures |x.code| == 4 * x.words && |x.head| > 0 && TakesHead(b, x.head, env.version, PrefixReader(env), prefix)
    ensures TakesTo(b, x.tail, env.version >= 12, StepOf(b, TailReader(env), x.words, prefix))
  {
    prefix := PrefixOf(b, t, env.version);
    HeadReads(b, t, env);
    HeadNotEmpty(t, env.version);
    TailTakes(b, t, env, prefix);
  }

  lemma TableOfConstantsTakes(b: seq<Byte>, t: WrittenProto, env: Env, x: Parts, constants: nat)
    requires ProtoOk(t, env) && x == PartsOf(t, env.version)
    ensures constants + x.count <= MAX_OBJECTS ==>
      TakesConstants(b, x.constants, Envelope.ConstantsReader(env, constants), constants + x.count)
  {
    if constants + x.count <= MAX_OBJECTS {
      ConstantsTake(b, t.constants, env, constants);
    }
  }

  /** A written prototype reads back: its code range, the totals with it, and where it ends. */
  lemma ProtoTaken(b: seq<Byte>, t: WrittenProto, env: Env, x: Parts, p: nat, words: nat, constants: nat)
    requires ProtoOk(t, env) && |b| <= MAX_INPUT_BYTES && x == PartsOf(t, env.version)
    ensures TakenBy(b, ProtoReaderFor(env), x, env.version, p, words, constants)
  {
    var prefix := HeadAndTailTake(b, t, env, x);
    TableOfConstantsTakes(b, t, env, x, constants);
    ReaderChains(b, env, words, constants);
    SizedTaken(b, p, x, env.version, words, constants, ProtoReaderFor(env), PrefixReader(env), Envelope.ConstantsReader(env, constants),
               TailReader(env), prefix);
  }
}
