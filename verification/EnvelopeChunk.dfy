/** Whole written envelopes: parsing one finds its version and exactly the code written. */
module EnvelopeChunk {
  import opened Bytes
  import opened Opcodes
  import opened Envelope
  import opened EnvelopeWriter

  /** What an envelope holds; what its version does not have is not written. */
  datatype Chunk = Chunk(version: nat, typeVersion: nat, strings: seq<seq<Byte>>, userdata: seq<(nat, nat)>, protos: seq<WrittenProto>,
                         main: nat, trailer: seq<Byte>)

  // ---------- strings and userdata types ----------

  function WriteString(s: seq<Byte>): seq<Byte> {
    Leb(|s|) + s
  }

  function StringWriter(): seq<Byte> -> seq<Byte> {
    s => WriteString(s)
  }

  lemma {:induction false} StringsRead(b: seq<Byte>, p: nat, strings: seq<seq<Byte>>, total: nat)
    requires Stands(b, p, Joined(strings, StringWriter())) && total + |Joined(strings, StringWriter())| <= MAX_INPUT_BYTES
    ensures p <= |b| && Strings(b, p, |strings|, total) == Got(0, p + |Joined(strings, StringWriter())|)
    decreases |strings|
  {
    if strings != [] {
      var s := strings[0];
      JoinedHead(b, p, strings, StringWriter());
      assert StringWriter()(s) == Leb(|s|) + s;
      StandsSplit(b, p, Leb(|s|), s);
      FieldReads(b, p, Var(WORD_LIMIT), Grouped(|s|));
      StringsRead(b, p + |WriteString(s)|, strings[1..], total + |s|);
    }
  }

  function WriteUserdatum(u: (nat, nat)): seq<Byte> {
    [u.0 % 256] + Leb(u.1)
  }

  function UserdataWriter(): ((nat, nat)) -> seq<Byte> {
    u => WriteUserdatum(u)
  }

  /** Indices and name ids, and a zero behind them. */
  function WriteUserdata(us: seq<(nat, nat)>): seq<Byte> {
    Joined(us, UserdataWriter()) + [0]
  }

  ghost predicate UserdataOk(us: seq<(nat, nat)>, strings: nat) {
    forall k :: 0 <= k < |us| ==> 0 < us[k].0 < 256 && us[k].1 <= strings && us[k].1 < WORD_LIMIT
  }

  lemma {:induction false} UserdataRead(b: seq<Byte>, p: nat, us: seq<(nat, nat)>, strings: nat, entries: nat)
    requires UserdataOk(us, strings) && entries + |us| <= 255 && Stands(b, p, WriteUserdata(us))
    ensures p <= |b| && Userdata(b, p, strings, entries) == Got(0, p + |WriteUserdata(us)|)
    decreases |us|
  {
    if us == [] {
      assert WriteUserdata(us) == [0];
      StandsAt(b, p, [0], 0);
    } else {
      var u := us[0];
      var rest := WriteUserdata(us[1..]);
      assert UserdataWriter()(u) == [u.0 % 256] + Leb(u.1);
      assert WriteUserdata(us) == UserdataWriter()(u) + rest;
      StandsSplit(b, p, UserdataWriter()(u), rest);
      StandsSplit(b, p, [u.0 % 256], Leb(u.1));
      StandsAt(b, p, [u.0 % 256], 0);
      FieldReads(b, p + 1, Var(strings + 1), Grouped(u.1));
      UserdataRead(b, p + |WriteUserdatum(u)|, us[1..], strings, entries + 1);
    }
  }

  // ---------- the header ----------

  function WriteVersions(c: Chunk): seq<Byte> {
    if c.version >= 4 then [c.version % 256, c.typeVersion % 256] else [c.version % 256]
  }

  function WriteTypes(c: Chunk): seq<Byte> {
    if c.version >= 4 && c.typeVersion == 3 then WriteUserdata(c.userdata) else []
  }

  function WriteStrings(c: Chunk): seq<Byte> {
    Leb(|c.strings|) + Joined(c.strings, StringWriter())
  }

  function WriteHeader(c: Chunk): seq<Byte> {
    WriteVersions(c) + (WriteStrings(c) + WriteTypes(c))
  }

  ghost predicate HeaderOk(c: Chunk) {
    && VERSION_MIN <= c.version <= VERSION_MAX && TYPE_VERSION_MIN <= c.typeVersion <= TYPE_VERSION_MAX
    && |c.strings| <= MAX_OBJECTS && |c.userdata| <= 255 && UserdataOk(c.userdata, |c.strings|)
  }

  lemma VersionsRead(b: seq<Byte>, c: Chunk, w: seq<Byte>)
    requires HeaderOk(c) && w == WriteVersions(c) && Stands(b, 0, w)
    ensures |w| <= |b| && ReadVersions(b) == Got((c.version, if c.version >= 4 then c.typeVersion else 0), |w|)
  {
    StandsAt(b, 0, w, 0);
    if c.version >= 4 {
      StandsAt(b, 0, w, 1);
    }
  }

  lemma StringTableReads(b: seq<Byte>, p: nat, c: Chunk, w: seq<Byte>) returns (q: nat)
    requires HeaderOk(c) && w == WriteStrings(c) && Stands(b, p, w) && |b| <= MAX_INPUT_BYTES
    ensures p <= q <= |b| && ReadField(b, p, Var(MAX_OBJECTS + 1)) == Got(|c.strings|, q)
    ensures p + |w| <= |b| && Strings(b, q, |c.strings|, 0) == Got(0, p + |w|)
  {
    q := TableStands(b, p, c.strings, StringWriter());
    StringsRead(b, q, c.strings, 0);
  }

  lemma TypesRead(b: seq<Byte>, p: nat, c: Chunk, w: seq<Byte>)
    requires HeaderOk(c) && w == WriteTypes(c) && Stands(b, p, w)
    ensures p <= |b|
    ensures (if (if c.version >= 4 then c.typeVersion else 0) == 3 then Userdata(b, p, |c.strings|, 0) else Got(0, p)) == Got(0, p + |w|)
  {
    if c.version >= 4 && c.typeVersion == 3 {
      UserdataRead(b, p, c.userdata, |c.strings|, 0);
    }
  }

  lemma HeaderFrom(b: seq<Byte>, version: nat, typeVersion: nat, q1: nat, strings: nat, q2: nat, q3: nat, q4: nat)
    requires q1 <= |b| && q2 <= |b| && q3 <= |b| && ReadVersions(b) == Got((version, typeVersion), q1)
    requires ReadField(b, q1, Var(MAX_OBJECTS + 1)) == Got(strings, q2) && Strings(b, q2, strings, 0) == Got(0, q3)
    requires (if typeVersion == 3 then Userdata(b, q3, strings, 0) else Got(0, q3)) == Got(0, q4)
    ensures ReadHeader(b) == Got(Header(version, strings), q4)
  {
  }

  lemma HeaderReads(b: seq<Byte>, c: Chunk)
    requires HeaderOk(c) && Stands(b, 0, WriteHeader(c)) && |b| <= MAX_INPUT_BYTES
    ensures ReadHeader(b) == Got(Header(c.version, |c.strings|), |WriteHeader(c)|)
  {
    var versions, strings, types := WriteVersions(c), WriteStrings(c), WriteTypes(c);
    StandsSplitThree(b, 0, versions, strings, types);
    VersionsRead(b, c, versions);
    var q := StringTableReads(b, |versions|, c, strings);
    TypesRead(b, |versions| + |strings|, c, types);
    HeaderFrom(b, c.version, if c.version >= 4 then c.typeVersion else 0, |versions|, |c.strings|, q, |versions| + |strings|,
               |versions| + |strings| + |types|);
  }

  // ---------- the prototypes ----------

  function SizedWriter(version: nat): Parts -> seq<Byte> {
    x => Sized(x, version)
  }

  function TotalWords(xs: seq<Parts>): nat {
    if xs == [] then 0 else xs[0].words + TotalWords(xs[1..])
  }

  function TotalConstants(xs: seq<Parts>): nat {
    if xs == [] then 0 else xs[0].count + TotalConstants(xs[1..])
  }

  /** Where the words of each prototype are, the first prototype standing at `p`. */
  function RangesOf(xs: seq<Parts>, version: nat, p: nat): (ranges: seq<CodeRange>)
    ensures |ranges| == |xs|
  {
    if xs == [] then []
    else [CodeRange(p + CodeAt(xs[0], version), xs[0].words)] + RangesOf(xs[1..], version, p + |Sized(xs[0], version)|)
  }

  /** The reader takes each of the prototypes, wherever it stands. */
  ghost predicate TakesEach(b: seq<Byte>, read: ProtoReader, xs: seq<Parts>, version: nat) {
    forall k: nat, p: nat, words: nat, constants: nat {:trigger TakenBy(b, read, xs[k], version, p, words, constants)} ::
      k < |xs| ==> TakenBy(b, read, xs[k], version, p, words, constants)
  }

  lemma TakesRest(b: seq<Byte>, read: ProtoReader, xs: seq<Parts>, version: nat)
    requires xs != [] && TakesEach(b, read, xs, version)
    ensures TakesEach(b, read, xs[1..], version)
  {
    forall k: nat, p: nat, words: nat, constants: nat | k < |xs[1..]|
      ensures TakenBy(b, read, xs[1..][k], version, p, words, constants)
    {
      assert xs[1..][k] == xs[k + 1];
      assert TakenBy(b, read, xs[k + 1], version, p, words, constants);
    }
  }

  lemma {:induction false} PrototypesRead(b: seq<Byte>, p: nat, read: ProtoReader, xs: seq<Parts>, version: nat, words: nat, constants: nat,
                                          before: seq<CodeRange>)
    requires TakesEach(b, read, xs, version) && Stands(b, p, Joined(xs, SizedWriter(version)))
    requires words + TotalWords(xs) <= MAX_OBJECTS && constants + TotalConstants(xs) <= MAX_OBJECTS
    ensures p <= |b|
    ensures ReadProtos(read, b, p, |xs|, words, constants, before)
         == Got(before + RangesOf(xs, version, p), p + |Joined(xs, SizedWriter(version))|)
    decreases |xs|
  {
    if xs == [] {
      assert before + RangesOf(xs, version, p) == before;
    } else {
      var x := xs[0];
      JoinedHead(b, p, xs, SizedWriter(version));
      assert SizedWriter(version)(x) == Sized(x, version);
      assert TakenBy(b, read, xs[0], version, p, words, constants);
      TakesRest(b, read, xs, version);
      var range := CodeRange(p + CodeAt(x, version), x.words);
      var q := p + |Sized(x, version)|;
      PrototypesRead(b, q, read, xs[1..], version, words + x.words, constants + x.count, before + [range]);
      assert before + [range] + RangesOf(xs[1..], version, q) == before + RangesOf(xs, version, p);
    }
  }

  function AllParts(ts: seq<WrittenProto>, version: nat): (xs: seq<Parts>)
    ensures |xs| == |ts| && forall k :: 0 <= k < |ts| ==> xs[k] == PartsOf(ts[k], version)
  {
    seq(|ts|, k requires 0 <= k < |ts| => PartsOf(ts[k], version))
  }

  ghost predicate ProtosOk(ts: seq<WrittenProto>, env: Env) {
    forall k {:trigger ProtoOk(ts[k], env)} :: 0 <= k < |ts| ==> ProtoOk(ts[k], env)
  }

  lemma ProtosTaken(b: seq<Byte>, ts: seq<WrittenProto>, env: Env)
    requires ProtosOk(ts, env) && |b| <= MAX_INPUT_BYTES
    ensures TakesEach(b, ProtoReaderFor(env), AllParts(ts, env.version), env.version)
  {
    var xs, read := AllParts(ts, env.version), ProtoReaderFor(env);
    forall k: nat, p: nat, words: nat, constants: nat | k < |xs| ensures TakenBy(b, read, xs[k], env.version, p, words, constants) {
      ProtoTaken(b, ts[k], env, xs[k], p, words, constants);
    }
  }

  // ---------- the whole envelope ----------

  /** The number of prototypes, the prototypes, the main one and what follows it. */
  function Body(xs: seq<Parts>, version: nat, main: nat, trailer: seq<Byte>): seq<Byte> {
    Leb(|xs|) + (Joined(xs, SizedWriter(version)) + (Leb(main) + trailer))
  }

  function WriteBody(c: Chunk): seq<Byte> {
    Body(AllParts(c.protos, c.version), c.version, c.main, c.trailer)
  }

  function Written(c: Chunk): seq<Byte> {
    WriteHeader(c) + WriteBody(c)
  }

  function EnvOf(c: Chunk): Env {
    Env(c.version, |c.strings|, |c.protos|)
  }

  /** The envelope is within the limits; `main` is one of its prototypes, and the trailer is missing or 24 bytes. */
  ghost predicate ChunkOk(c: Chunk) {
    && HeaderOk(c) && 0 < |c.protos| <= MAX_OBJECTS && ProtosOk(c.protos, EnvOf(c))
    && TotalWords(AllParts(c.protos, c.version)) <= MAX_OBJECTS && TotalConstants(AllParts(c.protos, c.version)) <= MAX_OBJECTS
    && c.main < |c.protos| && (|c.trailer| == 0 || |c.trailer| == 24) && |Written(c)| <= MAX_INPUT_BYTES
  }

  /** Where the code of each prototype is written. */
  function WrittenRanges(c: Chunk): seq<CodeRange> {
    var xs := AllParts(c.protos, c.version);
    RangesOf(xs, c.version, |WriteHeader(c)| + |Leb(|xs|)|)
  }

  lemma ParseFrom(b: seq<Byte>, readers: Env -> ProtoReader, header: Header, q1: nat, protos: nat, q2: nat, ranges: seq<CodeRange>, q3: nat,
                  main: nat, q4: nat)
    requires 0 < |b| <= MAX_INPUT_BYTES && q1 <= |b| && q2 <= |b| && q3 <= |b| && protos > 0
    requires ReadHeader(b) == Got(header, q1) && ReadField(b, q1, Var(MAX_OBJECTS + 1)) == Got(protos, q2)
    requires ReadProtos(readers(Env(header.version, header.strings, protos)), b, q2, protos, 0, 0, []) == Got(ranges, q3)
    requires ReadField(b, q3, Var(protos)) == Got(main, q4) && (|b| - q4 == 0 || |b| - q4 == 24)
    ensures ParseWith(b, readers) == Parsed(header.version, ranges)
  {
  }

  /** The input is the envelope written, byte by byte. */
  ghost predicate IsWritten(b: seq<Byte>, c: Chunk) {
    Stands(b, 0, Written(c)) && |b| == |Written(c)|
  }

  lemma IsWrittenIff(b: seq<Byte>, c: Chunk)
    ensures IsWritten(b, c) <==> b == Written(c)
  {
    StandsIff(b, 0, Written(c));
    assert |b| == |Written(c)| ==> b[0..0 + |Written(c)|] == b;
  }

  lemma BodyReads(b: seq<Byte>, p: nat, n: nat, protos: seq<Byte>, main: nat, trailer: seq<Byte>) returns (q2: nat, q3: nat, q4: nat)
    requires main < n <= MAX_OBJECTS && Stands(b, p, Leb(n) + (protos + (Leb(main) + trailer)))
    requires |b| == p + |Leb(n) + (protos + (Leb(main) + trailer))|
    ensures q2 == p + |Leb(n)| <= |b| && ReadField(b, p, Var(MAX_OBJECTS + 1)) == Got(n, q2)
    ensures Stands(b, q2, protos) && q3 == q2 + |protos| <= |b|
    ensures ReadField(b, q3, Var(n)) == Got(main, q4) && |b| - q4 == |trailer|
  {
    StandsSplitThree(b, p, Leb(n), protos, Leb(main) + trailer);
    q2, q3, q4 := p + |Leb(n)|, p + |Leb(n)| + |protos|, p + |Leb(n)| + |protos| + |Leb(main)|;
    StandsSplit(b, q3, Leb(main), trailer);
    FieldReads(b, p, Var(MAX_OBJECTS + 1), Grouped(n));
    FieldReads(b, q3, Var(n), Grouped(main));
  }

  lemma BodyTaken(b: seq<Byte>, p: nat, version: nat, xs: seq<Parts>, main: nat, trailer: seq<Byte>, read: ProtoReader)
    returns (q2: nat, q3: nat, q4: nat)
    requires TakesEach(b, read, xs, version) && Stands(b, p, Body(xs, version, main, trailer))
    requires |b| == p + |Body(xs, version, main, trailer)|
    requires TotalWords(xs) <= MAX_OBJECTS && TotalConstants(xs) <= MAX_OBJECTS && main < |xs| <= MAX_OBJECTS
    ensures q2 == p + |Leb(|xs|)| <= |b| && ReadField(b, p, Var(MAX_OBJECTS + 1)) == Got(|xs|, q2)
    ensures q3 <= |b| && ReadProtos(read, b, q2, |xs|, 0, 0, []) == Got(RangesOf(xs, version, q2), q3)
    ensures ReadField(b, q3, Var(|xs|)) == Got(main, q4) && |b| - q4 == |trailer|
  {
    q2, q3, q4 := BodyReads(b, p, |xs|, Joined(xs, SizedWriter(version)), main, trailer);
    PrototypesRead(b, q2, read, xs, version, 0, 0, []);
    assert [] + RangesOf(xs, version, q2) == RangesOf(xs, version, q2);
  }

  lemma PartsParse(b: seq<Byte>, header: Header, q1: nat, xs: seq<Parts>, main: nat, trailer: seq<Byte>, readers: Env -> ProtoReader,
                   read: ProtoReader, p: nat) returns (ranges: seq<CodeRange>)
    requires 0 < |b| <= MAX_INPUT_BYTES && q1 <= |b| && ReadHeader(b) == Got(header, q1)
    requires read == readers(Env(header.version, header.strings, |xs|)) && TakesEach(b, read, xs, header.version)
    requires TotalWords(xs) <= MAX_OBJECTS && TotalConstants(xs) <= MAX_OBJECTS && main < |xs| <= MAX_OBJECTS
    requires (|trailer| == 0 || |trailer| == 24) && p == q1 + |Leb(|xs|)|
    requires Stands(b, q1, Body(xs, header.version, main, trailer)) && |b| == q1 + |Body(xs, header.version, main, trailer)|
    ensures ranges == RangesOf(xs, header.version, p) && ParseWith(b, readers) == Parsed(header.version, ranges)
  {
    var q2, q3, q4 := BodyTaken(b, q1, header.version, xs, main, trailer, read);
    ranges := RangesOf(xs, header.version, q2);
    ParseFrom(b, readers, header, q1, |xs|, q2, ranges, q3, main, q4);
  }

  lemma HeaderWritten(b: seq<Byte>, c: Chunk) returns (header: Header, q1: nat)
    requires HeaderOk(c) && IsWritten(b, c) && |b| <= MAX_INPUT_BYTES
    ensures header == Header(c.version, |c.strings|) && q1 == |WriteHeader(c)| <= |b| && ReadHeader(b) == Got(header, q1)
    ensures Stands(b, q1, WriteBody(c)) && |b| == q1 + |WriteBody(c)| && |b| > 0
  {
    header, q1 := Header(c.version, |c.strings|), |WriteHeader(c)|;
    StandsSplit(b, 0, WriteHeader(c), WriteBody(c));
    HeaderReads(b, c);
  }

  lemma ProtosParse(b: seq<Byte>, header: Header, q1: nat, ts: seq<WrittenProto>, main: nat, trailer: seq<Byte>, xs: seq<Parts>, p: nat)
    returns (ranges: seq<CodeRange>)
    requires 0 < |b| <= MAX_INPUT_BYTES && q1 <= |b| && ReadHeader(b) == Got(header, q1)
    requires xs == AllParts(ts, header.version) && ProtosOk(ts, Env(header.version, header.strings, |xs|))
    requires TotalWords(xs) <= MAX_OBJECTS && TotalConstants(xs) <= MAX_OBJECTS && main < |xs| <= MAX_OBJECTS
    requires (|trailer| == 0 || |trailer| == 24) && p == q1 + |Leb(|xs|)|
    requires Stands(b, q1, Body(xs, header.version, main, trailer)) && |b| == q1 + |Body(xs, header.version, main, trailer)|
    ensures ranges == RangesOf(xs, header.version, p) && ParseWith(b, ProtoReaders()) == Parsed(header.version, ranges)
  {
    var env := Env(header.version, header.strings, |xs|);
    ProtosTaken(b, ts, env);
    ranges := PartsParse(b, header, q1, xs, main, trailer, ProtoReaders(), ProtoReaderFor(env), p);
  }

  lemma PiecesWritten(b: seq<Byte>, c: Chunk) returns (header: Header, q1: nat, xs: seq<Parts>)
    requires ChunkOk(c) && IsWritten(b, c)
    ensures header == Header(c.version, |c.strings|) && q1 == |WriteHeader(c)| <= |b| && ReadHeader(b) == Got(header, q1)
    ensures xs == AllParts(c.protos, c.version) && 0 < |b| <= MAX_INPUT_BYTES
    ensures Stands(b, q1, Body(xs, header.version, c.main, c.trailer)) && |b| == q1 + |Body(xs, header.version, c.main, c.trailer)|
  {
    header, q1 := HeaderWritten(b, c);
    xs := AllParts(c.protos, c.version);
  }

  lemma RangesWritten(c: Chunk, p: nat, xs: seq<Parts>, ranges: seq<CodeRange>)
    requires p == |WriteHeader(c)| + |Leb(|xs|)| && xs == AllParts(c.protos, c.version) && ranges == RangesOf(xs, c.version, p)
    ensures ranges == WrittenRanges(c)
  {
  }

  lemma PiecesParse(b: seq<Byte>, c: Chunk) returns (p: nat, xs: seq<Parts>, ranges: seq<CodeRange>)
    requires ChunkOk(c) && IsWritten(b, c)
    ensures p == |WriteHeader(c)| + |Leb(|xs|)| && xs == AllParts(c.protos, c.version)
    ensures ranges == RangesOf(xs, c.version, p) && Parse(b) == Parsed(c.version, ranges)
  {
    var header, q1;
    header, q1, xs := PiecesWritten(b, c);
    p := q1 + |Leb(|xs|)|;
    ranges := ProtosParse(b, header, q1, c.protos, c.main, c.trailer, xs, p);
  }

  /** Parsing a written envelope finds its version and, for every prototype in order, where its words were written and how many. */
  lemma WrittenParses(b: seq<Byte>, c: Chunk)
    requires ChunkOk(c) && IsWritten(b, c)
    ensures Parse(b) == Parsed(c.version, WrittenRanges(c))
  {
    var p, xs, ranges := PiecesParse(b, c);
    RangesWritten(c, p, xs, ranges);
  }

  // ---------- the ranges are where the code is ----------

  lemma CodeStandsAt(b: seq<Byte>, p: nat, x: Parts, version: nat)
    requires Stands(b, p, Sized(x, version))
    ensures Stands(b, p + CodeAt(x, version), x.code)
  {
    SizedStands(b, p, x, version);
  }

  lemma {:induction false} RangeHoldsCode(b: seq<Byte>, p: nat, xs: seq<Parts>, version: nat, k: nat)
    requires k < |xs| && Stands(b, p, Joined(xs, SizedWriter(version)))
    ensures var range := RangesOf(xs, version, p)[k]; range.words == xs[k].words && Stands(b, range.offset, xs[k].code)
    decreases k
  {
    JoinedHead(b, p, xs, SizedWriter(version));
    assert SizedWriter(version)(xs[0]) == Sized(xs[0], version);
    CodeStandsAt(b, p, xs[0], version);
    if k > 0 {
      RangeHoldsCode(b, p + |Sized(xs[0], version)|, xs[1..], version, k - 1);
    }
  }

  lemma BodyHoldsCode(b: seq<Byte>, q: nat, xs: seq<Parts>, version: nat, main: nat, trailer: seq<Byte>, k: nat)
    returns (p: nat, ranges: seq<CodeRange>)
    requires Stands(b, q, Body(xs, version, main, trailer)) && k < |xs|
    ensures p == q + |Leb(|xs|)| && ranges == RangesOf(xs, version, p)
    ensures ranges[k].words == xs[k].words && Stands(b, ranges[k].offset, xs[k].code)
  {
    StandsSplitThree(b, q, Leb(|xs|), Joined(xs, SizedWriter(version)), Leb(main) + trailer);
    p := q + |Leb(|xs|)|;
    ranges := RangesOf(xs, version, p);
    RangeHoldsCode(b, p, xs, version, k);
  }

  /** The range found for a prototype holds exactly the words written for it. */
  lemma WrittenCodeStands(b: seq<Byte>, c: Chunk, k: nat)
    requires ChunkOk(c) && IsWritten(b, c) && k < |c.protos|
    ensures |WrittenRanges(c)| == |c.protos| && WrittenRanges(c)[k].words == c.protos[k].words
    ensures Stands(b, WrittenRanges(c)[k].offset, c.protos[k].code)
  {
    var header, q1, xs := PiecesWritten(b, c);
    var p, ranges := BodyHoldsCode(b, q1, xs, header.version, c.main, c.trailer, k);
    RangesWritten(c, p, xs, ranges);
  }
}
