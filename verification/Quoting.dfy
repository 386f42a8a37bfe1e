/** Lua string literals: writing them and reading them back. */
module Quoting {
  import opened Bytes

  const QUOTE: Byte := 34
  const BACKSLASH: Byte := 92
  const ZERO_DIGIT: Byte := 48

  // ---------- writing ----------

  /** The letter of a two-character escape, for the bytes that have one. */
  function Letter(c: Byte): (r: int)
    ensures r == -1 || (0 <= r < 256 && (r == BACKSLASH || r == QUOTE || 97 <= r <= 122))
  {
    match c {
      case 92 => 92
      case 34 => 34
      case 7 => 97
      case 8 => 98
      case 12 => 102
      case 10 => 110
      case 13 => 114
      case 9 => 116
      case 11 => 118
      case _ => -1
    }
  }

  function Escape(c: Byte): (r: seq<Byte>)
    ensures 1 <= |r| <= 4
  {
    if Letter(c) >= 0 then [BACKSLASH, Letter(c)]
    else if 32 <= c <= 126 then [c]
    else [BACKSLASH, ZERO_DIGIT + c / 100, ZERO_DIGIT + c / 10 % 10, ZERO_DIGIT + c % 10]
  }

  /** The bytes one after the other, each as `write` spells it. */
  function Body(write: Byte -> seq<Byte>, value: seq<Byte>): seq<Byte> {
    if value == [] then [] else write(value[0]) + Body(write, value[1..])
  }

  function Quoted(value: seq<Byte>): seq<Byte> {
    [QUOTE] + Body(Escape, value) + [QUOTE]
  }

  lemma {:induction false} BodyAppend(write: Byte -> seq<Byte>, value: seq<Byte>, c: Byte)
    ensures Body(write, value + [c]) == Body(write, value) + write(c)
    decreases |value|
  {
    if value == [] {
      assert Body(write, [c]) == write(c) + Body(write, []);
    } else {
      BodyAppend(write, value[1..], c);
      assert (value + [c])[1..] == value[1..] + [c];
      assert (value + [c])[0] == value[0];
    }
  }

  /** The writer of the Lua 5.1 reconstruction. */
  method LuaQuote(value: seq<Byte>) returns (text: seq<Byte>)
    ensures text == Quoted(value)
  {
    text := [QUOTE];
    for k := 0 to |value|
      invariant text == [QUOTE] + Body(Escape, value[..k])
    {
      BodyAppend(Escape, value[..k], value[k]);
      assert value[..k + 1] == value[..k] + [value[k]];
      text := text + Escape(value[k]);
    }
    assert value[..|value|] == value;
    text := text + [QUOTE];
  }

  /** The writer of the register renderer, over the first `size` bytes of a buffer. */
  method LuaString(data: seq<Byte>, size: nat) returns (text: seq<Byte>)
    requires size <= |data|
    ensures text == Quoted(data[..size])
  {
    text := [QUOTE];
    var index := 0;
    while index < size
      invariant 0 <= index <= size && text == [QUOTE] + Body(Escape, data[..index])
    {
      var c := data[index];
      BodyAppend(Escape, data[..index], c);
      assert data[..index + 1] == data[..index] + [c];
      if Letter(c) >= 0 {
        text := text + [BACKSLASH, Letter(c)];
      } else if c >= 32 && c <= 126 {
        text := text + [c];
      } else {
        text := text + [BACKSLASH, ZERO_DIGIT + c / 100, ZERO_DIGIT + c / 10 % 10, ZERO_DIGIT + c % 10];
      }
      index := index + 1;
    }
    text := text + [QUOTE];
  }

  // ---------- reading ----------

  datatype Piece = Malformed | Piece(bytes: seq<Byte>, next: nat)

  predicate IsSpace(c: Byte) {
    c == 32 || 9 <= c <= 13
  }

  predicate IsDigit(c: Byte) {
    48 <= c <= 57
  }

  function SkipSpace(source: seq<Byte>, cursor: nat): (r: nat)
    requires cursor <= |source|
    ensures cursor <= r <= |source|
    decreases |source| - cursor
  {
    if cursor < |source| && IsSpace(source[cursor]) then SkipSpace(source, cursor + 1) else cursor
  }

  function HexValue(c: Byte): int {
    if 48 <= c <= 57 then c - 48
    else if 97 <= c <= 102 then c - 97 + 10
    else if 65 <= c <= 70 then c - 65 + 10
    else -1
  }

  /** At most `n` more decimal digits. */
  function Decimal(source: seq<Byte>, cursor: nat, value: nat, n: nat): (r: (nat, nat))
    requires cursor <= |source|
    ensures cursor <= r.1 <= |source|
    decreases n
  {
    if n > 0 && cursor < |source| && IsDigit(source[cursor])
    then Decimal(source, cursor + 1, value * 10 + (source[cursor] - 48), n - 1)
    else (value, cursor)
  }

  /** What the escape behind a backslash stands for; `cursor` is at its first character. */
  function ReadEscape(source: seq<Byte>, cursor: nat): (r: Piece)
    requires cursor < |source|
    ensures r.Piece? ==> cursor < r.next <= |source|
  {
    var escaped := source[cursor];
    match escaped {
      case 97 => Piece([7], cursor + 1)
      case 98 => Piece([8], cursor + 1)
      case 102 => Piece([12], cursor + 1)
      case 110 => Piece([10], cursor + 1)
      case 114 => Piece([13], cursor + 1)
      case 116 => Piece([9], cursor + 1)
      case 118 => Piece([11], cursor + 1)
      case 10 => Piece([10], cursor + 1)
      case 13 => Piece([10], if cursor + 1 < |source| && source[cursor + 1] == 10 then cursor + 2 else cursor + 1)
      case 122 => Piece([], SkipSpace(source, cursor + 1))
      case 120 =>
        if cursor + 2 < |source| && HexValue(source[cursor + 1]) >= 0 && HexValue(source[cursor + 2]) >= 0
        then Piece([HexByte(source[cursor + 1], source[cursor + 2])], cursor + 3) else Malformed
      case _ =>
        if IsDigit(escaped) then
          var (value, next) := Decimal(source, cursor + 1, escaped - 48, 2);
          if value > 255 then Malformed else Piece([value], next)
        else Piece([escaped], cursor + 1)
    }
  }

  function HexByte(left: Byte, right: Byte): Byte
    requires HexValue(left) >= 0 && HexValue(right) >= 0
  {
    HexValue(left) * 16 + HexValue(right)
  }

  /** One character or escape of a literal. */
  function ReadItem(source: seq<Byte>, cursor: nat): (r: Piece)
    ensures r.Piece? ==> cursor < r.next <= |source|
  {
    if cursor >= |source| then Malformed
    else if source[cursor] != BACKSLASH then Piece([source[cursor]], cursor + 1)
    else if cursor + 1 >= |source| then Malformed
    else ReadEscape(source, cursor + 1)
  }

  /** The rest of a literal, behind `value`, item by item: its bytes and the place just behind the closing quote. */
  function Scan(read: (seq<Byte>, nat) -> Piece, source: seq<Byte>, cursor: nat, quote: Byte, value: seq<Byte>): (r: Piece)
    requires cursor <= |source|
    decreases |source| - cursor
  {
    if cursor == |source| then Malformed
    else if source[cursor] == quote then Piece(value, cursor + 1)
    else
      match read(source, cursor) {
        case Malformed => Malformed
        case Piece(bytes, next) =>
          if cursor < next <= |source| then Scan(read, source, next, quote, value + bytes) else Malformed
      }
  }

  /** Reads the digits of a decimal escape, as the inner loop does. */
  method ReadDecimal(source: seq<Byte>, start: nat, first: nat) returns (decimal: nat, cursor: nat)
    requires start <= |source|
    ensures (decimal, cursor) == Decimal(source, start, first, 2)
  {
    decimal, cursor := first, start;
    var digits := 1;
    while digits < 3 && cursor < |source| && source[cursor] >= 48 && source[cursor] <= 57
      invariant 1 <= digits <= 3 && start <= cursor <= |source|
      invariant Decimal(source, cursor, decimal, 3 - digits) == Decimal(source, start, first, 2)
    {
      decimal := decimal * 10 + (source[cursor] - 48);
      cursor := cursor + 1;
      digits := digits + 1;
    }
  }

  method SkipSpaces(source: seq<Byte>, start: nat) returns (cursor: nat)
    requires start <= |source|
    ensures cursor == SkipSpace(source, start)
  {
    cursor := start;
    while cursor < |source| && IsSpace(source[cursor])
      invariant start <= cursor <= |source| && SkipSpace(source, cursor) == SkipSpace(source, start)
    {
      cursor := cursor + 1;
    }
  }

  /** One escape; the cursor comes in behind the backslash. */
  method ReadEscaped(source: seq<Byte>, start: nat) returns (piece: Piece)
    requires start < |source|
    ensures piece == ReadEscape(source, start)
  {
    var escaped := source[start];
    var cursor := start + 1;
    if escaped == 122 {
      cursor := SkipSpaces(source, cursor);
      return Piece([], cursor);
    }
    if escaped == 120 {
      if cursor + 1 > |source| {
        return Malformed;
      }
      var left, right := HexValue(source[cursor]), if cursor + 1 < |source| then HexValue(source[cursor + 1]) else -1;
      if left < 0 || right < 0 {
        return Malformed;
      }
      return Piece([left * 16 + right], cursor + 2);
    }
    if IsDigit(escaped) {
      var decimal;
      decimal, cursor := ReadDecimal(source, cursor, escaped - 48);
      return if decimal > 255 then Malformed else Piece([decimal], cursor);
    }
    if escaped == 13 {
      if cursor < |source| && source[cursor] == 10 {
        cursor := cursor + 1;
      }
      return Piece([10], cursor);
    }
    match escaped {
      case 97 => piece := Piece([7], cursor);
      case 98 => piece := Piece([8], cursor);
      case 102 => piece := Piece([12], cursor);
      case 110 => piece := Piece([10], cursor);
      case 114 => piece := Piece([13], cursor);
      case 116 => piece := Piece([9], cursor);
      case 118 => piece := Piece([11], cursor);
      case _ => piece := Piece([escaped], cursor);
    }
  }

  /** The reader; on success the cursor stands just behind the closing quote. */
  method ReadQuotedLiteral(source: seq<Byte>, start: nat) returns (ok: bool, literal: seq<Byte>, cursor: nat)
    requires start < |source|
    ensures var r := Scan(ReadItem, source, start + 1, source[start], []); if ok then r == Piece(literal, cursor) else r.Malformed?
  {
    var quote := source[start];
    cursor, literal := start + 1, [];
    while cursor < |source|
      invariant cursor <= |source|
      invariant Scan(ReadItem, source, cursor, quote, literal) == Scan(ReadItem, source, start + 1, quote, [])
      decreases |source| - cursor
    {
      var current := source[cursor];
      cursor := cursor + 1;
      if current == quote {
        return true, literal, cursor;
      }
      if current != BACKSLASH {
        literal := literal + [current];
        continue;
      }
      if cursor >= |source| {
        return false, literal, cursor;
      }
      var piece := ReadEscaped(source, cursor);
      if piece.Malformed? {
        return false, literal, cursor;
      }
      literal, cursor := literal + piece.bytes, piece.next;
    }
    ok := false;
  }

  // ---------- the round trip ----------

  /** Whatever follows, an escaped byte reads back as itself and does not look like the closing quote. */
  lemma EscapeReads(source: seq<Byte>, cursor: nat, c: Byte)
    requires Stands(source, cursor, Escape(c))
    ensures source[cursor] != QUOTE && ReadItem(source, cursor) == Piece([c], cursor + |Escape(c)|)
  {
    var e := Escape(c);
    StandsAt(source, cursor, e, 0);
    if |e| == 4 {
      StandsAt(source, cursor, e, 1);
      StandsAt(source, cursor, e, 2);
      StandsAt(source, cursor, e, 3);
      DecimalReads(source, cursor + 1, c);
    } else if |e| == 2 {
      StandsAt(source, cursor, e, 1);
    }
  }

  lemma DecimalReads(source: seq<Byte>, cursor: nat, c: Byte)
    requires cursor + 3 <= |source| && source[cursor] == ZERO_DIGIT + c / 100
    requires source[cursor + 1] == ZERO_DIGIT + c / 10 % 10 && source[cursor + 2] == ZERO_DIGIT + c % 10
    ensures Decimal(source, cursor + 1, source[cursor] - 48, 2) == (c, cursor + 3)
  {
    var v0: nat := source[cursor] - 48;
    var v1: nat := v0 * 10 + (source[cursor + 1] - 48);
    var v2: nat := v1 * 10 + (source[cursor + 2] - 48);
    assert v2 == c;
    assert Decimal(source, cursor + 3, v2, 0) == (v2, cursor + 3);
    assert Decimal(source, cursor + 2, v1, 1) == Decimal(source, cursor + 3, v2, 0);
  }

  /** What `write` spells, `read` reads back, wherever it stands; and it never looks like the quote. */
  ghost predicate Inverse(write: Byte -> seq<Byte>, read: (seq<Byte>, nat) -> Piece, quote: Byte) {
    forall source: seq<Byte>, cursor: nat, c: Byte {:trigger Stands(source, cursor, write(c))} :: Stands(source, cursor, write(c)) ==>
      && |write(c)| > 0 && source[cursor] != quote && read(source, cursor) == Piece([c], cursor + |write(c)|)
  }

  lemma StandsRight(source: seq<Byte>, cursor: nat, left: seq<Byte>, middle: seq<Byte>, right: seq<Byte>)
    requires Stands(source, cursor, left + middle + right)
    ensures Stands(source, cursor, left) && Stands(source, cursor + |left|, middle + right)
  {
    assert left + middle + right == left + (middle + right);
    StandsSplit(source, cursor, left, middle + right);
  }

  /** Scanning undoes spelling, for any such pair. */
  lemma {:induction false} ScanBody(
    write: Byte -> seq<Byte>, read: (seq<Byte>, nat) -> Piece, quote: Byte, source: seq<Byte>, cursor: nat, value: seq<Byte>, s: seq<Byte>)
    requires Inverse(write, read, quote) && Stands(source, cursor, Body(write, s) + [quote])
    ensures Scan(read, source, cursor, quote, value) == Piece(value + s, cursor + |Body(write, s)| + 1)
    decreases |s|
  {
    if s == [] {
      assert Body(write, s) + [quote] == [quote];
      StandsAt(source, cursor, [quote], 0);
      assert value + s == value;
    } else {
      var e, rest := write(s[0]), Body(write, s[1..]);
      StandsRight(source, cursor, e, rest, [quote]);
      ScanBody(write, read, quote, source, cursor + |e|, value + [s[0]], s[1..]);
      assert value + [s[0]] + s[1..] == value + s;
    }
  }

  lemma EscapesReadBack()
    ensures Inverse(Escape, ReadItem, QUOTE)
  {
    forall source: seq<Byte>, cursor: nat, c: Byte | Stands(source, cursor, Escape(c))
      ensures |Escape(c)| > 0 && source[cursor] != QUOTE && ReadItem(source, cursor) == Piece([c], cursor + |Escape(c)|)
    {
      EscapeReads(source, cursor, c);
    }
  }

  /**
   Wherever the quoted form of a byte string stands, reading from there gives the string back and stops just behind the
   closing quote, whatever follows.
   */
  lemma QuotedReadsBack(source: seq<Byte>, start: nat, s: seq<Byte>)
    requires Stands(source, start, Quoted(s))
    ensures start < |source| && source[start] == QUOTE
    ensures Scan(ReadItem, source, start + 1, QUOTE, []) == Piece(s, start + |Quoted(s)|)
  {
    StandsRight(source, start, [QUOTE], Body(Escape, s), [QUOTE]);
    StandsAt(source, start, [QUOTE], 0);
    EscapesReadBack();
    ScanBody(Escape, ReadItem, QUOTE, source, start + 1, [], s);
    assert [] + s == s;
  }

  /** Writing and reading, one after the other. */
  method QuoteThenRead(before: seq<Byte>, s: seq<Byte>, after: seq<Byte>) returns (ok: bool, literal: seq<Byte>, left: seq<Byte>)
    ensures ok && literal == s && left == after
  {
    var text := LuaQuote(s);
    var source := before + text + after;
    StandsBetween(before, text, after);
    QuotedReadsBack(source, |before|, s);
    var cursor;
    ok, literal, cursor := ReadQuotedLiteral(source, |before|);
    left := source[cursor..];
  }
}
