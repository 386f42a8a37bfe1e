/** Every way a character of a Lua string literal may be spelled, and that the reader takes exactly these. */
module Escapes {
  import opened Bytes
  import opened Quoting

  datatype LineEnd = Feed | Return | ReturnFeed

  /** One item of a literal: a character as it is, or what may stand behind a backslash. */
  datatype Spelling =
    | Itself(c: Byte)
    | Escaped(c: Byte)
    | Control(c: Byte)
    | Line(end: LineEnd)
    | Blanks(spaces: seq<Byte>)
    | Hex(c: Byte, leftUpper: bool, rightUpper: bool)
    | Numeric(c: Byte, digits: nat)

  // ---------- writing ----------

  /** The letters for the control characters 7 to 13, in their order: a, b, t, n, v, f, r. */
  const LETTERS: seq<Byte> := [97, 98, 116, 110, 118, 102, 114]

  function HexDigit(v: nat, upper: bool): Byte
    requires v < 16
  {
    if v < 10 then 48 + v else if upper then 55 + v else 87 + v
  }

  /** The last `n` decimal digits of a number. */
  function Digits(v: nat, n: nat): (r: seq<Byte>)
    ensures |r| == n
  {
    if n == 0 then [] else Digits(v / 10, n - 1) + [48 + v % 10]
  }

  function Spell(s: Spelling): seq<Byte>
    requires Ok(s)
  {
    match s {
      case Itself(c) => [c]
      case Escaped(c) => [92, c]
      case Control(c) => [92, LETTERS[c - 7]]
      case Line(Feed) => [92, 10]
      case Line(Return) => [92, 13]
      case Line(ReturnFeed) => [92, 13, 10]
      case Blanks(spaces) => [92, 122] + spaces
      case Hex(c, leftUpper, rightUpper) => [92, 120, HexDigit(c / 16, leftUpper), HexDigit(c % 16, rightUpper)]
      case Numeric(c, digits) => [92] + Digits(c, digits)
    }
  }

  /** What the spelling may be used for: a backslash needs an escape, and letters and digits behind one have their own meaning. */
  predicate Ok(s: Spelling) {
    match s {
      case Itself(c) => c != 92
      case Escaped(c) => c !in LETTERS && c != 120 && c != 122 && c != 10 && c != 13 && !(48 <= c <= 57)
      case Control(c) => 7 <= c <= 13
      case Line(_) => true
      case Blanks(spaces) => forall k :: 0 <= k < |spaces| ==> IsBlank(spaces[k])
      case Hex(_, _, _) => true
      case Numeric(c, digits) => 1 <= digits <= 3 && (digits == 1 ==> c < 10) && (digits == 2 ==> c < 100)
    }
  }

  predicate IsBlank(c: Byte) {
    c == 32 || c == 9 || c == 13 || c == 10 || c == 12 || c == 11
  }

  /** The bytes it stands for. */
  function Meaning(s: Spelling): seq<Byte> {
    match s {
      case Line(_) => [10]
      case Blanks(_) => []
      case _ => [s.c]
    }
  }

  /** A spelling that could go on must not be followed by what would be taken into it. */
  predicate EndsBefore(s: Spelling, source: seq<Byte>, next: nat) {
    next < |source| ==>
      && (s == Line(Return) ==> source[next] != 10)
      && (s.Blanks? ==> !IsBlank(source[next]))
      && (s.Numeric? && s.digits < 3 ==> !(48 <= source[next] <= 57))
  }

  ghost predicate SpelledAt(source: seq<Byte>, cursor: nat, s: Spelling) {
    Ok(s) && Stands(source, cursor, Spell(s)) && EndsBefore(s, source, cursor + |Spell(s)|)
  }

  // ---------- every spelling reads back ----------

  lemma {:induction false} BlanksSkipped(source: seq<Byte>, cursor: nat, spaces: seq<Byte>)
    requires Ok(Blanks(spaces)) && Stands(source, cursor, spaces)
    requires cursor + |spaces| < |source| ==> !IsBlank(source[cursor + |spaces|])
    ensures SkipSpace(source, cursor) == cursor + |spaces|
    decreases |spaces|
  {
    if spaces != [] {
      StandsAt(source, cursor, spaces, 0);
      assert spaces == [spaces[0]] + spaces[1..];
      StandsSplit(source, cursor, [spaces[0]], spaces[1..]);
      BlanksSkipped(source, cursor + 1, spaces[1..]);
    }
  }

  lemma HexReads(v: nat, upper: bool)
    requires v < 16
    ensures HexValue(HexDigit(v, upper)) == v
  {
  }

  lemma DigitsOf(v: nat)
    ensures Digits(v, 1) == [48 + v % 10] && Digits(v, 2) == [48 + v / 10 % 10, 48 + v % 10]
    ensures Digits(v, 3) == [48 + v / 10 / 10 % 10, 48 + v / 10 % 10, 48 + v % 10]
  {
    assert Digits(v / 10 / 10, 1) == Digits(v / 10 / 10 / 10, 0) + [48 + v / 10 / 10 % 10];
    assert Digits(v / 10, 1) == Digits(v / 10 / 10, 0) + [48 + v / 10 % 10];
    assert Digits(v, 1) == Digits(v / 10, 0) + [48 + v % 10];
    assert Digits(v / 10, 2) == Digits(v / 10 / 10, 1) + [48 + v / 10 % 10];
  }

  lemma DecimalStops(source: seq<Byte>, cursor: nat, v: nat, n: nat)
    requires cursor <= |source| && (n > 0 && cursor < |source| ==> !IsDigit(source[cursor]))
    ensures Decimal(source, cursor, v, n) == (v, cursor)
  {
  }

  lemma DecimalGoesOn(source: seq<Byte>, cursor: nat, v: nat, d: nat, n: nat)
    requires cursor < |source| && n > 0 && d < 10 && source[cursor] == 48 + d
    ensures Decimal(source, cursor, v, n) == Decimal(source, cursor + 1, 10 * v + d, n - 1)
  {
  }

  lemma OneDigitReads(source: seq<Byte>, cursor: nat, a: nat)
    requires cursor < |source| && a < 10 && source[cursor] == 48 + a && (cursor + 1 < |source| ==> !IsDigit(source[cursor + 1]))
    ensures Decimal(source, cursor + 1, a, 2) == (a, cursor + 1)
  {
    DecimalStops(source, cursor + 1, a, 2);
  }

  lemma TwoDigitsRead(source: seq<Byte>, cursor: nat, a: nat, b: nat)
    requires cursor + 1 < |source| && a < 10 && b < 10 && source[cursor] == 48 + a && source[cursor + 1] == 48 + b
    requires cursor + 2 < |source| ==> !IsDigit(source[cursor + 2])
    ensures Decimal(source, cursor + 1, a, 2) == (10 * a + b, cursor + 2)
  {
    DecimalGoesOn(source, cursor + 1, a, b, 2);
    DecimalStops(source, cursor + 2, 10 * a + b, 1);
  }

  lemma ThreeDigitsRead(source: seq<Byte>, cursor: nat, a: nat, b: nat, c: nat)
    requires cursor + 2 < |source| && a < 10 && b < 10 && c < 10
    requires source[cursor] == 48 + a && source[cursor + 1] == 48 + b && source[cursor + 2] == 48 + c
    ensures Decimal(source, cursor + 1, a, 2) == (10 * (10 * a + b) + c, cursor + 3)
  {
    DecimalGoesOn(source, cursor + 1, a, b, 2);
    DecimalGoesOn(source, cursor + 2, 10 * a + b, c, 1);
    DecimalStops(source, cursor + 3, 10 * (10 * a + b) + c, 0);
  }

  lemma DigitsOfByte(c: Byte) returns (x: nat, y: nat, z: nat)
    ensures x < 10 && y < 10 && z < 10 && c == 10 * (10 * x + y) + z && (c < 10 ==> x == y == 0) && (c < 100 ==> x == 0)
    ensures Digits(c, 1) == [48 + z] && Digits(c, 2) == [48 + y, 48 + z] && Digits(c, 3) == [48 + x, 48 + y, 48 + z]
  {
    DigitsOf(c);
    x, y, z := c / 10 / 10, c / 10 % 10, c % 10;
  }

  /** One, two or three digits, of which only three may be followed by another. */
  lemma NumericReads(source: seq<Byte>, cursor: nat, c: Byte, digits: nat)
    requires Ok(Numeric(c, digits)) && Stands(source, cursor, Digits(c, digits))
    requires digits < 3 && cursor + digits < |source| ==> !IsDigit(source[cursor + digits])
    ensures cursor < |source| && IsDigit(source[cursor]) && Decimal(source, cursor + 1, source[cursor] - 48, 2) == (c, cursor + digits)
  {
    var x, y, z := DigitsOfByte(c);
    StandsAt(source, cursor, Digits(c, digits), 0);
    if digits == 1 {
      OneDigitReads(source, cursor, z);
    } else {
      StandsAt(source, cursor, Digits(c, digits), 1);
      if digits == 2 {
        TwoDigitsRead(source, cursor, y, z);
      } else {
        StandsAt(source, cursor, Digits(c, digits), 2);
        ThreeDigitsRead(source, cursor, x, y, z);
      }
    }
  }

  lemma PairReads(source: seq<Byte>, cursor: nat, s: Spelling)
    requires SpelledAt(source, cursor, s) && (s.Itself? || s.Escaped? || s.Control? || s.Line?)
    ensures ReadItem(source, cursor) == Piece(Meaning(s), cursor + |Spell(s)|)
  {
    StandsAt(source, cursor, Spell(s), 0);
    if !s.Itself? {
      StandsAt(source, cursor, Spell(s), 1);
    }
    if s == Line(ReturnFeed) {
      StandsAt(source, cursor, Spell(s), 2);
    }
  }

  lemma HexSpellingReads(source: seq<Byte>, cursor: nat, s: Spelling)
    requires SpelledAt(source, cursor, s) && s.Hex?
    ensures ReadItem(source, cursor) == Piece(Meaning(s), cursor + |Spell(s)|)
  {
    StandsAt(source, cursor, Spell(s), 0);
    StandsAt(source, cursor, Spell(s), 1);
    StandsAt(source, cursor, Spell(s), 2);
    StandsAt(source, cursor, Spell(s), 3);
    HexReads(s.c / 16, s.leftUpper);
    HexReads(s.c % 16, s.rightUpper);
  }

  lemma BlanksRead(source: seq<Byte>, cursor: nat, s: Spelling)
    requires SpelledAt(source, cursor, s) && s.Blanks?
    ensures ReadItem(source, cursor) == Piece(Meaning(s), cursor + |Spell(s)|)
  {
    StandsAt(source, cursor, Spell(s), 0);
    StandsAt(source, cursor, Spell(s), 1);
    StandsSplit(source, cursor, [92, 122], s.spaces);
    BlanksSkipped(source, cursor + 2, s.spaces);
  }

  lemma NumericSpellingReads(source: seq<Byte>, cursor: nat, s: Spelling)
    requires SpelledAt(source, cursor, s) && s.Numeric?
    ensures ReadItem(source, cursor) == Piece(Meaning(s), cursor + |Spell(s)|)
  {
    StandsAt(source, cursor, Spell(s), 0);
    StandsSplit(source, cursor, [92], Digits(s.c, s.digits));
    NumericReads(source, cursor + 1, s.c, s.digits);
  }

  /** Every spelling reads back as what it stands for, whatever follows it. */
  lemma SpellingReads(source: seq<Byte>, cursor: nat, s: Spelling)
    requires SpelledAt(source, cursor, s)
    ensures ReadItem(source, cursor) == Piece(Meaning(s), cursor + |Spell(s)|)
  {
    match s {
      case Hex(_, _, _) => HexSpellingReads(source, cursor, s);
      case Blanks(_) => BlanksRead(source, cursor, s);
      case Numeric(_, _) => NumericSpellingReads(source, cursor, s);
      case _ => PairReads(source, cursor, s);
    }
  }

  // ---------- whatever is read is spelled ----------

  lemma {:induction false} SkippedAreBlanks(source: seq<Byte>, cursor: nat)
    requires cursor <= |source|
    ensures forall k :: cursor <= k < SkipSpace(source, cursor) ==> IsBlank(source[k])
    ensures SkipSpace(source, cursor) < |source| ==> !IsBlank(source[SkipSpace(source, cursor)])
    decreases |source| - cursor
  {
    if cursor < |source| && IsSpace(source[cursor]) {
      SkippedAreBlanks(source, cursor + 1);
    }
  }

  lemma HexIsSpelled(x: Byte) returns (v: nat, upper: bool)
    requires HexValue(x) >= 0
    ensures v < 16 && v == HexValue(x) && HexDigit(v, upper) == x
  {
    v, upper := HexValue(x), x <= 70;
  }

  lemma SpelledBy(source: seq<Byte>, cursor: nat, next: nat, s: Spelling)
    requires Ok(s) && cursor <= next <= |source| && source[cursor..next] == Spell(s) && EndsBefore(s, source, next)
    ensures SpelledAt(source, cursor, s)
  {
    StandsIff(source, cursor, Spell(s));
  }

  lemma Quotient(v: nat, tens: nat, ones: nat)
    requires v == 10 * tens + ones && ones < 10
    ensures v / 10 == tens && v % 10 == ones
  {
  }

  lemma DigitsFrom(a: nat, b: nat, c: nat)
    requires a < 10 && b < 10 && c < 10
    ensures Digits(a, 1) == [48 + a] && Digits(10 * a + b, 2) == [48 + a, 48 + b]
    ensures Digits(10 * (10 * a + b) + c, 3) == [48 + a, 48 + b, 48 + c]
  {
    var two: nat, three: nat := 10 * a + b, 10 * (10 * a + b) + c;
    Quotient(a, 0, a);
    Quotient(two, a, b);
    Quotient(three, two, c);
    DigitsOf(a);
    DigitsOf(two);
    DigitsOf(three);
  }

  /** What the digit loop takes is one, two or three digits of what it yields. */
  lemma DecimalTakes(source: seq<Byte>, cursor: nat) returns (n: nat)
    requires cursor < |source| && IsDigit(source[cursor])
    ensures var (value, next) := Decimal(source, cursor + 1, source[cursor] - 48, 2);
      && 1 <= n <= 3 && next == cursor + n && (n == 1 ==> value < 10) && (n == 2 ==> value < 100)
      && source[cursor..next] == Digits(value, n) && (n < 3 && next < |source| ==> !IsDigit(source[next]))
  {
    var a: nat := source[cursor] - 48;
    if cursor + 1 < |source| && IsDigit(source[cursor + 1]) {
      var b: nat := source[cursor + 1] - 48;
      if cursor + 2 < |source| && IsDigit(source[cursor + 2]) {
        n := 3;
        ThreeDigitsRead(source, cursor, a, b, source[cursor + 2] - 48);
        DigitsFrom(a, b, source[cursor + 2] - 48);
      } else {
        n := 2;
        TwoDigitsRead(source, cursor, a, b);
        DigitsFrom(a, b, 0);
      }
    } else {
      n := 1;
      OneDigitReads(source, cursor, a);
      DigitsFrom(a, 0, 0);
    }
  }

  lemma NumericIsSpelled(source: seq<Byte>, cursor: nat) returns (s: Spelling)
    requires cursor + 1 < |source| && source[cursor] == 92 && IsDigit(source[cursor + 1]) && ReadItem(source, cursor).Piece?
    ensures SpelledAt(source, cursor, s)
  {
    var n := DecimalTakes(source, cursor + 1);
    var (value, next) := Decimal(source, cursor + 2, source[cursor + 1] - 48, 2);
    s := Numeric(value, n);
    assert source[cursor..next] == [92] + source[cursor + 1..next];
    SpelledBy(source, cursor, next, s);
  }

  /** Whatever the reader takes as one item is one of the spellings. */
  lemma ItemIsSpelled(source: seq<Byte>, cursor: nat) returns (s: Spelling)
    requires ReadItem(source, cursor).Piece?
    ensures SpelledAt(source, cursor, s)
  {
    var next := ReadItem(source, cursor).next;
    if source[cursor] != 92 {
      s := Itself(source[cursor]);
    } else if IsDigit(source[cursor + 1]) {
      s := NumericIsSpelled(source, cursor);
      return;
    } else {
      s := EscapeSpelling(source, cursor, next);
    }
    assert source[cursor..next] == Spell(s);
    SpelledBy(source, cursor, next, s);
  }

  lemma HexEscapeSpelling(source: seq<Byte>, cursor: nat, next: nat) returns (s: Spelling)
    requires cursor + 1 < |source| && source[cursor] == 92 && source[cursor + 1] == 120
    requires ReadEscape(source, cursor + 1).Piece? && next == ReadEscape(source, cursor + 1).next
    ensures Ok(s) && next <= |source| && source[cursor..next] == Spell(s) && EndsBefore(s, source, next)
  {
    var left, leftUpper := HexIsSpelled(source[cursor + 2]);
    var right, rightUpper := HexIsSpelled(source[cursor + 3]);
    var c: Byte := 16 * left + right;
    assert c / 16 == left && c % 16 == right;
    s := Hex(c, leftUpper, rightUpper);
  }

  lemma BlankEscapeSpelling(source: seq<Byte>, cursor: nat, next: nat) returns (s: Spelling)
    requires cursor + 1 < |source| && source[cursor] == 92 && source[cursor + 1] == 122
    requires ReadEscape(source, cursor + 1).Piece? && next == ReadEscape(source, cursor + 1).next
    ensures Ok(s) && next <= |source| && source[cursor..next] == Spell(s) && EndsBefore(s, source, next)
  {
    SkippedAreBlanks(source, cursor + 2);
    s := Blanks(source[cursor + 2..next]);
    assert source[cursor..next] == [92, 122] + source[cursor + 2..next];
  }

  lemma ControlOf(x: Byte) returns (c: Byte)
    requires x in LETTERS
    ensures 7 <= c <= 13 && LETTERS[c - 7] == x
  {
    var k :| 0 <= k < |LETTERS| && LETTERS[k] == x;
    c := k + 7;
  }

  lemma EscapeSpelling(source: seq<Byte>, cursor: nat, next: nat) returns (s: Spelling)
    requires cursor + 1 < |source| && source[cursor] == 92 && !IsDigit(source[cursor + 1])
    requires ReadEscape(source, cursor + 1).Piece? && next == ReadEscape(source, cursor + 1).next
    ensures Ok(s) && next <= |source| && source[cursor..next] == Spell(s) && EndsBefore(s, source, next)
  {
    var x := source[cursor + 1];
    if x in LETTERS {
      var c := ControlOf(x);
      s := Control(c);
    } else if x == 10 {
      s := Line(Feed);
    } else if x == 13 {
      s := Line(if next == cursor + 3 then ReturnFeed else Return);
    } else if x == 122 {
      s := BlankEscapeSpelling(source, cursor, next);
    } else if x == 120 {
      s := HexEscapeSpelling(source, cursor, next);
    } else {
      s := Escaped(x);
    }
  }

  /** The reader takes exactly the spellings, each as what it stands for. */
  lemma ReadsExactlySpellings(source: seq<Byte>, cursor: nat, bytes: seq<Byte>, next: nat)
    ensures ReadItem(source, cursor) == Piece(bytes, next)
       <==> exists s :: SpelledAt(source, cursor, s) && bytes == Meaning(s) && next == cursor + |Spell(s)|
  {
    if ReadItem(source, cursor) == Piece(bytes, next) {
      var s := ItemIsSpelled(source, cursor);
      SpellingReads(source, cursor, s);
    }
    if s :| SpelledAt(source, cursor, s) && bytes == Meaning(s) && next == cursor + |Spell(s)| {
      SpellingReads(source, cursor, s);
    }
  }
}
