/** Payloads spelled in a sixteen-letter alphabet of their own, shifted by a rolling key. */
module Alphabet {
  import opened Bytes

  const LETTERS := 16
  const MAX_TEXT := 2 * 64 * 1024 * 1024 + 16

  // ---------- candidates ----------

  ghost predicate Distinct(s: seq<Byte>) {
    forall i, j :: 0 <= i < j < |s| ==> s[i] != s[j]
  }

  ghost predicate IsCandidate(text: seq<Byte>) {
    && 18 <= |text| <= MAX_TEXT && (|text| - LETTERS) % 2 == 0
    && Distinct(text[..LETTERS]) && forall k :: 0 <= k < LETTERS ==> text[k] != 13 && text[k] != 10
  }

  method AlphabetCandidate(text: seq<Byte>) returns (ok: bool)
    ensures ok <==> IsCandidate(text)
  {
    if |text| < 18 || (|text| - LETTERS) % 2 != 0 || |text| > MAX_TEXT {
      return false;
    }
    var seen := new bool[256](_ => false);
    for index := 0 to LETTERS
      invariant seen.Length == 256
      invariant forall b: Byte :: seen[b] <==> b in text[..index]
      invariant Distinct(text[..index]) && forall k :: 0 <= k < index ==> text[k] != 13 && text[k] != 10
    {
      var byte := text[index];
      if seen[byte] {
        ghost var k :| 0 <= k < index && text[..index][k] == byte;
        assert text[..LETTERS][k] == text[..LETTERS][index];
        return false;
      }
      if byte == 13 || byte == 10 {
        return false;
      }
      seen[byte] := true;
      assert text[..index + 1] == text[..index] + [byte];
    }
    ok := true;
  }

  // ---------- the code ----------

  /** The last place of a letter, or -1. */
  function LetterValue(letters: seq<Byte>, c: Byte): (v: int)
    ensures -1 <= v < |letters|
    ensures v >= 0 ==> letters[v] == c
    ensures v == -1 ==> c !in letters
    decreases |letters|
  {
    if letters == [] then -1
    else if letters[|letters| - 1] == c then |letters| - 1
    else LetterValue(letters[..|letters| - 1], c)
  }

  /** A half byte; characters outside the alphabet count as zero. */
  function Nibble(letters: seq<Byte>, c: Byte): (v: nat)
    ensures v < |letters| || v == 0
  {
    if LetterValue(letters, c) < 0 then 0 else LetterValue(letters, c)
  }

  function Pairs(text: seq<Byte>): nat
    requires |text| >= LETTERS
  {
    (|text| - LETTERS + 1) / 2
  }

  /** The `k`th payload byte. A pair cut short counts its second half as zero. */
  function PayloadByte(text: seq<Byte>, key: Byte, k: nat): Byte
    requires |text| >= LETTERS && k < Pairs(text)
  {
    var letters := text[..LETTERS];
    var at := LETTERS + 2 * k;
    var low := if at + 1 < |text| then Nibble(letters, text[at + 1]) else 0;
    (Nibble(letters, text[at]) * 16 + low + key * (k + 1)) % 256
  }

  function Decoded(text: seq<Byte>, key: Byte): (r: seq<Byte>)
    requires |text| >= LETTERS
    ensures |r| == Pairs(text) && forall k :: 0 <= k < |r| ==> r[k] == PayloadByte(text, key, k)
  {
    seq(Pairs(text), k requires 0 <= k < Pairs(text) => PayloadByte(text, key, k))
  }

  lemma RollingStep(key: Byte, k: nat)
    ensures (key * (k + 1) % 256 + key) % 256 == key * (k + 2) % 256
  {
    assert key * (k + 2) == key * (k + 1) + key;
  }

  lemma RollingAdds(v: nat, rolling: nat, shift: nat)
    requires rolling == shift % 256
    ensures (v + rolling) % 256 == (v + shift) % 256
  {
  }

  method DecodeAlphabetPayload(text: seq<Byte>, key: Byte) returns (decoded: seq<Byte>)
    requires |text| >= LETTERS
    ensures decoded == Decoded(text, key)
  {
    var letters := text[..LETTERS];
    var alphabet := new int[256](_ => -1);
    for index := 0 to LETTERS
      invariant forall b: Byte :: alphabet[b] == LetterValue(text[..index], b)
    {
      alphabet[text[index]] := index;
      assert text[..index + 1][..index] == text[..index];
    }
    decoded := [];
    var rolling: nat := key;
    var index := LETTERS;
    while index < |text|
      invariant index == LETTERS + 2 * |decoded| && |decoded| <= Pairs(text)
      invariant forall b: Byte :: alphabet[b] == LetterValue(letters, b)
      invariant rolling == key * (|decoded| + 1) % 256
      invariant forall k :: 0 <= k < |decoded| ==> decoded[k] == PayloadByte(text, key, k)
    {
      var left := alphabet[text[index]];
      var right := if index + 1 < |text| then alphabet[text[index + 1]] else -1;
      var hi, lo := if left < 0 then 0 else left, if right < 0 then 0 else right;
      RollingAdds(hi * 16 + lo, rolling, key * (|decoded| + 1));
      RollingStep(key, |decoded|);
      decoded := decoded + [(hi * 16 + lo + rolling) % 256];
      rolling := (rolling + key) % 256;
      index := index + 2;
    }
  }

  // ---------- the encoder it undoes ----------

  /** The value whose letters spell the `k`th byte under the key. */
  function Shifted(b: Byte, key: Byte, k: nat): Byte {
    (b - key * (k + 1)) % 256
  }

  /** A payload spelled under an alphabet and a key. */
  function Encoded(letters: seq<Byte>, payload: seq<Byte>, key: Byte): (r: seq<Byte>)
    requires |letters| == LETTERS
    ensures |r| == LETTERS + 2 * |payload| && r[..LETTERS] == letters
  {
    letters + seq(2 * |payload|, i requires 0 <= i < 2 * |payload| =>
      var v := Shifted(payload[i / 2], key, i / 2);
      letters[if i % 2 == 0 then v / 16 else v % 16])
  }

  lemma {:induction false} LetterOfDistinct(letters: seq<Byte>, v: nat)
    requires Distinct(letters) && v < |letters|
    ensures LetterValue(letters, letters[v]) == v
  {
    assert LetterValue(letters, letters[v]) >= 0;
  }

  lemma ShiftBack(b: Byte, key: Byte, k: nat)
    ensures (Shifted(b, key, k) + key * (k + 1)) % 256 == b
  {
    var s := key * (k + 1);
    assert (b - s) % 256 == b - s - (b - s) / 256 * 256;
  }

  lemma EncodedAt(letters: seq<Byte>, payload: seq<Byte>, key: Byte, k: nat)
    requires |letters| == LETTERS && k < |payload|
    ensures var text, v := Encoded(letters, payload, key), Shifted(payload[k], key, k);
      text[LETTERS + 2 * k] == letters[v / 16] && text[LETTERS + 2 * k + 1] == letters[v % 16]
  {
  }

  /** Decoding undoes encoding, whatever the alphabet, the key and the payload. */
  lemma DecodeOfEncode(letters: seq<Byte>, payload: seq<Byte>, key: Byte)
    requires |letters| == LETTERS && Distinct(letters)
    ensures Decoded(Encoded(letters, payload, key), key) == payload
  {
    var text := Encoded(letters, payload, key);
    forall k | 0 <= k < |payload|
      ensures PayloadByte(text, key, k) == payload[k]
    {
      var v := Shifted(payload[k], key, k);
      EncodedAt(letters, payload, key, k);
      LetterOfDistinct(letters, v / 16);
      LetterOfDistinct(letters, v % 16);
      ShiftBack(payload[k], key, k);
    }
  }

  lemma ShiftForth(v: Byte, key: Byte, k: nat)
    ensures Shifted((v + key * (k + 1)) % 256, key, k) == v
  {
    var s := key * (k + 1);
    assert (v + s) % 256 - s == v - (v + s) / 256 * 256;
  }

  /** The value behind a pair of letters, and the letters behind the value. */
  lemma PairReads(text: seq<Byte>, key: Byte, k: nat)
    requires |text| >= LETTERS && LETTERS + 2 * k + 1 < |text|
    requires text[LETTERS + 2 * k] in text[..LETTERS] && text[LETTERS + 2 * k + 1] in text[..LETTERS]
    ensures k < Pairs(text)
    ensures var v := Shifted(PayloadByte(text, key, k), key, k);
      text[v / 16] == text[LETTERS + 2 * k] && text[v % 16] == text[LETTERS + 2 * k + 1]
  {
    var letters := text[..LETTERS];
    var hi, lo := LetterValue(letters, text[LETTERS + 2 * k]), LetterValue(letters, text[LETTERS + 2 * k + 1]);
    var v: Byte := hi * 16 + lo;
    ShiftForth(v, key, k);
    assert letters[hi] == text[hi] && letters[lo] == text[lo];
    assert v / 16 == hi && v % 16 == lo;
  }

  lemma PairAgain(text: seq<Byte>, key: Byte, again: seq<Byte>, k: nat)
    requires |text| >= LETTERS && LETTERS + 2 * k + 1 < |text| == |again|
    requires again == Encoded(text[..LETTERS], Decoded(text, key), key)
    requires text[LETTERS + 2 * k] in text[..LETTERS] && text[LETTERS + 2 * k + 1] in text[..LETTERS]
    ensures again[LETTERS + 2 * k] == text[LETTERS + 2 * k] && again[LETTERS + 2 * k + 1] == text[LETTERS + 2 * k + 1]
  {
    PairReads(text, key, k);
    EncodedAt(text[..LETTERS], Decoded(text, key), key, k);
  }

  /** A candidate written in its own letters alone is the encoding of what it decodes to: no two texts are confused. */
  lemma EncodeOfDecode(text: seq<Byte>, key: Byte)
    requires IsCandidate(text) && forall i :: LETTERS <= i < |text| ==> text[i] in text[..LETTERS]
    ensures Encoded(text[..LETTERS], Decoded(text, key), key) == text
  {
    var again := Encoded(text[..LETTERS], Decoded(text, key), key);
    forall k: nat | LETTERS + 2 * k + 1 < |text|
      ensures again[LETTERS + 2 * k] == text[LETTERS + 2 * k] && again[LETTERS + 2 * k + 1] == text[LETTERS + 2 * k + 1]
    {
      PairAgain(text, key, again, k);
    }
    forall i | 0 <= i < |text|
      ensures again[i] == text[i]
    {
      if i < LETTERS {
        assert again[..LETTERS][i] == text[..LETTERS][i];
      } else {
        var k: nat := (i - LETTERS) / 2;
        assert LETTERS + 2 * k + 1 < |text| && (i == LETTERS + 2 * k || i == LETTERS + 2 * k + 1);
      }
    }
  }
}
