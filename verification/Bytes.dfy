/** Bytes, as the binary formats use them, and where they stand. */
module Bytes {
  type Byte = x: int | 0 <= x < 256

  /** Byte `k` of `part` stands in `source`. */
  ghost predicate Here(source: seq<Byte>, cursor: nat, part: seq<Byte>, k: nat)
    requires k < |part|
  {
    cursor + k < |source| && source[cursor + k] == part[k]
  }

  /** `part` stands in `source` at `cursor`. */
  ghost predicate Stands(source: seq<Byte>, cursor: nat, part: seq<Byte>) {
    cursor + |part| <= |source| && forall k: nat {:trigger Here(source, cursor, part, k)} :: k < |part| ==> Here(source, cursor, part, k)
  }

  lemma StandsIff(source: seq<Byte>, cursor: nat, part: seq<Byte>)
    ensures Stands(source, cursor, part) <==> cursor + |part| <= |source| && source[cursor..cursor + |part|] == part
  {
    if cursor + |part| <= |source| {
      if source[cursor..cursor + |part|] == part {
        forall k: nat | k < |part| ensures Here(source, cursor, part, k) {
          assert source[cursor..cursor + |part|][k] == part[k];
        }
      }
      if Stands(source, cursor, part) {
        forall k: nat | k < |part| ensures source[cursor..cursor + |part|][k] == part[k] {
          assert Here(source, cursor, part, k);
        }
      }
    }
  }

  lemma StandsSplit(source: seq<Byte>, cursor: nat, left: seq<Byte>, right: seq<Byte>)
    requires Stands(source, cursor, left + right)
    ensures Stands(source, cursor, left) && Stands(source, cursor + |left|, right)
  {
    forall k: nat | k < |left| ensures Here(source, cursor, left, k) {
      assert Here(source, cursor, left + right, k);
    }
    var at := cursor + |left|;
    forall k: nat | k < |right| ensures Here(source, at, right, k) {
      assert Here(source, cursor, left + right, |left| + k);
    }
  }

  lemma StandsSplitThree(source: seq<Byte>, cursor: nat, x: seq<Byte>, y: seq<Byte>, z: seq<Byte>)
    requires Stands(source, cursor, x + (y + z))
    ensures Stands(source, cursor, x) && Stands(source, cursor + |x|, y) && Stands(source, cursor + |x| + |y|, z)
    ensures |x + (y + z)| == |x| + |y| + |z|
  {
    StandsSplit(source, cursor, x, y + z);
    StandsSplit(source, cursor + |x|, y, z);
  }

  lemma StandsAt(source: seq<Byte>, cursor: nat, part: seq<Byte>, k: nat)
    requires Stands(source, cursor, part) && k < |part|
    ensures cursor + k < |source| && source[cursor + k] == part[k]
  {
    assert Here(source, cursor, part, k);
  }

  lemma StandsBetween(before: seq<Byte>, part: seq<Byte>, after: seq<Byte>)
    ensures Stands(before + part + after, |before|, part)
  {
    StandsIff(before + part + after, |before|, part);
  }

  /** The `n` bytes of a number, the lowest first. */
  function LittleEndian(v: nat, n: nat): (r: seq<Byte>)
    ensures |r| == n
  {
    if n == 0 then [] else [v % 256] + LittleEndian(v / 256, n - 1)
  }

  lemma TwoBytes(v: nat)
    ensures LittleEndian(v, 2) == [v % 256, v / 256 % 256]
  {
    assert LittleEndian(v / 256, 1) == [v / 256 % 256] + LittleEndian(v / 256 / 256, 0);
  }

  lemma FourBytes(v: nat)
    ensures LittleEndian(v, 4) == [v % 256, v / 256 % 256, v / 256 / 256 % 256, v / 256 / 256 / 256 % 256]
  {
    TwoBytes(v / 256 / 256);
    assert LittleEndian(v / 256, 3) == [v / 256 % 256] + LittleEndian(v / 256 / 256, 2);
  }

  /** The spellings of a list, one behind the other. */
  function Joined<T>(xs: seq<T>, write: T -> seq<Byte>): seq<Byte> {
    if xs == [] then [] else write(xs[0]) + Joined(xs[1..], write)
  }

  lemma JoinedHead<T>(data: seq<Byte>, p: nat, xs: seq<T>, write: T -> seq<Byte>)
    requires xs != [] && Stands(data, p, Joined(xs, write))
    ensures Stands(data, p, write(xs[0])) && Stands(data, p + |write(xs[0])|, Joined(xs[1..], write))
    ensures |Joined(xs, write)| == |write(xs[0])| + |Joined(xs[1..], write)| && xs == [xs[0]] + xs[1..]
  {
    StandsSplit(data, p, write(xs[0]), Joined(xs[1..], write));
  }

  /** A list is at least as long as the shortest spelling times its size. */
  lemma {:induction false} JoinedLong<T>(xs: seq<T>, write: T -> seq<Byte>, least: nat)
    requires forall x :: |write(x)| >= least
    ensures |Joined(xs, write)| >= least * |xs|
    decreases |xs|
  {
    if xs != [] {
      JoinedLong(xs[1..], write, least);
      assert least * |xs| == least + least * |xs[1..]|;
    }
  }
}
