/** Sorted lists without duplicates. */
module Sorting {
  predicate Ascending(s: seq<nat>) {
    forall i, j :: 0 <= i < j < |s| ==> s[i] < s[j]
  }

  lemma LastIsLargest(s: seq<nat>)
    requires Ascending(s) && s != []
    ensures forall x :: x in s[..|s| - 1] <==> x in s && x < s[|s| - 1]
    ensures forall x :: x in s ==> x <= s[|s| - 1]
  {
    assert s == s[..|s| - 1] + [s[|s| - 1]];
  }

  function Members<T(==)>(s: seq<T>): set<T> {
    set x | x in s
  }

  /** A sorted list without duplicates is as long as the set of its members is large. */
  lemma {:induction false} AscendingSize(s: seq<nat>)
    requires Ascending(s)
    ensures |Members(s)| == |s|
    decreases |s|
  {
    if s == [] {
      assert Members(s) == {};
    } else {
      LastIsLargest(s);
      var init, last := s[..|s| - 1], s[|s| - 1];
      AscendingSize(init);
      assert last !in init && forall x :: x in s <==> x in init || x == last;
      assert Members(s) == Members(init) + {last};
    }
  }

  lemma {:induction false} AscendingUnique(s: seq<nat>, t: seq<nat>)
    requires Ascending(s) && Ascending(t) && forall x :: x in s <==> x in t
    ensures s == t
    decreases |s|
  {
    assert s != [] ==> s[0] in t;
    assert t != [] ==> t[0] in s;
    if s != [] {
      LastIsLargest(s);
      LastIsLargest(t);
      var a, b := s[|s| - 1], t[|t| - 1];
      assert a in t && b in s;
      assert a == b;
      var s', t' := s[..|s| - 1], t[..|t| - 1];
      forall x ensures x in s' <==> x in t' {
        assert x in s' <==> x in s && x < a;
        assert x in t' <==> x in t && x < b;
      }
      AscendingUnique(s', t');
      assert s == s[..|s| - 1] + [a] && t == t[..|t| - 1] + [b];
    }
  }
}
