/** The stable sort behind Array.prototype.sort with a numeric comparison. */
module Sorting {

  ghost predicate Sorted<T>(s: seq<T>, key: T -> int) {
    forall i, j :: 0 <= i < j < |s| ==> key(s[i]) <= key(s[j])
  }

  /** Puts x behind every element whose key is not larger: the step that makes the sort stable. */
  function InsertBy<T>(s: seq<T>, x: T, key: T -> int): seq<T> {
    if s == [] || key(s[|s| - 1]) <= key(x) then s + [x]
    else InsertBy(s[..|s| - 1], x, key) + [s[|s| - 1]]
  }

  function SortBy<T>(s: seq<T>, key: T -> int): seq<T> {
    if s == [] then [] else InsertBy(SortBy(s[..|s| - 1], key), s[|s| - 1], key)
  }

  lemma {:induction false} InsertAdds<T>(s: seq<T>, x: T, key: T -> int)
    ensures multiset(InsertBy(s, x, key)) == multiset(s) + multiset{x}
    ensures |InsertBy(s, x, key)| == |s| + 1
    ensures forall y :: y in InsertBy(s, x, key) <==> y in s || y == x
    ensures forall i :: 0 <= i < |InsertBy(s, x, key)| ==> InsertBy(s, x, key)[i] in s || InsertBy(s, x, key)[i] == x
  {
    if s != [] && key(s[|s| - 1]) > key(x) {
      assert s == s[..|s| - 1] + [s[|s| - 1]];
      InsertAdds(s[..|s| - 1], x, key);
    }
  }

  lemma {:induction false} InsertKeepsSorted<T>(s: seq<T>, x: T, key: T -> int)
    requires Sorted(s, key)
    ensures Sorted(InsertBy(s, x, key), key)
  {
    if s != [] && key(s[|s| - 1]) > key(x) {
      var init, last := s[..|s| - 1], s[|s| - 1];
      InsertKeepsSorted(init, x, key);
      InsertAdds(init, x, key);
      var r := InsertBy(init, x, key);
      forall i | 0 <= i < |r| ensures key(r[i]) <= key(last) {
        if r[i] != x {
          assert r[i] in init;
          var n :| 0 <= n < |init| && init[n] == r[i];
        }
      }
    }
  }

  lemma {:induction false} SortIsSortedPermutation<T>(s: seq<T>, key: T -> int)
    ensures Sorted(SortBy(s, key), key)
    ensures multiset(SortBy(s, key)) == multiset(s)
    ensures |SortBy(s, key)| == |s|
    ensures forall y :: y in SortBy(s, key) <==> y in s
    ensures forall i :: 0 <= i < |s| ==> SortBy(s, key)[i] in s
  {
    if s != [] {
      var init := s[..|s| - 1];
      assert s == init + [s[|s| - 1]];
      SortIsSortedPermutation(init, key);
      InsertKeepsSorted(SortBy(init, key), s[|s| - 1], key);
      InsertAdds(SortBy(init, key), s[|s| - 1], key);
    }
  }

  /** By key, and among equal keys by a second one. */
  ghost predicate SortedWithin<T>(s: seq<T>, key: T -> int, within: T -> int) {
    forall i, j :: 0 <= i < j < |s| ==> Ahead(s[i], s[j], key, within)
  }

  predicate Ahead<T>(a: T, b: T, key: T -> int, within: T -> int) {
    key(a) < key(b) || (key(a) == key(b) && within(a) < within(b))
  }

  lemma {:induction false} InsertStays<T>(s: seq<T>, x: T, key: T -> int, within: T -> int)
    requires SortedWithin(s, key, within) && forall n :: 0 <= n < |s| ==> within(s[n]) < within(x)
    ensures SortedWithin(InsertBy(s, x, key), key, within)
  {
    if s != [] && key(s[|s| - 1]) > key(x) {
      var init, last := s[..|s| - 1], s[|s| - 1];
      InsertStays(init, x, key, within);
      InsertAdds(init, x, key);
      var r := InsertBy(init, x, key);
      forall i | 0 <= i < |r| ensures Ahead(r[i], last, key, within) {
        if r[i] != x {
          assert r[i] in init;
          var n :| 0 <= n < |init| && init[n] == r[i];
          assert s[n] == r[i];
        }
      }
    } else if s != [] {
      forall i | 0 <= i < |s| ensures Ahead(s[i], x, key, within) {
        assert i < |s| - 1 ==> Ahead(s[i], s[|s| - 1], key, within);
      }
    }
  }

  /** The sort keeps the given order among equal keys. */
  lemma {:induction false} SortIsStable<T>(s: seq<T>, key: T -> int, within: T -> int)
    requires forall i, j :: 0 <= i < j < |s| ==> within(s[i]) < within(s[j])
    ensures SortedWithin(SortBy(s, key), key, within)
  {
    if s != [] {
      var init := s[..|s| - 1];
      SortIsStable(init, key, within);
      SortIsSortedPermutation(init, key);
      var t := SortBy(init, key);
      forall n | 0 <= n < |t| ensures within(t[n]) < within(s[|s| - 1]) {
        assert t[n] in init;
        var m :| 0 <= m < |init| && init[m] == t[n];
        assert s[m] == t[n];
      }
      InsertStays(t, s[|s| - 1], key, within);
    }
  }

  /** No two elements share a name. */
  predicate DistinctBy<T>(s: seq<T>, name: T -> string) {
    forall i, j :: 0 <= i < j < |s| ==> name(s[i]) != name(s[j])
  }

  lemma {:induction false} InsertKeepsDistinct<T>(s: seq<T>, x: T, key: T -> int, name: T -> string)
    requires DistinctBy(s, name) && forall n :: 0 <= n < |s| ==> name(s[n]) != name(x)
    ensures DistinctBy(InsertBy(s, x, key), name)
  {
    if s != [] && key(s[|s| - 1]) > key(x) {
      var init := s[..|s| - 1];
      InsertKeepsDistinct(init, x, key, name);
      InsertAdds(init, x, key);
      var r := InsertBy(init, x, key);
      forall i | 0 <= i < |r| ensures name(r[i]) != name(s[|s| - 1]) {
        if r[i] != x {
          assert r[i] in init;
          var n :| 0 <= n < |init| && init[n] == r[i];
        }
      }
    }
  }

  lemma {:induction false} SortKeepsDistinct<T>(s: seq<T>, key: T -> int, name: T -> string)
    requires DistinctBy(s, name)
    ensures DistinctBy(SortBy(s, key), name)
  {
    if s != [] {
      var init := s[..|s| - 1];
      SortKeepsDistinct(init, key, name);
      SortIsSortedPermutation(init, key);
      forall i | 0 <= i < |init| ensures name(SortBy(init, key)[i]) != name(s[|s| - 1]) {
        var n :| 0 <= n < |init| && init[n] == SortBy(init, key)[i];
      }
      InsertKeepsDistinct(SortBy(init, key), s[|s| - 1], key, name);
    }
  }
}
