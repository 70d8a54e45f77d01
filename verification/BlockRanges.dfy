/** Selecting the part of a block-ordered list that lies in a range of blocks. */
module BlockRanges {

  ghost predicate InBlockOrder<T>(s: seq<T>, block: T -> int) {
    forall i, j :: 0 <= i < j < |s| ==> block(s[i]) <= block(s[j])
  }

  /** The elements of the blocks lo to hi, in the given order. */
  function Within<T>(s: seq<T>, block: T -> int, lo: int, hi: int): seq<T> {
    if s == [] then []
    else
      var rest := Within(s[..|s| - 1], block, lo, hi);
      var last := s[|s| - 1];
      if lo <= block(last) <= hi then rest + [last] else rest
  }

  /** Adjacent ranges put together give the whole range, in order. */
  lemma {:induction false} RangesJoin<T>(s: seq<T>, block: T -> int, lo: int, mid: int, hi: int)
    requires InBlockOrder(s, block) && lo <= mid + 1 <= hi + 1
    ensures Within(s, block, lo, mid) + Within(s, block, mid + 1, hi) == Within(s, block, lo, hi)
  {
    if s != [] {
      var init, last := s[..|s| - 1], s[|s| - 1];
      RangesJoin(init, block, lo, mid, hi);
      if lo <= block(last) <= mid {
        NothingAfter(init, block, block(last), mid + 1, hi);
      }
    }
  }

  lemma {:induction false} NothingAfter<T>(s: seq<T>, block: T -> int, highest: int, lo: int, hi: int)
    requires forall i :: 0 <= i < |s| ==> block(s[i]) <= highest
    requires highest < lo
    ensures Within(s, block, lo, hi) == []
  {
    if s != [] {
      NothingAfter(s[..|s| - 1], block, highest, lo, hi);
    }
  }

  lemma {:induction false} EmptyRange<T>(s: seq<T>, block: T -> int, lo: int)
    ensures Within(s, block, lo, lo - 1) == []
  {
    if s != [] {
      EmptyRange(s[..|s| - 1], block, lo);
    }
  }

  lemma {:induction false} WithinIsFilter<T>(s: seq<T>, block: T -> int, lo: int, hi: int)
    ensures forall i :: 0 <= i < |s| && lo <= block(s[i]) <= hi ==> s[i] in Within(s, block, lo, hi)
    ensures forall i :: 0 <= i < |Within(s, block, lo, hi)| ==>
              Within(s, block, lo, hi)[i] in s && lo <= block(Within(s, block, lo, hi)[i]) <= hi
  {
    if s != [] {
      WithinIsFilter(s[..|s| - 1], block, lo, hi);
    }
  }
}
