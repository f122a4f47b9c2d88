/** Python's stable sort, for any order the callers sort by. */
module Sorting {

  ghost predicate Preorder<T(!new)>(le: (T, T) -> bool) {
    && (forall a, b :: le(a, b) || le(b, a))
    && (forall a, b, c :: le(a, b) && le(b, c) ==> le(a, c))
  }

  /** Puts `x` behind every element that is not larger. */
  function InsertBy<T>(s: seq<T>, x: T, le: (T, T) -> bool): (r: seq<T>)
    ensures |r| == |s| + 1
  {
    if s == [] || le(s[|s| - 1], x) then s + [x] else InsertBy(s[..|s| - 1], x, le) + [s[|s| - 1]]
  }

  function SortBy<T>(s: seq<T>, le: (T, T) -> bool): (r: seq<T>)
    ensures |r| == |s|
  {
    if s == [] then [] else InsertBy(SortBy(s[..|s| - 1], le), s[|s| - 1], le)
  }

  ghost predicate SortedBy<T>(s: seq<T>, le: (T, T) -> bool) {
    forall i, j :: 0 <= i < j < |s| ==> le(s[i], s[j])
  }

  lemma {:induction false} InsertKeeps<T>(s: seq<T>, x: T, le: (T, T) -> bool)
    ensures multiset(InsertBy(s, x, le)) == multiset(s) + multiset{x}
  {
    if s != [] && !le(s[|s| - 1], x) {
      InsertKeeps(s[..|s| - 1], x, le);
      assert s == s[..|s| - 1] + [s[|s| - 1]];
    }
  }

  /** The new element is the inserted one or was there before. */
  lemma {:induction false} InsertMembers<T>(s: seq<T>, x: T, le: (T, T) -> bool, y: T)
    ensures y in InsertBy(s, x, le) <==> y in s || y == x
  {
    if s != [] && !le(s[|s| - 1], x) {
      InsertMembers(s[..|s| - 1], x, le, y);
      assert s == s[..|s| - 1] + [s[|s| - 1]];
    }
  }

  lemma {:induction false} InsertSorted<T(!new)>(s: seq<T>, x: T, le: (T, T) -> bool)
    requires Preorder(le) && SortedBy(s, le)
    ensures SortedBy(InsertBy(s, x, le), le)
  {
    if s != [] {
      var front, last := s[..|s| - 1], s[|s| - 1];
      if le(last, x) {
        assert forall i :: 0 <= i < |front| ==> le(s[i], last);
      } else {
        InsertSorted(front, x, le);
        var r := InsertBy(front, x, le);
        forall i | 0 <= i < |r| ensures le(r[i], last) {
          InsertMembers(front, x, le, r[i]);
          assert r[i] in r;
        }
      }
    }
  }

  /** Sorting orders the elements and keeps every one as often as it was there. */
  lemma {:induction false} SortSorted<T(!new)>(s: seq<T>, le: (T, T) -> bool)
    requires Preorder(le)
    ensures SortedBy(SortBy(s, le), le)
    ensures multiset(SortBy(s, le)) == multiset(s)
  {
    if s != [] {
      var front, last := s[..|s| - 1], s[|s| - 1];
      SortSorted(front, le);
      InsertSorted(SortBy(front, le), last, le);
      InsertKeeps(SortBy(front, le), last, le);
      assert s == front + [last];
    }
  }

  /** What is sorted has the same elements. */
  lemma {:induction false} SortMembers<T>(s: seq<T>, le: (T, T) -> bool, y: T)
    ensures y in SortBy(s, le) <==> y in s
  {
    if s != [] {
      SortMembers(s[..|s| - 1], le, y);
      InsertMembers(SortBy(s[..|s| - 1], le), s[|s| - 1], le, y);
      assert s == s[..|s| - 1] + [s[|s| - 1]];
    }
  }

  /**
   Stability: where the input is arranged by `before` among equals, so is the
   output.  `before` compares elements neither of which is smaller.
   */
  ghost predicate StableBy<T>(s: seq<T>, le: (T, T) -> bool, before: (T, T) -> bool) {
    forall i, j :: 0 <= i < j < |s| && le(s[j], s[i]) ==> before(s[i], s[j])
  }

  lemma {:induction false} InsertStable<T(!new)>(s: seq<T>, x: T, le: (T, T) -> bool, before: (T, T) -> bool)
    requires Preorder(le) && StableBy(s, le, before) && SortedBy(s, le)
    requires forall i :: 0 <= i < |s| ==> before(s[i], x)
    ensures StableBy(InsertBy(s, x, le), le, before)
  {
    if s != [] && !le(s[|s| - 1], x) {
      var front, last := s[..|s| - 1], s[|s| - 1];
      InsertStable(front, x, le, before);
      var r := InsertBy(front, x, le);
      forall i | 0 <= i < |r| && le(last, r[i]) ensures before(r[i], last) {
        InsertMembers(front, x, le, r[i]);
        assert r[i] in r;
      }
    }
  }

  lemma {:induction false} SortStable<T(!new)>(s: seq<T>, le: (T, T) -> bool, before: (T, T) -> bool)
    requires Preorder(le) && forall i, j :: 0 <= i < j < |s| ==> before(s[i], s[j])
    ensures StableBy(SortBy(s, le), le, before)
  {
    if s != [] {
      var front, last := s[..|s| - 1], s[|s| - 1];
      SortStable(front, le, before);
      SortSorted(front, le);
      var r := SortBy(front, le);
      forall i | 0 <= i < |r| ensures before(r[i], last) {
        SortMembers(front, le, r[i]);
        assert r[i] in r;
      }
      InsertStable(r, last, le, before);
    }
  }
}
