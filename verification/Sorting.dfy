/** Stable sorting by an order that is given as a parameter, and the one sorted list of a set. */
module Sorting {

  /** Asymmetric and transitive. */
  ghost predicate StrictOrder<T(!new)>(before: (T, T) -> bool) {
    && (forall a, b :: before(a, b) ==> !before(b, a))
    && (forall a, b, c :: before(a, b) && before(b, c) ==> before(a, c))
  }

  /** Every element stands before all later ones. */
  ghost predicate Increasing<T>(s: seq<T>, before: (T, T) -> bool) {
    forall i, j :: 0 <= i < j < |s| ==> before(s[i], s[j])
  }

  /** No element belongs before an earlier one. */
  ghost predicate Ascending<T>(s: seq<T>, before: (T, T) -> bool) {
    forall i, j :: 0 <= i < j < |s| ==> !before(s[j], s[i])
  }

  /** Behind the last element that x does not belong before. */
  function Insert<T(!new)>(s: seq<T>, x: T, before: (T, T) -> bool): (r: seq<T>)
    ensures forall y :: y in r <==> y in s || y == x
    ensures |r| == |s| + 1
  {
    if s == [] || !before(x, s[|s| - 1]) then s + [x]
    else
      assert s == s[..|s| - 1] + [s[|s| - 1]];
      Insert(s[..|s| - 1], x, before) + [s[|s| - 1]]
  }

  /** Elements that neither belongs before the other keep their order. */
  function Sort<T(!new)>(s: seq<T>, before: (T, T) -> bool): (r: seq<T>)
    ensures forall y :: y in r <==> y in s
    ensures |r| == |s|
  {
    if s == [] then []
    else
      assert s == s[..|s| - 1] + [s[|s| - 1]];
      Insert(Sort(s[..|s| - 1], before), s[|s| - 1], before)
  }

  lemma {:induction false} InsertAdds<T(!new)>(s: seq<T>, x: T, before: (T, T) -> bool)
    ensures multiset(Insert(s, x, before)) == multiset(s) + multiset{x}
  {
    if s != [] && before(x, s[|s| - 1]) {
      InsertAdds(s[..|s| - 1], x, before);
      assert s == s[..|s| - 1] + [s[|s| - 1]];
    }
  }

  lemma {:induction false} SortPermutes<T(!new)>(s: seq<T>, before: (T, T) -> bool)
    ensures multiset(Sort(s, before)) == multiset(s)
  {
    if s != [] {
      SortPermutes(s[..|s| - 1], before);
      InsertAdds(Sort(s[..|s| - 1], before), s[|s| - 1], before);
      assert s == s[..|s| - 1] + [s[|s| - 1]];
    }
  }

  lemma {:induction false} InsertIncreasing<T(!new)>(s: seq<T>, x: T, before: (T, T) -> bool)
    requires StrictOrder(before) && Increasing(s, before)
    requires forall y :: y in s ==> before(x, y) || before(y, x)
    ensures Increasing(Insert(s, x, before), before)
  {
    if s != [] {
      var front, last := s[..|s| - 1], s[|s| - 1];
      if before(x, last) {
        InsertIncreasing(front, x, before);
        var r := Insert(front, x, before);
        forall i | 0 <= i < |r| ensures before(r[i], last) {
          assert r[i] in r;
        }
      } else {
        forall i | 0 <= i < |s| ensures before(s[i], x) {
          assert i < |s| - 1 ==> before(s[i], last);
        }
      }
    }
  }

  lemma {:induction false} InsertAscending<T(!new)>(s: seq<T>, x: T, before: (T, T) -> bool)
    requires StrictOrder(before) && Ascending(s, before)
    requires forall a, b, c :: !before(a, b) && !before(b, c) ==> !before(a, c)
    ensures Ascending(Insert(s, x, before), before)
  {
    if s != [] && before(x, s[|s| - 1]) {
      InsertAscending(s[..|s| - 1], x, before);
      var r := Insert(s[..|s| - 1], x, before);
      forall i | 0 <= i < |r| ensures !before(s[|s| - 1], r[i]) {
        assert r[i] in r;
      }
    }
  }

  lemma {:induction false} SortAscending<T(!new)>(s: seq<T>, before: (T, T) -> bool)
    requires StrictOrder(before)
    requires forall a, b, c :: !before(a, b) && !before(b, c) ==> !before(a, c)
    ensures Ascending(Sort(s, before), before)
  {
    if s != [] {
      SortAscending(s[..|s| - 1], before);
      InsertAscending(Sort(s[..|s| - 1], before), s[|s| - 1], before);
    }
  }

  lemma InsertLast<T(!new)>(s: seq<T>, x: T, before: (T, T) -> bool)
    requires s != [] ==> !before(x, s[|s| - 1])
    ensures Insert(s, x, before) == s + [x]
  {
  }

  lemma SortSnoc<T(!new)>(s: seq<T>, before: (T, T) -> bool)
    requires s != []
    ensures Sort(s, before) == Insert(Sort(s[..|s| - 1], before), s[|s| - 1], before)
  {
  }

  lemma AscendingFront<T>(s: seq<T>, before: (T, T) -> bool)
    requires s != [] && Ascending(s, before)
    ensures var front := s[..|s| - 1];
      Ascending(front, before) && (front != [] ==> !before(s[|s| - 1], front[|front| - 1]))
  {
  }

  /** Sorting leaves a sorted list as it is. */
  lemma {:induction false} SortOfAscending<T(!new)>(s: seq<T>, before: (T, T) -> bool)
    requires Ascending(s, before)
    ensures Sort(s, before) == s
  {
    if s == [] {
    } else {
      hide *;
      var front, last := s[..|s| - 1], s[|s| - 1];
      SortSnoc(s, before);
      AscendingFront(s, before);
      SortOfAscending(front, before);
      InsertLast(front, last, before);
      assert s == front + [last];
    }
  }

  /** Of two elements at different places one belongs before the other. */
  ghost predicate Comparable<T>(s: seq<T>, before: (T, T) -> bool) {
    forall i, j :: 0 <= i < j < |s| ==> before(s[i], s[j]) || before(s[j], s[i])
  }

  lemma {:induction false} SortIncreasing<T(!new)>(s: seq<T>, before: (T, T) -> bool)
    requires StrictOrder(before) && Comparable(s, before)
    ensures Increasing(Sort(s, before), before)
  {
    if s != [] {
      var front, x := s[..|s| - 1], s[|s| - 1];
      SortIncreasing(front, before);
      forall y | y in Sort(front, before) ensures before(x, y) || before(y, x) {
        var i :| 0 <= i < |front| && front[i] == y;
        assert s[i] == y;
      }
      InsertIncreasing(Sort(front, before), x, before);
    }
  }

  lemma WithoutLast<T>(s: seq<T>, before: (T, T) -> bool, x: T)
    requires s != [] && Increasing(s, before) && !before(s[|s| - 1], s[|s| - 1])
    ensures x in s[..|s| - 1] <==> x in s && x != s[|s| - 1]
  {
    assert s == s[..|s| - 1] + [s[|s| - 1]];
    forall i | 0 <= i < |s| - 1 ensures s[i] != s[|s| - 1] {
      assert before(s[i], s[|s| - 1]);
    }
  }

  lemma LastIsIn<T>(s: seq<T>)
    ensures s != [] ==> s[|s| - 1] in s
  {
  }

  lemma SameLast<T(!new)>(s: seq<T>, t: seq<T>, before: (T, T) -> bool)
    requires StrictOrder(before) && s != [] && t != [] && Increasing(s, before) && Increasing(t, before)
    requires s[|s| - 1] in t && t[|t| - 1] in s
    ensures s[|s| - 1] == t[|t| - 1]
  {
    var i :| 0 <= i < |t| && t[i] == s[|s| - 1];
    var j :| 0 <= j < |s| && s[j] == t[|t| - 1];
    assert i < |t| - 1 ==> before(t[i], t[|t| - 1]);
    assert j < |s| - 1 ==> before(s[j], s[|s| - 1]);
  }

  /** An increasing list is known by its elements. */
  lemma {:induction false} IncreasingUnique<T(!new)>(s: seq<T>, t: seq<T>, before: (T, T) -> bool)
    requires StrictOrder(before) && Increasing(s, before) && Increasing(t, before)
    requires forall x :: x in s <==> x in t
    ensures s == t
  {
    LastIsIn(s);
    LastIsIn(t);
    if s != [] {
      SameLast(s, t, before);
      var s', t' := s[..|s| - 1], t[..|t| - 1];
      forall x ensures x in s' <==> x in t' {
        WithoutLast(s, before, x);
        WithoutLast(t, before, x);
      }
      IncreasingUnique(s', t', before);
      assert s == s' + [s[|s| - 1]] && t == t' + [t[|t| - 1]];
    }
  }
}
