/** Datatypes shared by every module. */
module Common {

  datatype Option<+T> = None | Some(value: T)

  function Min(a: int, b: int): int {
    if a <= b then a else b
  }

  function Max(a: int, b: int): int {
    if a <= b then b else a
  }

  /** The last n elements, or all of them if there are fewer. */
  function Last<T>(n: nat, s: seq<T>): seq<T> {
    if |s| <= n then s else s[|s| - n..]
  }

  lemma SubsetSize<T>(a: set<T>, b: set<T>)
    requires a <= b
    ensures |a| <= |b|
    ensures a != b ==> |a| < |b|
  {
    assert b == a + (b - a);
    assert |b| == |a| + |b - a|;
  }

  /** No element occurs at two positions. */
  ghost predicate NoRepeats<T>(s: seq<T>) {
    forall i, j :: 0 <= i < j < |s| ==> s[i] != s[j]
  }

  /** The elements of s other than x, in order. */
  function Without<T(==, !new)>(s: seq<T>, x: T): (r: seq<T>)
    ensures forall y :: y in r <==> y in s && y != x
    ensures |r| <= |s|
  {
    if s == [] then []
    else if s[0] == x then Without(s[1..], x)
    else [s[0]] + Without(s[1..], x)
  }

  lemma {:induction false} WithoutNoRepeats<T(!new)>(s: seq<T>, x: T)
    requires NoRepeats(s)
    ensures NoRepeats(Without(s, x))
    ensures |Without(s, x)| == if x in s then |s| - 1 else |s|
  {
    if s == [] {
    } else if s[0] == x {
      assert x !in s[1..];
      WithoutAbsent(s[1..], x);
    } else {
      WithoutNoRepeats(s[1..], x);
      assert s[0] !in s[1..];
      assert x in s <==> x in s[1..];
    }
  }

  lemma {:induction false} WithoutAbsent<T(!new)>(s: seq<T>, x: T)
    requires x !in s
    ensures Without(s, x) == s
  {
    if s != [] {
      WithoutAbsent(s[1..], x);
    }
  }

  lemma WithoutHead<T(!new)>(y: T, s: seq<T>, x: T)
    ensures Without([y] + s, x) == if y == x then Without(s, x) else [y] + Without(s, x)
  {
    assert ([y] + s)[1..] == s;
  }

  lemma DropFirst<T(!new)>(s: seq<T>)
    requires s != [] && NoRepeats(s)
    ensures Without(s, s[0]) == s[1..]
  {
    WithoutAbsent(s[1..], s[0]);
    WithoutHead(s[0], s[1..], s[0]);
    assert s == [s[0]] + s[1..];
  }

  /** A set listed without repeats has as many elements as the list. */
  lemma {:induction false} NoRepeatsCardinality<T(!new)>(s: seq<T>, m: set<T>)
    requires NoRepeats(s)
    requires forall x :: x in s <==> x in m
    ensures |s| == |m|
  {
    if s == [] {
      assert m == {};
    } else {
      assert s[0] !in s[1..];
      forall x ensures x in s[1..] <==> x in m - {s[0]} {
        assert x in s <==> x == s[0] || x in s[1..];
      }
      NoRepeatsCardinality(s[1..], m - {s[0]});
    }
  }
}
