/** A stable sort, and lists that an order determines. */
module Sorting {
  ghost predicate Orders<T(!new)>(le: (T, T) -> bool) {
    && (forall a, b :: le(a, b) || le(b, a))
    && (forall a, b, c :: le(a, b) && le(b, c) ==> le(a, c))
  }

  ghost predicate Sorted<T>(le: (T, T) -> bool, s: seq<T>) {
    forall i, j | 0 <= i < j < |s| :: le(s[i], s[j])
  }

  function Insert<T>(le: (T, T) -> bool, x: T, s: seq<T>): seq<T> {
    if s == [] || le(x, s[0]) then [x] + s else [s[0]] + Insert(le, x, s[1..])
  }

  function Sort<T>(le: (T, T) -> bool, s: seq<T>): seq<T> {
    if s == [] then [] else Insert(le, s[0], Sort(le, s[1..]))
  }

  lemma {:induction false} InsertAdds<T>(le: (T, T) -> bool, x: T, s: seq<T>)
    ensures multiset(Insert(le, x, s)) == multiset(s) + multiset{x}
    decreases |s|
  {
    if s != [] && !le(x, s[0]) {
      InsertAdds(le, x, s[1..]);
      assert s == [s[0]] + s[1..];
    }
  }

  /** A head that is before everything in a sorted tail. */
  lemma SortedFrom<T>(le: (T, T) -> bool, head: T, tail: seq<T>)
    requires Sorted(le, tail) && forall i | 0 <= i < |tail| :: le(head, tail[i])
    ensures Sorted(le, [head] + tail)
  {
  }

  lemma {:induction false} InsertKeeps<T(!new)>(le: (T, T) -> bool, x: T, s: seq<T>)
    requires Orders(le) && Sorted(le, s)
    ensures Sorted(le, Insert(le, x, s)) && multiset(Insert(le, x, s)) == multiset(s) + multiset{x}
    decreases |s|
  {
    InsertAdds(le, x, s);
    if s == [] || le(x, s[0]) {
      SortedFrom(le, x, s);
    } else {
      InsertKeeps(le, x, s[1..]);
      var r := Insert(le, x, s[1..]);
      forall i | 0 <= i < |r| ensures le(s[0], r[i]) {
        assert r[i] in multiset(r);
        assert r[i] == x || r[i] in s[1..];
      }
      SortedFrom(le, s[0], r);
    }
  }

  lemma {:induction false} SortSorts<T(!new)>(le: (T, T) -> bool, s: seq<T>)
    requires Orders(le)
    ensures Sorted(le, Sort(le, s)) && multiset(Sort(le, s)) == multiset(s)
    decreases |s|
  {
    if s != [] {
      SortSorts(le, s[1..]);
      InsertKeeps(le, s[0], Sort(le, s[1..]));
      assert s == [s[0]] + s[1..];
    }
  }

  // ---------------------------------------------------------------- stability

  lemma {:induction false} InsertAgrees<T>(le: (T, T) -> bool, finer: (T, T) -> bool, x: T, s: seq<T>)
    requires forall y | y in s :: le(x, y) <==> finer(x, y)
    ensures Insert(le, x, s) == Insert(finer, x, s)
    decreases |s|
  {
    if s != [] && !le(x, s[0]) { InsertAgrees(le, finer, x, s[1..]); }
  }

  /** Elements that `le` does not tell apart stay in their order: sorting a list by `le` sorts it
      by any finer order that agrees with the list where `le` leaves a choice. */
  lemma {:induction false} SortIsStable<T(!new)>(le: (T, T) -> bool, finer: (T, T) -> bool, s: seq<T>)
    requires Orders(le)
    requires forall i, j | 0 <= i < j < |s| :: le(s[i], s[j]) <==> finer(s[i], s[j])
    ensures Sort(le, s) == Sort(finer, s)
    decreases |s|
  {
    if s != [] {
      SortIsStable(le, finer, s[1..]);
      var r := Sort(le, s[1..]);
      SortSorts(le, s[1..]);
      forall y | y in r ensures le(s[0], y) <==> finer(s[0], y) {
        assert y in multiset(r);
        var j :| 0 <= j < |s| - 1 && s[1..][j] == y;
        assert s[j + 1] == y;
      }
      InsertAgrees(le, finer, s[0], r);
    }
  }

  // ---------------------------------------------------------------- distinct elements

  ghost predicate Distinct<T>(s: seq<T>) {
    forall i, j | 0 <= i < j < |s| :: s[i] != s[j]
  }

  lemma TwoOccurrences<T>(y: seq<T>, i: nat, j: nat)
    requires i < j < |y| && y[i] == y[j]
    ensures multiset(y)[y[i]] >= 2
  {
    assert y == y[..i] + [y[i]] + y[i + 1..j] + [y[j]] + y[j + 1..];
  }

  lemma OneOccurrence<T>(x: seq<T>, a: nat)
    requires a < |x| && forall b | 0 <= b < |x| && b != a :: x[b] != x[a]
    ensures multiset(x)[x[a]] == 1
  {
    assert x == x[..a] + [x[a]] + x[a + 1..];
    assert x[a] !in x[..a] && x[a] !in x[a + 1..];
  }

  ghost predicate SameElements<T(!new)>(a: seq<T>, b: seq<T>) {
    forall x :: x in a <==> x in b
  }

  lemma PermutationKeeps<T(!new)>(a: seq<T>, b: seq<T>)
    requires multiset(a) == multiset(b)
    ensures SameElements(a, b) && (Distinct(a) ==> Distinct(b))
  {
    forall x ensures x in a <==> x in b { assert x in multiset(a) <==> x in multiset(b); }
    forall i, j | Distinct(a) && 0 <= i < j < |b| ensures b[i] != b[j] {
      if b[i] == b[j] {
        assert b[i] in a;
        var k :| 0 <= k < |a| && a[k] == b[i];
        TwoOccurrences(b, i, j);
        OneOccurrence(a, k);
      }
    }
  }

  // ---------------------------------------------------------------- one list per order

  lemma HeadsAgree<T(!new)>(le: (T, T) -> bool, a: seq<T>, b: seq<T>)
    requires Sorted(le, a) && Sorted(le, b) && a != [] && b != [] && SameElements(a, b)
    requires forall x, y | x in a && y in a && le(x, y) && le(y, x) :: x == y
    ensures a[0] == b[0]
  {
    assert a[0] in b && b[0] in a;
    var i :| 0 <= i < |b| && b[i] == a[0];
    var j :| 0 <= j < |a| && a[j] == b[0];
    if i > 0 && j > 0 { assert le(a[0], a[j]) && le(b[0], b[i]); }
  }

  lemma Tails<T(!new)>(le: (T, T) -> bool, a: seq<T>)
    requires a != [] && Sorted(le, a) && Distinct(a)
    ensures Sorted(le, a[1..]) && Distinct(a[1..])
    ensures forall x :: x in a[1..] <==> x in a && x != a[0]
  {
    assert a == [a[0]] + a[1..];
    forall i, j | 0 <= i < j < |a[1..]| ensures le(a[1..][i], a[1..][j]) && a[1..][i] != a[1..][j] {
      assert a[1..][i] == a[i + 1] && a[1..][j] == a[j + 1];
    }
    forall x | x in a[1..] ensures x != a[0] {
      var i :| 0 <= i < |a| - 1 && a[1..][i] == x;
      assert a[0] != a[i + 1];
    }
  }

  /** An order that tells the elements apart leaves one list of them. */
  lemma {:induction false} SortedOnce<T(!new)>(le: (T, T) -> bool, a: seq<T>, b: seq<T>)
    requires Sorted(le, a) && Sorted(le, b) && Distinct(a) && Distinct(b) && SameElements(a, b)
    requires forall x, y | x in a && y in a && le(x, y) && le(y, x) :: x == y
    ensures a == b
    decreases |a|
  {
    assert |a| > 0 ==> a[0] in b;
    assert |b| > 0 ==> b[0] in a;
    if a != [] && b != [] {
      HeadsAgree(le, a, b);
      Tails(le, a);
      Tails(le, b);
      SortedOnce(le, a[1..], b[1..]);
      assert a == [a[0]] + a[1..] && b == [b[0]] + b[1..];
    }
  }
}
