/** Sorting as `sort.Slice` promises it: ordered by a key, same elements, ties in any order. */
module Sorting {

  ghost predicate SortedBy<T>(s: seq<T>, key: T -> nat) {
    forall i, j :: 0 <= i < j < |s| ==> key(s[i]) <= key(s[j])
  }

  ghost predicate Sorts<T>(before: seq<T>, after: seq<T>, key: T -> nat) {
    SortedBy(after, key) && multiset(after) == multiset(before)
  }

  lemma SameElements<T>(a: seq<T>, b: seq<T>)
    requires multiset(a) == multiset(b)
    ensures |a| == |b|
    ensures forall x :: x in a <==> x in b
  {
    assert |multiset(a)| == |a| && |multiset(b)| == |b|;
    forall x ensures x in a <==> x in b {
      assert x in a <==> x in multiset(a);
      assert x in b <==> x in multiset(b);
    }
  }

  lemma SplitFirst<T>(s: seq<T>)
    requires s != []
    ensures multiset(s) == multiset{s[0]} + multiset(s[1..])
  {
    assert s == [s[0]] + s[1..];
  }

  lemma LastIsTop<T>(s: seq<T>, x: T, key: T -> nat)
    requires SortedBy(s, key) && x in s
    ensures key(x) <= key(s[|s| - 1])
  {
  }

  lemma FirstIsLeast<T>(s: seq<T>, x: T, key: T -> nat)
    requires SortedBy(s, key) && x in s
    ensures key(s[0]) <= key(x)
  {
  }

  lemma SortedTail<T>(s: seq<T>, key: T -> nat)
    requires SortedBy(s, key) && s != []
    ensures SortedBy(s[1..], key)
  {
  }

  lemma OrderedCons<T>(x: T, s: seq<T>, key: T -> nat)
    requires SortedBy(s, key)
    requires forall y :: y in s ==> key(x) <= key(y)
    ensures SortedBy([x] + s, key)
  {
  }

  ghost predicate DistinctKeys<T>(s: seq<T>, key: T -> nat) {
    forall x, y :: x in s && y in s && key(x) == key(y) ==> x == y
  }

  lemma HeadsAgree<T>(a: seq<T>, b: seq<T>, key: T -> nat)
    requires SortedBy(a, key) && SortedBy(b, key) && DistinctKeys(a, key)
    requires a != [] && multiset(a) == multiset(b)
    ensures b != [] && a[0] == b[0]
  {
    SameElements(a, b);
    assert b[0] in b && a[0] in a;
    FirstIsLeast(a, b[0], key);
    FirstIsLeast(b, a[0], key);
  }

  lemma TailsAgree<T>(a: seq<T>, b: seq<T>)
    requires a != [] && b != [] && a[0] == b[0] && multiset(a) == multiset(b)
    ensures multiset(a[1..]) == multiset(b[1..])
  {
    SplitFirst(a);
    SplitFirst(b);
    assert multiset(a[1..]) == multiset(a) - multiset{a[0]};
    assert multiset(b[1..]) == multiset(b) - multiset{a[0]};
  }

  /** Where ties cannot occur, sorting has one answer, whatever order the input came in. */
  lemma {:induction false} SortedUnique<T>(a: seq<T>, b: seq<T>, key: T -> nat)
    requires SortedBy(a, key) && SortedBy(b, key) && DistinctKeys(a, key)
    requires multiset(a) == multiset(b)
    ensures a == b
  {
    if a == [] {
      SameElements(a, b);
    } else {
      HeadsAgree(a, b, key);
      TailsAgree(a, b);
      SortedTail(a, key);
      SortedTail(b, key);
      SortedUnique(a[1..], b[1..], key);
      assert a == [a[0]] + a[1..] && b == [b[0]] + b[1..];
    }
  }

  function InsertBy<T>(s: seq<T>, x: T, key: T -> nat): (r: seq<T>)
    ensures multiset(r) == multiset(s) + multiset{x}
    ensures forall y :: y in r ==> y == x || y in s
  {
    if s == [] || key(x) < key(s[0]) then [x] + s
    else
      SplitFirst(s);
      [s[0]] + InsertBy(s[1..], x, key)
  }

  lemma {:induction false} InsertKeepsOrder<T>(s: seq<T>, x: T, key: T -> nat)
    requires SortedBy(s, key)
    ensures SortedBy(InsertBy(s, x, key), key)
  {
    if s != [] && key(s[0]) <= key(x) {
      var rest := InsertBy(s[1..], x, key);
      SortedTail(s, key);
      InsertKeepsOrder(s[1..], x, key);
      forall y | y in rest ensures key(s[0]) <= key(y) {
        if y != x {
          FirstIsLeast(s, y, key);
        }
      }
      OrderedCons(s[0], rest, key);
    }
  }

  /** The library sort, on the first `n` cells of a backing array. */
  method SortSlice<T>(a: array<T>, n: nat, key: T -> nat)
    requires n <= a.Length
    modifies a
    ensures Sorts(old(a[..n]), a[..n], key)
    ensures a[n..] == old(a[n..])
  {
    var sorted := [];
    for i := 0 to n
      invariant Sorts(a[..i], sorted, key)
      invariant a[..] == old(a[..])
    {
      assert a[..i + 1] == a[..i] + [a[i]];
      InsertKeepsOrder(sorted, a[i], key);
      sorted := InsertBy(sorted, a[i], key);
    }
    SameElements(sorted, a[..n]);
    assert a[..n] == old(a[..n]) && a[n..] == old(a[n..]);
    for i := 0 to n
      invariant a[..i] == sorted[..i]
      invariant a[n..] == old(a[n..])
    {
      a[i] := sorted[i];
    }
    assert a[..n] == sorted;
  }
}
