/**
 * The ordering a database query applies (`orderBy`), as a stable insertion
 * sort by a comparator `leq` ("may come before").
 */
module Sorting {

  ghost predicate TotalPreorder<T(!new)>(leq: (T, T) -> bool) {
    && (forall a, b :: leq(a, b) || leq(b, a))
    && (forall a, b, c :: leq(a, b) && leq(b, c) ==> leq(a, c))
  }

  ghost predicate SortedBy<T>(s: seq<T>, leq: (T, T) -> bool) {
    forall i, j :: 0 <= i < j < |s| ==> leq(s[i], s[j])
  }

  function Insert<T(!new)>(x: T, s: seq<T>, leq: (T, T) -> bool): (r: seq<T>)
    requires TotalPreorder(leq)
    requires SortedBy(s, leq)
    ensures SortedBy(r, leq)
    ensures multiset(r) == multiset(s) + multiset{x}
    ensures forall y :: y in r ==> y == x || y in s
  {
    if s == [] || leq(x, s[0]) then
      ConsSorted(x, s, leq);
      [x] + s
    else
      var rest := Insert(x, s[1..], leq);
      assert s == [s[0]] + s[1..];
      forall y | y in rest
        ensures leq(s[0], y)
      {
        if y != x {
          var j :| 0 < j < |s| && s[j] == y;
        }
      }
      ConsSorted(s[0], rest, leq);
      [s[0]] + rest
  }

  /** Putting an element that may come before every element in front keeps a sequence sorted. */
  lemma ConsSorted<T>(h: T, s: seq<T>, leq: (T, T) -> bool)
    requires SortedBy(s, leq)
    requires forall y :: y in s ==> leq(h, y)
    ensures SortedBy([h] + s, leq)
  {
    var r := [h] + s;
    forall i, j | 0 <= i < j < |r|
      ensures leq(r[i], r[j])
    {
      assert r[j] == s[j - 1];
      if i > 0 {
        assert r[i] == s[i - 1];
      }
    }
  }

  /** The elements of `s` ordered by `leq`; ties keep their order in `s`. */
  function SortBy<T(!new)>(s: seq<T>, leq: (T, T) -> bool): (r: seq<T>)
    requires TotalPreorder(leq)
    ensures SortedBy(r, leq)
    ensures multiset(r) == multiset(s)
    ensures |r| == |s|
  {
    if s == [] then []
    else
      assert s == [s[0]] + s[1..];
      Insert(s[0], SortBy(s[1..], leq), leq)
  }

  /** An element is in the sorted sequence exactly when it is in the input. */
  lemma SortByMembers<T(!new)>(s: seq<T>, leq: (T, T) -> bool, x: T)
    requires TotalPreorder(leq)
    ensures x in SortBy(s, leq) <==> x in s
  {
    var r := SortBy(s, leq);
    assert x in r <==> x in multiset(r);
    assert x in s <==> x in multiset(s);
  }

  /** How many elements of `s` satisfy `p`. */
  function Count<T>(s: seq<T>, p: T -> bool): (n: nat)
    ensures n <= |s|
  {
    if s == [] then 0 else (if p(s[0]) then 1 else 0) + Count(s[1..], p)
  }

  lemma {:induction false} CountAppend<T>(a: seq<T>, b: seq<T>, p: T -> bool)
    ensures Count(a + b, p) == Count(a, p) + Count(b, p)
  {
    if a == [] {
      assert a + b == b;
    } else {
      assert (a + b)[1..] == a[1..] + b;
      CountAppend(a[1..], b, p);
    }
  }

  /** Taking out the element at position i leaves the other elements. */
  lemma RemoveAtMultiset<T>(b: seq<T>, i: nat)
    requires i < |b|
    ensures multiset(b[..i] + b[i + 1..]) == multiset(b) - multiset{b[i]}
  {
    assert b == b[..i] + [b[i]] + b[i + 1..];
    assert multiset(b) == multiset(b[..i]) + multiset{b[i]} + multiset(b[i + 1..]);
  }

  /** Counting over a split at position i. */
  lemma CountSplit<T>(b: seq<T>, i: nat, p: T -> bool)
    requires i <= |b|
    ensures Count(b, p) == Count(b[..i], p) + Count(b[i..], p)
  {
    assert b[..i] + b[i..] == b;
    CountAppend(b[..i], b[i..], p);
  }

  /** Taking out the element at position i takes its share out of the count. */
  lemma RemoveAtCount<T>(b: seq<T>, i: nat, p: T -> bool)
    requires i < |b|
    ensures Count(b, p) == Count(b[..i] + b[i + 1..], p) + (if p(b[i]) then 1 else 0)
  {
    CountSplit(b, i, p);
    assert b[i..][1..] == b[i + 1..];
    CountAppend(b[..i], b[i + 1..], p);
  }

  /** Reordering does not change how many elements satisfy a predicate. */
  lemma {:induction false} CountPermutation<T>(a: seq<T>, b: seq<T>, p: T -> bool)
    requires multiset(a) == multiset(b)
    ensures Count(a, p) == Count(b, p)
    decreases |a|
  {
    if a != [] {
      assert a[0] in multiset(b);
      var i :| 0 <= i < |b| && b[i] == a[0];
      RemoveAtMultiset(b, i);
      RemoveAtCount(b, i, p);
      assert a == [a[0]] + a[1..];
      assert multiset(a[1..]) == multiset(a) - multiset{a[0]};
      CountPermutation(a[1..], b[..i] + b[i + 1..], p);
    }
  }

  /** When nothing from position k on satisfies `p`, at most k elements do. */
  lemma {:induction false} CountNoneFrom<T>(s: seq<T>, p: T -> bool, k: nat)
    requires k <= |s|
    requires forall j :: k <= j < |s| ==> !p(s[j])
    ensures Count(s, p) <= k
  {
    if s != [] {
      assert forall j :: 0 <= j < |s[1..]| ==> s[1..][j] == s[j + 1];
      CountNoneFrom(s[1..], p, if k == 0 then 0 else k - 1);
    }
  }

  /** When everything before position k satisfies `p`, at least k elements do. */
  lemma {:induction false} CountAllBefore<T>(s: seq<T>, p: T -> bool, k: nat)
    requires k <= |s|
    requires forall j :: 0 <= j < k ==> p(s[j])
    ensures Count(s, p) >= k
  {
    if k > 0 {
      assert forall j :: 0 <= j < |s[1..]| ==> s[1..][j] == s[j + 1];
      CountAllBefore(s[1..], p, k - 1);
    }
  }
}
