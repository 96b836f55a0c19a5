/** Sorting by a score key, as node.py does with list.sort(key=..., reverse=...):
    the keys are computed first, then the list is put in order. */
module Ordering {
  import opened Scores

  /** Score a may come before score b: not smaller for a descending sort,
      not larger for an ascending one. */
  predicate InOrder(descending: bool, a: Score, b: Score) {
    if descending then Le(b, a) else Le(a, b)
  }

  predicate Keyed<T>(xs: seq<T>, key: map<T, Score>) {
    forall x :: x in xs ==> x in key
  }

  /** Every earlier element may come before every later one. */
  predicate Sorted<T>(xs: seq<T>, key: map<T, Score>, descending: bool)
    requires Keyed(xs, key)
  {
    forall i, j :: 0 <= i < j < |xs| ==> InOrder(descending, key[xs[i]], key[xs[j]])
  }

  lemma InOrderTrans(descending: bool, a: Score, b: Score, c: Score)
    requires InOrder(descending, a, b) && InOrder(descending, b, c)
    ensures InOrder(descending, a, c)
  {
    if descending { LeTrans(c, b, a); } else { LeTrans(a, b, c); }
  }

  /** Putting x at position j of a sorted list keeps it sorted when the
      element before that position may precede x and x may precede every
      element after it. */
  lemma InsertKeepsOrder<T>(pre: seq<T>, x: T, j: nat, key: map<T, Score>, descending: bool)
    requires Keyed(pre, key) && x in key && j <= |pre| && Sorted(pre, key, descending)
    requires j > 0 ==> InOrder(descending, key[pre[j - 1]], key[x])
    requires forall k :: j <= k < |pre| ==> InOrder(descending, key[x], key[pre[k]])
    ensures Keyed(pre[..j] + [x] + pre[j..], key)
    ensures Sorted(pre[..j] + [x] + pre[j..], key, descending)
  {
    var s := pre[..j] + [x] + pre[j..];
    assert forall a :: 0 <= a < |s| ==> s[a] == if a < j then pre[a] else if a == j then x else pre[a - 1];
    forall a, b | 0 <= a < b < |s|
      ensures InOrder(descending, key[s[a]], key[s[b]])
    {
      if b == j {
        if a < j - 1 { InOrderTrans(descending, key[pre[a]], key[pre[j - 1]], key[x]); }
      } else if a == j {
      } else if a < j && b > j {
        if a < j - 1 { InOrderTrans(descending, key[pre[a]], key[pre[j - 1]], key[x]); }
        InOrderTrans(descending, key[pre[a]], key[x], key[pre[b - 1]]);
      }
    }
  }

  /** r with its element at i moved to position j <= i. */
  function MovedBack<T>(r: seq<T>, i: nat, j: nat): seq<T>
    requires j <= i < |r|
  {
    r[..j] + [r[i]] + r[j..i] + r[i + 1..]
  }

  /** Moving an element keeps the elements. */
  lemma MovedBackPermutes<T>(r: seq<T>, i: nat, j: nat)
    requires j <= i < |r|
    ensures |MovedBack(r, i, j)| == |r| && multiset(MovedBack(r, i, j)) == multiset(r)
  {
    assert r == r[..j] + r[j..i] + [r[i]] + r[i + 1..];
  }

  /** One insertion step extends the sorted prefix by one. */
  lemma InsertStep<T>(r: seq<T>, i: nat, j: nat, key: map<T, Score>, descending: bool)
    requires j <= i < |r| && Keyed(r, key) && Sorted(r[..i], key, descending)
    requires j > 0 ==> InOrder(descending, key[r[j - 1]], key[r[i]])
    requires forall k :: j <= k < i ==> InOrder(descending, key[r[i]], key[r[k]])
    ensures Keyed(MovedBack(r, i, j)[..i + 1], key)
    ensures Sorted(MovedBack(r, i, j)[..i + 1], key, descending)
  {
    var pre := r[..i];
    assert pre[..j] == r[..j] && pre[j..] == r[j..i];
    InsertKeepsOrder(pre, r[i], j, key, descending);
    assert MovedBack(r, i, j)[..i + 1] == pre[..j] + [r[i]] + pre[j..];
  }

  /** Where the element at i goes: past every element of the sorted prefix
      whose key it strictly beats, and no further. */
  method InsertionPoint<T>(r: seq<T>, i: nat, key: map<T, Score>, descending: bool) returns (j: nat)
    requires i < |r| && Keyed(r, key)
    ensures j <= i
    ensures j > 0 ==> InOrder(descending, key[r[j - 1]], key[r[i]])
    ensures forall k :: j <= k < i ==> InOrder(descending, key[r[i]], key[r[k]])
  {
    j := i;
    while j > 0 && !InOrder(descending, key[r[j - 1]], key[r[i]])
      invariant 0 <= j <= i
      invariant forall k :: j <= k < i ==> InOrder(descending, key[r[i]], key[r[k]])
    {
      LeTotal(key[r[j - 1]], key[r[i]]);
      j := j - 1;
    }
  }

  /** list.sort by a key: a permutation of the input in which every element
      may precede every later one. Insertion sort, which moves an element
      only past elements whose key it strictly beats. */
  method SortByKey<T(==)>(xs: seq<T>, key: map<T, Score>, descending: bool) returns (r: seq<T>)
    requires Keyed(xs, key)
    ensures multiset(r) == multiset(xs) && Keyed(r, key)
    ensures Sorted(r, key, descending)
  {
    r := xs;
    for i := 0 to |xs|
      invariant |r| == |xs| && multiset(r) == multiset(xs) && Keyed(r, key)
      invariant Sorted(r[..i], key, descending)
    {
      var j := InsertionPoint(r, i, key, descending);
      InsertStep(r, i, j, key, descending);
      MovedBackPermutes(r, i, j);
      r := MovedBack(r, i, j);
    }
    assert r[..|xs|] == r;
  }
}
