/** Python's stable sort by descending key, and what characterises it. */
module Sorting {
  import opened Basics

  /** Where the next element goes in a descending list: before the first smaller key. */
  function InsertDesc<T>(s: seq<T>, x: T, key: T -> int): (r: seq<T>)
    ensures |r| == |s| + 1
  {
    if |s| == 0 || key(s[0]) < key(x) then [x] + s else [s[0]] + InsertDesc(s[1..], x, key)
  }

  function SortDesc<T>(s: seq<T>, key: T -> int): (r: seq<T>)
    ensures |r| == |s|
  {
    if |s| == 0 then [] else InsertDesc(SortDesc(s[..|s| - 1], key), s[|s| - 1], key)
  }

  ghost predicate Descending<T>(s: seq<T>, key: T -> int) {
    forall i, j :: 0 <= i <= j < |s| ==> key(s[i]) >= key(s[j])
  }

  /** The elements with key `k`, in order. */
  function WithKey<T>(s: seq<T>, key: T -> int, k: int): seq<T> {
    if |s| == 0 then [] else (if key(s[0]) == k then [s[0]] else []) + WithKey(s[1..], key, k)
  }

  lemma {:induction false} WithKeyAppend<T>(s: seq<T>, t: seq<T>, key: T -> int, k: int)
    ensures WithKey(s + t, key, k) == WithKey(s, key, k) + WithKey(t, key, k)
  {
    if |s| == 0 {
      assert s + t == t;
    } else {
      assert (s + t)[0] == s[0] && (s + t)[1..] == s[1..] + t;
      WithKeyAppend(s[1..], t, key, k);
      assert [s[0]] + (WithKey(s[1..], key, k) + WithKey(t, key, k)) == ([s[0]] + WithKey(s[1..], key, k)) + WithKey(t, key, k);
    }
  }

  lemma {:induction false} WithKeyNone<T>(s: seq<T>, key: T -> int, k: int)
    requires forall y :: y in s ==> key(y) != k
    ensures WithKey(s, key, k) == []
  {
    if |s| > 0 { WithKeyNone(s[1..], key, k); }
  }

  lemma {:induction false} InsertPermutes<T>(s: seq<T>, x: T, key: T -> int)
    ensures multiset(InsertDesc(s, x, key)) == multiset(s) + multiset{x}
  {
    if |s| > 0 && key(s[0]) >= key(x) {
      InsertPermutes(s[1..], x, key);
      assert s == [s[0]] + s[1..];
    }
  }

  lemma {:induction false} InsertDescending<T>(s: seq<T>, x: T, key: T -> int)
    requires Descending(s, key)
    ensures Descending(InsertDesc(s, x, key), key)
  {
    if |s| > 0 && key(s[0]) >= key(x) {
      var r := InsertDesc(s[1..], x, key);
      InsertDescending(s[1..], x, key);
      InsertPermutes(s[1..], x, key);
      forall i | 0 <= i < |r| ensures key(s[0]) >= key(r[i]) {
        assert r[i] in multiset(r);
        assert r[i] == x || r[i] in s[1..];
      }
    }
  }

  lemma {:induction false} InsertIsStable<T>(s: seq<T>, x: T, key: T -> int, k: int)
    requires Descending(s, key)
    ensures WithKey(InsertDesc(s, x, key), key, k) == WithKey(s, key, k) + WithKey([x], key, k)
  {
    if |s| > 0 && key(s[0]) >= key(x) {
      InsertIsStable(s[1..], x, key, k);
    } else {
      WithKeyAppend([x], s, key, k);
      if key(x) == k { WithKeyNone(s, key, k); }
    }
  }

  /** The sort permutes, orders, and keeps the order of elements with equal keys. */
  lemma {:induction false} SortDescIsStable<T>(s: seq<T>, key: T -> int, k: int)
    ensures Descending(SortDesc(s, key), key)
    ensures multiset(SortDesc(s, key)) == multiset(s)
    ensures WithKey(SortDesc(s, key), key, k) == WithKey(s, key, k)
  {
    if |s| > 0 {
      var t, x := s[..|s| - 1], s[|s| - 1];
      assert s == t + [x];
      SortDescIsStable(t, key, k);
      InsertPermutes(SortDesc(t, key), x, key);
      InsertDescending(SortDesc(t, key), x, key);
      InsertIsStable(SortDesc(t, key), x, key, k);
      WithKeyAppend(t, [x], key, k);
    }
  }

  lemma {:induction false} SortDescKeeps<T>(s: seq<T>, key: T -> int)
    ensures Descending(SortDesc(s, key), key)
    ensures multiset(SortDesc(s, key)) == multiset(s)
    ensures forall x :: x in SortDesc(s, key) <==> x in s
    ensures Distinct(s) ==> Distinct(SortDesc(s, key))
  {
    SortDescIsStable(s, key, 0);
    assert forall x :: x in SortDesc(s, key) <==> x in multiset(SortDesc(s, key));
    assert forall x :: x in s <==> x in multiset(s);
    if Distinct(s) { DistinctMultiset(s, SortDesc(s, key)); }
  }

  lemma {:induction false} DistinctMultiset<T>(s: seq<T>, r: seq<T>)
    requires Distinct(s) && multiset(r) == multiset(s)
    ensures Distinct(r)
  {
    forall i, j | 0 <= i < j < |r| ensures r[i] != r[j] {
      AtMostOnce(s, r[i]);
      AtLeastTwice(r, i, j);
    }
  }

  lemma {:induction false} AtLeastTwice<T>(r: seq<T>, i: nat, j: nat)
    requires i < j < |r|
    ensures r[i] == r[j] ==> multiset(r)[r[i]] >= 2
  {
    assert r == r[..i] + [r[i]] + r[i + 1..j] + [r[j]] + r[j + 1..];
  }

  lemma {:induction false} AtMostOnce<T>(s: seq<T>, x: T)
    requires Distinct(s)
    ensures multiset(s)[x] <= 1
  {
    if |s| > 0 {
      AtMostOnce(s[1..], x);
      assert s == [s[0]] + s[1..];
      if x == s[0] { assert x !in s[1..]; }
    }
  }

  // ---------------------------------------------------------------- one insertion, in place

  lemma {:induction false} InsertAt<T>(s: seq<T>, x: T, key: T -> int, pos: nat)
    requires pos <= |s| && Descending(s, key)
    requires pos > 0 ==> key(s[pos - 1]) >= key(x)
    requires pos < |s| ==> key(s[pos]) < key(x)
    ensures InsertDesc(s, x, key) == s[..pos] + [x] + s[pos..]
  {
    if pos > 0 {
      assert key(s[0]) >= key(s[pos - 1]);
      InsertAt(s[1..], x, key, pos - 1);
      assert s[1..][..pos - 1] == s[1..pos] && s[1..][pos - 1..] == s[pos..];
    }
  }

  /** Shift the elements with a smaller key right by one, then store. */
  method ShiftAndStore<T>(a: array<T>, n: nat, x: T, key: T -> int) returns (pos: nat)
    requires n < a.Length
    modifies a
    ensures pos <= n
    ensures a[..n + 1] == old(a[..pos]) + [x] + old(a[pos..n])
    ensures pos > 0 ==> key(old(a[pos - 1])) >= key(x)
    ensures pos < n ==> key(old(a[pos])) < key(x)
    ensures a[n + 1..] == old(a[n + 1..])
  {
    ghost var s := a[..];
    pos := n;
    while pos > 0 && key(a[pos - 1]) < key(x)
      invariant pos <= n
      invariant forall j {:trigger a[j]} :: 0 <= j < a.Length ==> a[j] == if pos < j <= n then s[j - 1] else s[j]
      invariant pos < n ==> key(s[pos]) < key(x)
    {
      a[pos] := a[pos - 1];
      pos := pos - 1;
    }
    a[pos] := x;
  }

  /** The inner loop of an insertion sort, over the first `n` elements. */
  method InsertInPlace<T>(a: array<T>, n: nat, x: T, key: T -> int)
    requires n < a.Length && Descending(a[..n], key)
    modifies a
    ensures a[..n + 1] == InsertDesc(old(a[..n]), x, key)
    ensures a[n + 1..] == old(a[n + 1..])
  {
    ghost var s := a[..n];
    var pos := ShiftAndStore(a, n, x, key);
    InsertAt(s, x, key, pos);
    assert s[..pos] == old(a[..pos]) && s[pos..] == old(a[pos..n]);
  }

  lemma {:induction false} SortOneMore<T>(s: seq<T>, i: nat, key: T -> int)
    requires i < |s|
    ensures Descending(SortDesc(s[..i], key), key)
    ensures SortDesc(s[..i + 1], key) == InsertDesc(SortDesc(s[..i], key), s[i], key)
  {
    SortDescKeeps(s[..i], key);
    assert s[..i + 1][..i] == s[..i];
  }

  lemma {:induction false} RestAlike<T>(a: seq<T>, s: seq<T>, i: nat)
    requires |a| == |s| && i < |s| && a[i..] == s[i..]
    ensures a[i] == s[i] && a[i + 1..] == s[i + 1..]
  {
    assert a[i] == a[i..][0] && s[i] == s[i..][0];
    assert a[i + 1..] == a[i..][1..] && s[i + 1..] == s[i..][1..];
  }

  method InsertionSort<T>(a: array<T>, n: nat, key: T -> int)
    requires n <= a.Length
    modifies a
    ensures a[..n] == SortDesc(old(a[..n]), key)
    ensures a[n..] == old(a[n..])
  {
    hide InsertDesc, Descending;
    ghost var s := a[..];
    if n == 0 { return; }
    assert s[..1][..0] == [] && a[..1] == s[..1];
    assert SortDesc(s[..1], key) == s[..1] by { SortOneMore(s, 0, key); InsertIntoNone(s[0], key); }
    hide SortDesc;
    for i := 1 to n
      invariant a[..i] == SortDesc(s[..i], key)
      invariant a[i..] == s[i..]
    {
      SortOneMore(s, i, key);
      RestAlike(a[..], s, i);
      InsertInPlace(a, i, a[i], key);
    }
    assert s[..n] == old(a[..n]);
  }

  lemma {:induction false} InsertIntoNone<T>(x: T, key: T -> int)
    ensures InsertDesc([], x, key) == [x]
  {
  }
}
