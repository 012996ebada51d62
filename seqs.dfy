/** Sequence helpers used as the in-memory stand-in for the database's
    queries: lookup by a key (findUnique / findFirst), filtering (where),
    newest-first ordering (orderBy createdAt desc) and taking a prefix (take). */
module Seqs {
  import opened Common

  /** The elements of `s` that satisfy `p`, in their original order. */
  function Filter<T(!new)>(s: seq<T>, p: T -> bool): (r: seq<T>)
    ensures |r| <= |s|
    ensures forall x :: x in r <==> x in s && p(x)
    decreases |s|
  {
    if |s| == 0 then []
    else
      var rest := Filter(s[1..], p);
      assert forall x :: x in s <==> x == s[0] || x in s[1..];
      (if p(s[0]) then [s[0]] else []) + rest
  }

  /** The index of the first element whose key is `k`, if there is one. */
  function IndexOfKey<T, K(==)>(s: seq<T>, key: T -> K, k: K): (r: Option<nat>)
    ensures r.Some? ==> r.value < |s| && key(s[r.value]) == k
    ensures r.Some? ==> forall j :: 0 <= j < r.value ==> key(s[j]) != k
    ensures r.None? <==> forall j :: 0 <= j < |s| ==> key(s[j]) != k
    decreases |s|
  {
    if |s| == 0 then None
    else if key(s[0]) == k then Some(0)
    else
      match IndexOfKey(s[1..], key, k)
      case None => None
      case Some(i) => Some(i + 1)
  }

  /** No two elements of `s` share a key (a unique column). */
  ghost predicate Distinct<T, K>(s: seq<T>, key: T -> K) {
    forall i, j :: 0 <= i < j < |s| ==> key(s[i]) != key(s[j])
  }

  /** Keys strictly increase along `s` (rows kept in creation order). */
  ghost predicate Increasing<T>(s: seq<T>, key: T -> int) {
    forall i, j :: 0 <= i < j < |s| ==> key(s[i]) < key(s[j])
  }

  /** Keys strictly decrease along `s` (newest first). */
  ghost predicate Decreasing<T>(s: seq<T>, key: T -> int) {
    forall i, j :: 0 <= i < j < |s| ==> key(s[i]) > key(s[j])
  }

  /** `s` without the element at index `i` (a delete by unique key). */
  function RemoveAt<T>(s: seq<T>, i: nat): (r: seq<T>)
    requires i < |s|
    ensures |r| == |s| - 1
    ensures forall j :: 0 <= j < i ==> r[j] == s[j]
    ensures forall j :: i <= j < |r| ==> r[j] == s[j + 1]
  {
    s[..i] + s[i + 1..]
  }

  /** `s` in reverse order. */
  function Reverse<T>(s: seq<T>): (r: seq<T>)
    ensures |r| == |s|
    ensures forall i :: 0 <= i < |s| ==> r[i] == s[|s| - 1 - i]
    ensures multiset(r) == multiset(s)
    decreases |s|
  {
    if |s| == 0 then []
    else
      var n := |s| - 1;
      assert s == s[..n] + [s[n]];
      [s[n]] + Reverse(s[..n])
  }

  /** The `n` last-inserted elements of `s`, newest first (orderBy desc, take n). */
  function Newest<T>(s: seq<T>, n: nat): seq<T> {
    Reverse(s)[..Min(n, |s|)]
  }

  lemma RemoveAtMembers<T>(s: seq<T>, i: nat, x: T)
    requires i < |s|
    ensures x in RemoveAt(s, i) ==> x in s
    ensures x in s && x != s[i] ==> x in RemoveAt(s, i)
  {
    var r := RemoveAt(s, i);
    if x in r {
      var j :| 0 <= j < |r| && r[j] == x;
      assert x == (if j < i then s[j] else s[j + 1]);
    }
    if x in s && x != s[i] {
      var j :| 0 <= j < |s| && s[j] == x;
      assert r[if j < i then j else j - 1] == x;
    }
  }

  /** Removing the element at `i` of a sequence with unique keys removes
      exactly the elements with that key. */
  lemma RemoveAtByKey<T, K>(s: seq<T>, i: nat, key: T -> K)
    requires i < |s| && Distinct(s, key)
    ensures forall x :: x in RemoveAt(s, i) <==> x in s && key(x) != key(s[i])
  {
    forall x ensures x in RemoveAt(s, i) <==> x in s && key(x) != key(s[i]) {
      RemoveAtMembers(s, i, x);
      if x in RemoveAt(s, i) {
        var k :| 0 <= k < |s| - 1 && RemoveAt(s, i)[k] == x;
        if k < i { assert s[k] == x; } else { assert s[k + 1] == x; }
      }
    }
  }

  lemma {:induction false} FilterDistinct<T(!new), K>(s: seq<T>, p: T -> bool, key: T -> K)
    requires Distinct(s, key)
    ensures Distinct(Filter(s, p), key)
    decreases |s|
  {
    if |s| > 0 {
      FilterDistinct(s[1..], p, key);
      var rest := Filter(s[1..], p);
      forall y | y in rest ensures key(y) != key(s[0]) {
        var k :| 0 <= k < |s[1..]| && s[1..][k] == y;
        assert s[k + 1] == y;
      }
    }
  }

  lemma {:induction false} FilterIncreasing<T(!new)>(s: seq<T>, p: T -> bool, key: T -> int)
    requires Increasing(s, key)
    ensures Increasing(Filter(s, p), key)
    decreases |s|
  {
    if |s| > 0 {
      FilterIncreasing(s[1..], p, key);
      var rest := Filter(s[1..], p);
      forall y | y in rest ensures key(s[0]) < key(y) {
        var k :| 0 <= k < |s[1..]| && s[1..][k] == y;
        assert s[k + 1] == y;
      }
    }
  }

  lemma AppendDistinct<T, K>(s: seq<T>, x: T, key: T -> K)
    requires Distinct(s, key)
    requires forall y :: y in s ==> key(y) != key(x)
    ensures Distinct(s + [x], key)
  {
    var r := s + [x];
    forall i, j | 0 <= i < j < |r| ensures key(r[i]) != key(r[j]) {
      if j == |s| {
        assert r[i] in s;
      }
    }
  }

  lemma AppendIncreasing<T>(s: seq<T>, x: T, key: T -> int)
    requires Increasing(s, key)
    requires forall y :: y in s ==> key(y) < key(x)
    ensures Increasing(s + [x], key)
  {
    var r := s + [x];
    forall i, j | 0 <= i < j < |r| ensures key(r[i]) < key(r[j]) {
      if j == |s| {
        assert r[i] in s;
      }
    }
  }

  lemma RemoveAtDistinct<T, K>(s: seq<T>, i: nat, key: T -> K)
    requires i < |s| && Distinct(s, key)
    ensures Distinct(RemoveAt(s, i), key)
  {
    var r := RemoveAt(s, i);
    forall a, b | 0 <= a < b < |r| ensures key(r[a]) != key(r[b]) {
      var a', b' := if a < i then a else a + 1, if b < i then b else b + 1;
      assert r[a] == s[a'] && r[b] == s[b'];
    }
  }

  lemma RemoveAtIncreasing<T>(s: seq<T>, i: nat, key: T -> int)
    requires i < |s| && Increasing(s, key)
    ensures Increasing(RemoveAt(s, i), key)
  {
    var r := RemoveAt(s, i);
    forall a, b | 0 <= a < b < |r| ensures key(r[a]) < key(r[b]) {
      var a', b' := if a < i then a else a + 1, if b < i then b else b + 1;
      assert r[a] == s[a'] && r[b] == s[b'];
    }
  }

  lemma UpdateDistinct<T, K>(s: seq<T>, i: nat, x: T, key: T -> K)
    requires i < |s| && Distinct(s, key)
    requires forall j :: 0 <= j < |s| && j != i ==> key(s[j]) != key(x)
    ensures Distinct(s[i := x], key)
  {
  }

  lemma UpdateIncreasing<T>(s: seq<T>, i: nat, x: T, key: T -> int)
    requires i < |s| && Increasing(s, key) && key(x) == key(s[i])
    ensures Increasing(s[i := x], key)
  {
  }

  lemma ReverseMembers<T>(s: seq<T>)
    ensures forall x :: x in Reverse(s) <==> x in s
  {
    forall x ensures x in Reverse(s) <==> x in s {
      assert x in Reverse(s) <==> x in multiset(Reverse(s));
    }
  }

  /** Rows kept in creation order, read backwards, are newest first. */
  lemma ReverseDecreasing<T>(s: seq<T>, key: T -> int)
    requires Increasing(s, key)
    ensures Decreasing(Reverse(s), key)
  {
    var r := Reverse(s);
    forall i, j | 0 <= i < j < |r| ensures key(r[i]) > key(r[j]) {
      assert r[i] == s[|s| - 1 - i] && r[j] == s[|s| - 1 - j];
    }
  }

  /** `Newest(s, n)` holds min(n, |s|) rows, newest first, and every row it
      leaves out is older than every row it keeps. */
  lemma NewestAreNewest<T>(s: seq<T>, n: nat, key: T -> int)
    requires Increasing(s, key)
    ensures |Newest(s, n)| == Min(n, |s|) && |Newest(s, n)| <= n
    ensures Decreasing(Newest(s, n), key)
    ensures forall x :: x in Newest(s, n) ==> x in s
    ensures forall i, j :: 0 <= i < |Newest(s, n)| && 0 <= j < |s| - |Newest(s, n)| ==>
              key(s[j]) < key(Newest(s, n)[i])
  {
    var r := Newest(s, n);
    ReverseDecreasing(s, key);
    forall x | x in r ensures x in s {
      var i :| 0 <= i < |r| && r[i] == x;
      assert r[i] == s[|s| - 1 - i];
    }
    forall i, j | 0 <= i < |r| && 0 <= j < |s| - |r| ensures key(s[j]) < key(r[i]) {
      assert r[i] == s[|s| - 1 - i];
    }
  }
}
