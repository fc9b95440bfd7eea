/** Sorting by an integer key. */
module Sorting {

  ghost predicate SortedBy<T>(s: seq<T>, key: T -> int) {
    forall i, j :: 0 <= i < j < |s| ==> key(s[i]) <= key(s[j])
  }

  lemma InsertedMembers<T>(s: seq<T>, at: nat, x: T)
    requires at <= |s|
    ensures multiset(s[..at] + [x] + s[at..]) == multiset(s) + multiset{x}
  {
    assert s == s[..at] + s[at..];
  }

  lemma InsertedOrder<T>(s: seq<T>, at: nat, x: T, key: T -> int)
    requires SortedBy(s, key) && at <= |s|
    requires forall i :: 0 <= i < at ==> key(s[i]) <= key(x)
    requires forall i :: at <= i < |s| ==> key(x) < key(s[i])
    ensures SortedBy(s[..at] + [x] + s[at..], key)
  {
    var r := s[..at] + [x] + s[at..];
    forall i, j | 0 <= i < j < |r|
      ensures key(r[i]) <= key(r[j])
    {
      assert r[i] == if i < at then s[i] else if i == at then x else s[i - 1];
      assert r[j] == if j < at then s[j] else if j == at then x else s[j - 1];
    }
  }

  /** Where x goes in a sorted list, behind everything with the same key. */
  method PlaceFor<T>(s: seq<T>, x: T, key: T -> int) returns (at: nat)
    requires SortedBy(s, key)
    ensures at <= |s|
    ensures forall i :: 0 <= i < at ==> key(s[i]) <= key(x)
    ensures forall i :: at <= i < |s| ==> key(x) < key(s[i])
  {
    at := |s|;
    while at > 0 && key(x) < key(s[at - 1])
      invariant 0 <= at <= |s|
      invariant forall i :: at <= i < |s| ==> key(x) < key(s[i])
    {
      at := at - 1;
    }
  }

  /** A sorted rearrangement; equal keys stay in their order. */
  method SortBy<T>(s: seq<T>, key: T -> int) returns (r: seq<T>)
    ensures SortedBy(r, key) && multiset(r) == multiset(s)
  {
    r := [];
    assert SortedBy(r, key);
    hide SortedBy;
    for n := 0 to |s|
      invariant SortedBy(r, key) && multiset(r) == multiset(s[..n])
    {
      var at := PlaceFor(r, s[n], key);
      InsertedMembers(r, at, s[n]);
      InsertedOrder(r, at, s[n], key);
      r := r[..at] + [s[n]] + r[at..];
      assert s[..n + 1] == s[..n] + [s[n]];
    }
    assert s[..|s|] == s;
  }

  lemma SameMembers<T>(a: seq<T>, b: seq<T>, i: nat)
    requires multiset(a) == multiset(b) && i < |a|
    ensures a[i] in b
  {
    assert a[i] in multiset(a);
  }

  lemma SameLength<T>(a: seq<T>, b: seq<T>)
    requires multiset(a) == multiset(b)
    ensures |a| == |b|
  {
    assert |multiset(a)| == |a| && |multiset(b)| == |b|;
  }

  lemma SameTails<T>(a: seq<T>, b: seq<T>)
    requires a != [] && b != [] && a[0] == b[0] && multiset(a) == multiset(b)
    ensures multiset(a[1..]) == multiset(b[1..])
  {
    assert a == [a[0]] + a[1..] && b == [b[0]] + b[1..];
    assert multiset(a[1..]) == multiset(a) - multiset{a[0]};
    assert multiset(b[1..]) == multiset(b) - multiset{a[0]};
  }

  /** The keys of a sequence are the numbers from `offset` on. */
  ghost predicate Numbered<T>(t: seq<T>, key: T -> int, offset: int) {
    forall i :: 0 <= i < |t| ==> key(t[i]) == offset + i
  }

  lemma SameFirst<T>(s: seq<T>, t: seq<T>, key: T -> int, offset: int)
    requires s != [] && t != [] && multiset(s) == multiset(t) && SortedBy(s, key) && Numbered(t, key, offset)
    ensures s[0] == t[0]
  {
    SameMembers(t, s, 0);
    SameMembers(s, t, 0);
    var k :| 0 <= k < |s| && s[k] == t[0];
    var j :| 0 <= j < |t| && t[j] == s[0];
    assert k > 0 ==> key(s[0]) <= key(s[k]);
    assert key(t[j]) == offset + j && key(t[0]) == offset + 0;
  }

  /** When one order is numbered, every sorted order is that one. */
  lemma {:induction false} SortedIsUnique<T>(s: seq<T>, t: seq<T>, key: T -> int, offset: int)
    requires multiset(s) == multiset(t) && SortedBy(s, key) && Numbered(t, key, offset)
    ensures s == t
  {
    SameLength(s, t);
    if t != [] {
      SameFirst(s, t, key, offset);
      SameTails(s, t);
      assert SortedBy(s[1..], key);
      assert Numbered(t[1..], key, offset + 1);
      hide SortedBy, Numbered;
      SortedIsUnique(s[1..], t[1..], key, offset + 1);
      assert s == [s[0]] + s[1..] && t == [t[0]] + t[1..];
    }
  }

  /** A set of n numbers below n is all of them. */
  lemma {:induction false} FullRange(keys: set<int>, n: nat)
    requires forall k :: k in keys ==> 0 <= k < n
    ensures |keys| <= n
    ensures |keys| == n ==> forall k :: 0 <= k < n ==> k in keys
  {
    if n > 0 {
      FullRange(keys - {n - 1}, n - 1);
      if n - 1 !in keys {
        assert keys - {n - 1} == keys;
      }
    } else {
      assert keys == (set k | k in keys && 0 <= k < n);
      assert (set k | k in keys && 0 <= k < n) == {};
    }
  }

  // ---- Without repetition ------------------------------------------------------------------

  ghost predicate Distinct<T>(s: seq<T>) {
    forall i, j :: 0 <= i < j < |s| ==> s[i] != s[j]
  }

  lemma Twice<T>(s: seq<T>, i: nat, j: nat)
    requires i < j < |s| && s[i] == s[j]
    ensures multiset(s)[s[i]] >= 2
  {
    assert s == s[..i] + [s[i]] + s[i + 1..j] + [s[j]] + s[j + 1..];
  }

  lemma {:induction false} Once<T>(s: seq<T>, x: T)
    requires Distinct(s)
    ensures multiset(s)[x] <= 1
  {
    if s != [] {
      var n := |s| - 1;
      Once(s[..n], x);
      assert s == s[..n] + [s[n]];
      if s[n] == x {
        assert x !in s[..n];
      }
    }
  }

  /** Two lists without repetition that have the same members are permutations of each other. */
  lemma SameBag<T>(a: seq<T>, b: seq<T>)
    requires Distinct(a) && Distinct(b) && forall x :: x in a <==> x in b
    ensures multiset(a) == multiset(b)
  {
    forall x ensures multiset(a)[x] == multiset(b)[x] {
      Once(a, x);
      Once(b, x);
      assert x in a <==> x in multiset(a);
      assert x in b <==> x in multiset(b);
    }
  }
}
