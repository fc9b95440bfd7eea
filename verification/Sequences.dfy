/** Ordered collections: dropping an element, and keeping what a partial function picks. */
module Sequences {

  datatype Option<+T> = None | Some(value: T)

  function Without<T>(s: seq<T>, i: nat): (r: seq<T>)
    requires i < |s|
    ensures |r| == |s| - 1
    ensures forall k :: 0 <= k < |r| ==> r[k] == if k < i then s[k] else s[k + 1]
  {
    s[..i] + s[i + 1..]
  }

  function Sum(ws: seq<nat>): (n: nat)
  {
    if ws == [] then 0 else ws[0] + Sum(ws[1..])
  }

  lemma Around<T>(a: seq<T>, i: nat)
    requires i < |a|
    ensures a == (a[..i] + [a[i]]) + a[i + 1..]
  {
  }

  lemma ConcatTail<T>(a: seq<T>, b: seq<T>)
    requires a != []
    ensures (a + b)[1..] == a[1..] + b
  {
  }

  lemma {:induction false} SumConcat(a: seq<nat>, b: seq<nat>)
    ensures Sum(a + b) == Sum(a) + Sum(b)
  {
    if a == [] {
      assert a + b == b;
    } else {
      SumConcat(a[1..], b);
      ConcatTail(a, b);
    }
  }

  lemma SumAppend(a: seq<nat>, n: nat)
    ensures Sum(a + [n]) == Sum(a) + n
  {
    SumConcat(a, [n]);
    assert Sum([n]) == n;
  }

  lemma SumWithout(a: seq<nat>, i: nat)
    requires i < |a|
    ensures Sum(a) == Sum(Without(a, i)) + a[i]
  {
    hide Sum;
    Around(a, i);
    SumConcat(a[..i] + [a[i]], a[i + 1..]);
    SumAppend(a[..i], a[i]);
    SumConcat(a[..i], a[i + 1..]);
  }

  /** What `pick` yields on the elements, in order. */
  function Project<T, U>(s: seq<T>, pick: T -> Option<U>): (r: seq<U>)
    ensures |r| <= |s|
  {
    if s == [] then []
    else
      var rest := Project(s[1..], pick);
      match pick(s[0]) case None => rest case Some(u) => [u] + rest
  }

  lemma {:induction false} ProjectConcat<T, U>(a: seq<T>, b: seq<T>, pick: T -> Option<U>)
    ensures Project(a + b, pick) == Project(a, pick) + Project(b, pick)
  {
    if a == [] {
      assert a + b == b;
    } else {
      ProjectConcat(a[1..], b, pick);
      ConcatTail(a, b);
    }
  }

  lemma ProjectAppend<T, U>(a: seq<T>, x: T, pick: T -> Option<U>)
    ensures Project(a + [x], pick) == Project(a, pick) + match pick(x) case None => [] case Some(u) => [u]
  {
    ProjectConcat(a, [x], pick);
    assert [x][1..] == [];
  }

  /** Cut at one element: what came before, what the element yields, what comes after. */
  lemma ProjectAround<T, U>(s: seq<T>, i: nat, pick: T -> Option<U>)
    requires i < |s|
    ensures var mine := match pick(s[i]) case None => [] case Some(u) => [u];
            && Project(s, pick) == Project(s[..i], pick) + mine + Project(s[i + 1..], pick)
            && Project(Without(s, i), pick) == Project(s[..i], pick) + Project(s[i + 1..], pick)
  {
    hide Project;
    Around(s, i);
    ProjectConcat(s[..i] + [s[i]], s[i + 1..], pick);
    ProjectAppend(s[..i], s[i], pick);
    ProjectConcat(s[..i], s[i + 1..], pick);
  }

  lemma {:induction false} ProjectMember<T, U>(s: seq<T>, pick: T -> Option<U>, k: nat)
    requires k < |Project(s, pick)|
    ensures exists i :: 0 <= i < |s| && pick(s[i]) == Some(Project(s, pick)[k])
  {
    if pick(s[0]).Some? && k == 0 {
      assert pick(s[0]) == Some(Project(s, pick)[k]);
    } else {
      var k' := if pick(s[0]).Some? then k - 1 else k;
      ProjectMember(s[1..], pick, k');
      var i :| 0 <= i < |s[1..]| && pick(s[1..][i]) == Some(Project(s[1..], pick)[k']);
      assert pick(s[i + 1]) == Some(Project(s, pick)[k]);
    }
  }

  lemma {:induction false} ProjectEmpty<T, U>(s: seq<T>, pick: T -> Option<U>)
    requires forall k :: 0 <= k < |s| ==> pick(s[k]).None?
    ensures Project(s, pick) == []
  {
    if s != [] {
      ProjectEmpty(s[1..], pick);
    }
  }

  lemma Parts<T>(a: seq<T>, b: seq<T>)
    ensures (a + b)[..|a|] == a && (a + b)[|a|..] == b
  {
  }

  lemma TakeBeyond<T>(a: seq<T>, b: seq<T>, k: nat)
    requires k <= |b|
    ensures (a + b)[..|a| + k] == a + b[..k]
  {
  }

  /** The middle of three parts. */
  lemma Middle<T>(a: seq<T>, b: seq<T>, c: seq<T>)
    ensures (a + b + c)[..|a|] == a
    ensures (a + b + c)[|a|..|a| + |b|] == b
    ensures (a + b + c)[|a| + |b|..] == c
  {
  }

  lemma TailSlice<T>(s: seq<T>, k: nat, i: nat, j: nat)
    requires i <= j && k + j <= |s|
    ensures s[k..][i..j] == s[k + i..k + j]
  {
  }

  lemma CutSlice<T>(s: seq<T>, n: nat, i: nat, j: nat)
    requires i <= j <= n <= |s|
    ensures s[..n][i..j] == s[i..j]
  {
  }

  lemma Associative<T>(a: seq<T>, b: seq<T>, c: seq<T>)
    ensures (a + b) + c == a + (b + c)
  {
  }

  /** Two steps of a queue that gains at the back and loses at the front, joined into one. */
  lemma GainsAndLosses<T>(a: seq<T>, in1: seq<T>, out1: seq<T>, b: seq<T>, in2: seq<T>, out2: seq<T>, d: seq<T>)
    requires a + in1 == out1 + b && b + in2 == out2 + d
    ensures a + (in1 + in2) == (out1 + out2) + d
  {
    assert a + (in1 + in2) == (a + in1) + in2 == out1 + (b + in2) == (out1 + out2) + d;
  }

  lemma MemberAppend<T>(s: seq<T>, x: T)
    ensures forall y :: y in s + [x] <==> y in s || y == x
  {
  }

  lemma Overwrite<K, V>(m: map<K, V>, k: K, v: V, w: V)
    ensures m[k := v][k := w] == m[k := w]
    ensures m[k := w] - {k} == m - {k}
  {
  }
}
