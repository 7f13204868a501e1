/**
 * Sequence facts shared by the deduplication steps: the position where a
 * value first (or last) occurs, first-seen deduplication, and `slice(0, n)`.
 */
module Seqs {
  import opened Wrappers

  ghost predicate Distinct<T>(s: seq<T>) {
    forall i, j :: 0 <= i < j < |s| ==> s[i] != s[j]
  }

  /** The position of the first occurrence of `x` (`indexOf`). */
  function FirstIndex<T(==)>(s: seq<T>, x: T): (i: nat)
    requires x in s
    ensures i < |s| && s[i] == x && x !in s[..i]
  {
    if s[0] == x then 0 else 1 + FirstIndex(s[1..], x)
  }

  /** The position of the last occurrence of `x` (`lastIndexOf`). */
  function LastIndex<T(==)>(s: seq<T>, x: T): (i: nat)
    requires x in s
    ensures i < |s| && s[i] == x && x !in s[i + 1..]
  {
    if s[|s| - 1] == x then |s| - 1 else LastIndex(s[..|s| - 1], x)
  }

  lemma FirstIndexOfExtension<T>(s: seq<T>, x: T, y: T)
    requires y in s
    ensures y in s + [x] && FirstIndex(s + [x], y) == FirstIndex(s, y)
  {
    var i := FirstIndex(s, y);
    assert (s + [x])[..i] == s[..i];
    FirstIndexUnique(s + [x], y, i);
  }

  lemma LastIndexOfExtension<T>(s: seq<T>, x: T, y: T)
    requires y in s && y != x
    ensures y in s + [x] && LastIndex(s + [x], y) == LastIndex(s, y)
  {
    var i := LastIndex(s, y);
    assert (s + [x])[i + 1..] == s[i + 1..] + [x];
    LastIndexUnique(s + [x], y, i);
  }

  lemma FirstIndexUnique<T>(s: seq<T>, x: T, i: nat)
    requires i < |s| && s[i] == x && x !in s[..i]
    ensures FirstIndex(s, x) == i
  {
    var f := FirstIndex(s, x);
    assert forall k :: 0 <= k < i ==> s[k] == s[..i][k];
    assert forall k :: 0 <= k < f ==> s[k] == s[..f][k];
  }

  lemma LastIndexUnique<T>(s: seq<T>, x: T, i: nat)
    requires i < |s| && s[i] == x && x !in s[i + 1..]
    ensures LastIndex(s, x) == i
  {
    var l := LastIndex(s, x);
    assert forall k :: i < k < |s| ==> s[k] == s[i + 1..][k - i - 1];
    assert forall k :: l < k < |s| ==> s[k] == s[l + 1..][k - l - 1];
  }

  /**
   * First-seen deduplication, as a `Set` or `Map` filled in order keeps it:
   * each value once, at the place where it first occurs.
   */
  function Dedup<T(==)>(s: seq<T>): (r: seq<T>)
    ensures Distinct(r)
    ensures forall i :: 0 <= i < |s| ==> s[i] in r
    ensures forall k :: 0 <= k < |r| ==> r[k] in s
    ensures |r| <= |s|
  {
    if s == [] then []
    else
      var p := Dedup(s[..|s| - 1]);
      assert forall i :: 0 <= i < |s| - 1 ==> s[i] == s[..|s| - 1][i];
      if s[|s| - 1] in s[..|s| - 1] then p else p + [s[|s| - 1]]
  }

  /** One step of `Dedup`, in the form a loop that appends `x` needs. */
  lemma DedupSnoc<T>(s: seq<T>, x: T)
    ensures Dedup(s + [x]) == if x in s then Dedup(s) else Dedup(s) + [x]
  {
    assert (s + [x])[..|s|] == s;
  }

  /** `Dedup` keeps exactly the values of its input. */
  lemma DedupMember<T>(s: seq<T>, x: T)
    ensures x in Dedup(s) <==> x in s
  {
    if x in s {
      var i :| 0 <= i < |s| && s[i] == x;
    }
  }

  /** `Dedup` keeps values in the order of their first occurrences. */
  lemma {:induction false} DedupOrder<T>(s: seq<T>)
    ensures forall k, l :: 0 <= k < l < |Dedup(s)| ==>
              FirstIndex(s, Dedup(s)[k]) < FirstIndex(s, Dedup(s)[l])
  {
    if s != [] {
      var p, x := s[..|s| - 1], s[|s| - 1];
      assert s == p + [x];
      DedupOrder(p);
      var r := Dedup(s);
      forall k, l | 0 <= k < l < |r|
        ensures FirstIndex(s, r[k]) < FirstIndex(s, r[l])
      {
        FirstIndexOfExtension(p, x, r[k]);
        if l < |Dedup(p)| {
          FirstIndexOfExtension(p, x, r[l]);
        } else {
          // r[l] is x, first seen at the very end
          assert r[l] == x && x !in p;
          FirstIndexUnique(s, x, |p|);
        }
      }
    }
  }

  /** A sequence without repetitions is its own deduplication. */
  lemma {:induction false} DedupOfDistinct<T>(s: seq<T>)
    requires Distinct(s)
    ensures Dedup(s) == s
  {
    if s != [] {
      var p := s[..|s| - 1];
      assert Distinct(p);
      DedupOfDistinct(p);
      assert s == p + [s[|s| - 1]];
    }
  }

  lemma DistinctTake<T>(s: seq<T>, n: nat)
    requires Distinct(s)
    ensures Distinct(Take(s, n))
  {
    var t := Take(s, n);
    assert forall i :: 0 <= i < |t| ==> t[i] == s[i];
  }

  function Min(a: int, b: int): int { if a <= b then a else b }

  /** `s.slice(0, n)`: the first `n` elements, or all of them when there are fewer. */
  function Take<T>(s: seq<T>, n: nat): (r: seq<T>)
    ensures |r| == Min(|s|, n) && r == s[..|r|]
  {
    if |s| <= n then s else s[..n]
  }

  /** The position of the first element `q` accepts (`findIndex`), if any. */
  function FirstWhere<T>(s: seq<T>, q: T -> bool): (r: Option<nat>)
    ensures r.Some? ==> r.value < |s| && q(s[r.value]) && forall j :: 0 <= j < r.value ==> !q(s[j])
    ensures r.None? ==> forall j :: 0 <= j < |s| ==> !q(s[j])
  {
    if s == [] then None
    else if q(s[0]) then Some(0)
    else match FirstWhere(s[1..], q)
      case None => None
      case Some(j) => Some(j + 1)
  }

  /** The contract of `FirstWhere` determines it. */
  lemma FirstWhereIs<T>(s: seq<T>, q: T -> bool, k: nat)
    requires k < |s| && q(s[k]) && forall j :: 0 <= j < k ==> !q(s[j])
    ensures FirstWhere(s, q) == Some(k)
  {
  }

  lemma FirstWhereNone<T>(s: seq<T>, q: T -> bool)
    requires forall j :: 0 <= j < |s| ==> !q(s[j])
    ensures FirstWhere(s, q) == None
  {
  }

  /** The present values of `os`, in order. */
  function Somes<T>(os: seq<Option<T>>): seq<T> {
    if os == [] then []
    else Somes(os[..|os| - 1]) + (if os[|os| - 1].Some? then [os[|os| - 1].value] else [])
  }

  /**
   * `idx` gives, for each element of `r`, the position in `os` it comes from:
   * positions rise, and a position contributes exactly when it holds a value.
   */
  ghost predicate SomesFrom<T>(os: seq<Option<T>>, r: seq<T>, idx: seq<nat>) {
    && |idx| == |r|
    && (forall k :: 0 <= k < |r| ==> idx[k] < |os| && os[idx[k]] == Some(r[k]))
    && (forall k, l :: 0 <= k < l < |r| ==> idx[k] < idx[l])
    && (forall i :: 0 <= i < |os| ==> (os[i].Some? <==> i in idx))
  }

  lemma {:induction false} SomesOrigins<T>(os: seq<Option<T>>) returns (idx: seq<nat>)
    ensures SomesFrom(os, Somes(os), idx)
  {
    if os == [] {
      idx := [];
    } else {
      var n := |os| - 1;
      var pidx := SomesOrigins(os[..n]);
      if os[n].Some? {
        idx := pidx + [n];
        SomesStepPresent(os, Somes(os[..n]), pidx);
      } else {
        idx := pidx;
        SomesStepAbsent(os, Somes(os[..n]), pidx);
      }
    }
  }

  lemma SomesStepPresent<T>(os: seq<Option<T>>, pr: seq<T>, pidx: seq<nat>)
    requires os != [] && os[|os| - 1].Some?
    requires SomesFrom(os[..|os| - 1], pr, pidx)
    ensures SomesFrom(os, pr + [os[|os| - 1].value], pidx + [|os| - 1])
  {
    var n := |os| - 1;
    var r, idx := pr + [os[n].value], pidx + [n];
    assert forall i :: 0 <= i < n ==> os[i] == os[..n][i];
    forall i | 0 <= i < |os|
      ensures os[i].Some? <==> i in idx
    {
      if i < n {
        assert i in idx <==> i in pidx;
      }
    }
  }

  lemma SomesStepAbsent<T>(os: seq<Option<T>>, pr: seq<T>, pidx: seq<nat>)
    requires os != [] && os[|os| - 1].None?
    requires SomesFrom(os[..|os| - 1], pr, pidx)
    ensures SomesFrom(os, pr, pidx)
  {
    var n := |os| - 1;
    assert forall i :: 0 <= i < n ==> os[i] == os[..n][i];
  }

  /** `s.filter(q)`. */
  function Filter<T>(s: seq<T>, q: T -> bool): (r: seq<T>)
    ensures |r| <= |s|
  {
    if s == [] then [] else Filter(s[..|s| - 1], q) + (if q(s[|s| - 1]) then [s[|s| - 1]] else [])
  }

  lemma {:induction false} FilterMember<T>(s: seq<T>, q: T -> bool)
    ensures forall x :: x in Filter(s, q) <==> x in s && q(x)
  {
    if s != [] {
      var n := |s| - 1;
      FilterMember(s[..n], q);
      assert s == s[..n] + [s[n]];
    }
  }

  lemma {:induction false} FilterAppend<T>(a: seq<T>, b: seq<T>, q: T -> bool)
    ensures Filter(a + b, q) == Filter(a, q) + Filter(b, q)
  {
    if b != [] {
      var n := |b| - 1;
      FilterAppend(a, b[..n], q);
      assert (a + b)[..|a + b| - 1] == a + b[..n];
    } else {
      assert a + b == a;
    }
  }

  lemma AppendAssoc<T>(a: seq<T>, b: seq<T>, c: seq<T>)
    ensures a + (b + c) == (a + b) + c
  {
  }

  /** A non-empty list is its first element followed by the rest. */
  lemma ConsSplit<T>(p: seq<T>, x: seq<T>)
    requires p != []
    ensures p + x == [p[0]] + (p[1..] + x)
  {
    assert p == [p[0]] + p[1..];
  }

  /** Filtering a list with a first element: that element if it passes, then the filtered rest. */
  lemma {:induction false} FilterCons<T>(x: T, s: seq<T>, q: T -> bool)
    ensures Filter([x] + s, q) == (if q(x) then [x] else []) + Filter(s, q)
  {
    if s != [] {
      var n := |s| - 1;
      FilterCons(x, s[..n], q);
      assert ([x] + s)[..|s|] == [x] + s[..n];
    }
  }

  lemma DistinctAppend<T>(a: seq<T>, b: seq<T>)
    ensures Distinct(a + b) <==> Distinct(a) && Distinct(b) && (forall x :: x in a ==> x !in b)
  {
    var c := a + b;
    if Distinct(a) && Distinct(b) && (forall x :: x in a ==> x !in b) {
      forall i, j | 0 <= i < j < |c|
        ensures c[i] != c[j]
      {
        if i < |a| && j >= |a| {
          assert c[i] in a && c[j] == b[j - |a|];
        }
      }
    }
    if Distinct(c) {
      assert forall i :: 0 <= i < |a| ==> a[i] == c[i];
      assert forall i :: 0 <= i < |b| ==> b[i] == c[|a| + i];
    }
  }

  lemma {:induction false} FilterDistinct<T>(s: seq<T>, q: T -> bool)
    requires Distinct(s)
    ensures Distinct(Filter(s, q))
  {
    if s != [] {
      var n := |s| - 1;
      assert s == s[..n] + [s[n]];
      DistinctAppend(s[..n], [s[n]]);
      FilterDistinct(s[..n], q);
      FilterMember(s[..n], q);
      DistinctAppend(Filter(s[..n], q), if q(s[n]) then [s[n]] else []);
    }
  }

  lemma {:induction false} DistinctCount<T>(s: seq<T>, x: T)
    requires Distinct(s)
    ensures multiset(s)[x] <= 1
  {
    if s != [] {
      var n := |s| - 1;
      assert s == s[..n] + [s[n]];
      DistinctAppend(s[..n], [s[n]]);
      DistinctCount(s[..n], x);
    }
  }

  /** The multiset of a list is that of all but its last element, plus the last. */
  lemma MultisetSnoc<T>(s: seq<T>)
    requires s != []
    ensures multiset(s) == multiset(s[..|s| - 1]) + multiset{s[|s| - 1]}
  {
    assert s == s[..|s| - 1] + [s[|s| - 1]];
  }

  /** A rearrangement of a sequence without repeats has no repeats. */
  lemma DistinctPermutation<T>(a: seq<T>, b: seq<T>)
    requires multiset(a) == multiset(b) && Distinct(a)
    ensures Distinct(b)
  {
    forall i, j | 0 <= i < j < |b|
      ensures b[i] != b[j]
    {
      if b[i] == b[j] {
        assert b == b[..j] + [b[j]] + b[j + 1..];
        assert b[i] in b[..j];
        assert multiset(b)[b[j]] >= 2;
        DistinctCount(a, b[j]);
      }
    }
  }
}
