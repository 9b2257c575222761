/**
 * Sequence helpers shared by the three tools: duplicate-freedom, the position of a first
 * occurrence, and `list(dict.fromkeys(xs))`, which keeps the first occurrence of each element.
 */
module Seqs {

  function Min(a: int, b: int): int {
    if a < b then a else b
  }

  /** The elements of `s` as a set. */
  function Elems<T>(s: seq<T>): set<T> {
    set x | x in s
  }

  predicate Distinct<T(==)>(s: seq<T>) {
    forall i, j :: 0 <= i < j < |s| ==> s[i] != s[j]
  }

  /** `s.index(x)`: the position of the first occurrence of `x` in `s`. */
  function FirstIndex<T(==)>(s: seq<T>, x: T): (k: nat)
    requires x in s
    ensures k < |s| && s[k] == x && x !in s[..k]
  {
    if s[0] == x then 0 else 1 + FirstIndex(s[1..], x)
  }

  /** An element that already occurs in a prefix has its first occurrence there. */
  lemma FirstIndexPrefix<T>(s: seq<T>, n: nat)
    requires n <= |s|
    ensures forall x :: x in s[..n] ==> FirstIndex(s, x) == FirstIndex(s[..n], x)
  {
  }

  /**
   * `list(dict.fromkeys(s))`: the distinct elements of `s`, each once, ordered by where
   * they first occur in `s` (DedupMeaning).
   */
  function Dedup<T(==)>(s: seq<T>): seq<T>
    decreases |s|
  {
    if s == [] then []
    else
      var n := |s| - 1;
      var d := Dedup(s[..n]);
      if s[n] in d then d else d + [s[n]]
  }

  /** Dedup keeps each element of `s` once, in the order of the first occurrences. */
  lemma {:induction false} DedupMeaning<T(!new)>(s: seq<T>)
    ensures DedupOf(s, Dedup(s))
    decreases |s|
  {
    if s != [] {
      var n := |s| - 1;
      var d := Dedup(s[..n]);
      DedupMeaning(s[..n]);
      FirstIndexPrefix(s, n);
      assert forall x :: x in s <==> x in s[..n] || x == s[n];
      if s[n] !in d {
        assert FirstIndex(s, s[n]) == n;
      }
    }
  }

  /** Dedup's three properties: what `list(dict.fromkeys(s))` promises about its result `r`. */
  ghost predicate DedupOf<T(!new)>(s: seq<T>, r: seq<T>) {
    && Distinct(r)
    && (forall x :: x in r <==> x in s)
    && (forall i, j :: 0 <= i < j < |r| ==> FirstIndex(s, r[i]) < FirstIndex(s, r[j]))
  }

  /** The three properties of Dedup determine its result: no other sequence has them all. */
  lemma {:induction false} DedupUnique<T(!new)>(s: seq<T>, r: seq<T>)
    requires DedupOf(s, r)
    ensures r == Dedup(s)
    decreases |s|
  {
    var d := Dedup(s);
    DedupMeaning(s);
    if r == [] {
      NoElemsEmpty(d, s);
    } else {
      NoElemsEmpty(r, s);
      assert d != [] by {
        if d == [] { NoElemsEmpty(r, d); }
      }
      SameHead(s, r, d);
      var s' := RemoveAll(s, r[0]);
      DedupTail(s, r, s');
      DedupTail(s, d, s');
      DedupUnique(s', r[1..]);
      DedupUnique(s', d[1..]);
      assert r == [r[0]] + r[1..] && d == [d[0]] + d[1..];
    }
  }

  lemma NoElemsEmpty<T>(d: seq<T>, s: seq<T>)
    requires Distinct(d)
    requires forall x :: x in d ==> x in s
    ensures s == [] ==> d == []
  {
    DistinctCard(d);
    if s == [] {
      assert Elems(d) == {};
    }
  }

  /** Two sequences with Dedup's properties start with the same element. */
  lemma SameHead<T(!new)>(s: seq<T>, r: seq<T>, d: seq<T>)
    requires DedupOf(s, r) && DedupOf(s, d) && r != [] && d != []
    ensures r[0] == d[0]
  {
    var a := FirstIndexIn(r, d[0]);
    var b := FirstIndexIn(d, r[0]);
  }

  /** A position at which `x` occurs in `s`. */
  function FirstIndexIn<T(==)>(s: seq<T>, x: T): (k: nat)
    requires x in s
    ensures k < |s| && s[k] == x
  {
    FirstIndex(s, x)
  }

  /** `s` without any occurrence of `x`. */
  function RemoveAll<T(==,!new)>(s: seq<T>, x: T): (r: seq<T>)
    ensures forall y :: y in r <==> y in s && y != x
    ensures |r| <= |s| && (x in s ==> |r| < |s|)
  {
    if s == [] then [] else (if s[0] == x then [] else [s[0]]) + RemoveAll(s[1..], x)
  }

  /** Removing an element keeps the relative order of the first occurrences of the others. */
  lemma {:induction false} RemoveAllOrder<T(!new)>(s: seq<T>, x: T, a: T, b: T)
    requires a in s && b in s && a != x && b != x
    requires FirstIndex(s, a) < FirstIndex(s, b)
    ensures FirstIndex(RemoveAll(s, x), a) < FirstIndex(RemoveAll(s, x), b)
  {
    var t := RemoveAll(s, x);
    assert t == (if s[0] == x then [] else [s[0]]) + RemoveAll(s[1..], x);
    if s[0] == a {
      assert t[0] == a;
    } else if s[0] == x {
      RemoveAllOrder(s[1..], x, a, b);
      assert t == RemoveAll(s[1..], x);
    } else {
      RemoveAllOrder(s[1..], x, a, b);
      var t' := RemoveAll(s[1..], x);
      assert t == [s[0]] + t';
      assert FirstIndex(t, a) == 1 + FirstIndex(t', a);
      assert FirstIndex(t, b) == 1 + FirstIndex(t', b);
    }
  }

  /** The tail of a sequence with Dedup's properties has them again for `s` without its head. */
  lemma DedupTail<T(!new)>(s: seq<T>, r: seq<T>, s': seq<T>)
    requires r != [] && DedupOf(s, r)
    requires s' == RemoveAll(s, r[0])
    ensures DedupOf(s', r[1..])
  {
    forall x | x in s'
      ensures x in r[1..]
    {
      var k := FirstIndexIn(r, x);
      assert k != 0;
      assert r[1..][k - 1] == x;
    }
    forall i, j | 0 <= i < j < |r| - 1
      ensures FirstIndex(s', r[1..][i]) < FirstIndex(s', r[1..][j])
    {
      assert r[1..][i] == r[i + 1] && r[1..][j] == r[j + 1];
      RemoveAllOrder(s, r[0], r[i + 1], r[j + 1]);
    }
  }

  /** A duplicate-free sequence has as many elements as its set of elements. */
  lemma {:induction false} DistinctCard<T>(s: seq<T>)
    requires Distinct(s)
    ensures |Elems(s)| == |s|
  {
    if s != [] {
      var n := |s| - 1;
      DistinctCard(s[..n]);
      assert Elems(s) == Elems(s[..n]) + {s[n]};
      assert s[n] !in Elems(s[..n]);
    }
  }
}
