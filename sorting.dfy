/**
 * `Array.prototype.sort` with a comparator. ECMA-262 requires the sort to be stable, and
 * with a consistent comparator (one that induces a total preorder) a stable sort has only
 * one possible result; `Sort` below is an insertion sort that computes it, and
 * `StableSortUnique` shows that any other sorted, stable permutation is the same sequence.
 *
 * A comparator `cmp` is represented by `before(a, b)`, meaning `cmp(a, b) <= 0`: `a` may
 * stay in front of `b`.
 */
module Sorting {

  /** `before` is total and transitive (a total preorder). */
  ghost predicate TotalPreorder<E(!new)>(before: (E, E) -> bool)
  {
    && (forall a, b :: before(a, b) || before(b, a))
    && (forall a, b, c :: before(a, b) && before(b, c) ==> before(a, c))
  }

  predicate Sorted<E>(s: seq<E>, before: (E, E) -> bool)
  {
    forall i, j :: 0 <= i < j < |s| ==> before(s[i], s[j])
  }

  predicate Distinct<E(==)>(s: seq<E>)
  {
    forall i, j :: 0 <= i < j < |s| ==> s[i] != s[j]
  }

  /** Elements the comparator does not distinguish. */
  predicate Tie<E>(before: (E, E) -> bool, a: E, b: E)
  {
    before(a, b) && before(b, a)
  }

  /** The elements of `s` tied with `y`, in the order of `s`. */
  function Tied<E(==)>(s: seq<E>, before: (E, E) -> bool, y: E): seq<E>
  {
    if s == [] then [] else (if Tie(before, s[0], y) then [s[0]] else []) + Tied(s[1..], before, y)
  }

  /** The number of elements of `s` that satisfy `p`. */
  function Count<E>(s: seq<E>, p: E -> bool): nat
  {
    if s == [] then 0 else (if p(s[0]) then 1 else 0) + Count(s[1..], p)
  }

  /** `x` placed in front of the first element of `t` it may precede. */
  function Insert<E(==)>(x: E, t: seq<E>, before: (E, E) -> bool): (r: seq<E>)
    ensures multiset(r) == multiset(t) + multiset{x}
    ensures |r| == |t| + 1
  {
    if t == [] || before(x, t[0]) then [x] + t
    else
      var r := [t[0]] + Insert(x, t[1..], before);
      assert t == [t[0]] + t[1..];
      r
  }

  /** The stable sort of `s` under `before`; it is a permutation of `s`. */
  function Sort<E(==)>(s: seq<E>, before: (E, E) -> bool): (r: seq<E>)
    ensures multiset(r) == multiset(s)
    ensures |r| == |s|
  {
    if s == [] then []
    else
      assert s == [s[0]] + s[1..];
      Insert(s[0], Sort(s[1..], before), before)
  }

  /** Permutations of each other have the same elements. */
  lemma {:induction false} PermutationMembers<T>(a: seq<T>, b: seq<T>)
    requires multiset(a) == multiset(b)
    ensures forall x :: x in a <==> x in b
  {
    forall x ensures x in a <==> x in b {
      assert x in a <==> x in multiset(a);
      assert x in b <==> x in multiset(b);
    }
  }

  /** Sorting keeps exactly the elements of the list. */
  lemma {:induction false} SortMembers<E>(s: seq<E>, before: (E, E) -> bool)
    ensures forall x :: x in Sort(s, before) <==> x in s
  {
    PermutationMembers(Sort(s, before), s);
  }

  lemma {:induction false} InsertSorted<E(!new)>(x: E, t: seq<E>, before: (E, E) -> bool)
    requires TotalPreorder(before) && Sorted(t, before)
    ensures Sorted(Insert(x, t, before), before)
  {
    if t != [] && !before(x, t[0]) {
      InsertSorted(x, t[1..], before);
      var r := Insert(x, t, before);
      assert r == [t[0]] + Insert(x, t[1..], before);
      forall k | 1 <= k < |r| ensures before(r[0], r[k]) {
        assert r[k] in multiset(Insert(x, t[1..], before));
        assert r[k] == x || r[k] in t[1..];
      }
    } else if t != [] {
      var r := Insert(x, t, before);
      forall k | 1 <= k < |r| ensures before(r[0], r[k]) {
        assert r[k] == t[k - 1];
      }
    }
  }

  /** `Sort` orders its result. */
  lemma {:induction false} SortSorted<E(!new)>(s: seq<E>, before: (E, E) -> bool)
    requires TotalPreorder(before)
    ensures Sorted(Sort(s, before), before)
  {
    if s != [] {
      SortSorted(s[1..], before);
      InsertSorted(s[0], Sort(s[1..], before), before);
    }
  }

  lemma {:induction false} TiedAppend<E>(a: seq<E>, b: seq<E>, before: (E, E) -> bool, y: E)
    ensures Tied(a + b, before, y) == Tied(a, before, y) + Tied(b, before, y)
  {
    if a == [] {
      assert a + b == b;
    } else {
      var h := if Tie(before, a[0], y) then [a[0]] else [];
      assert (a + b)[0] == a[0];
      assert (a + b)[1..] == a[1..] + b;
      assert Tied(a + b, before, y) == h + Tied(a[1..] + b, before, y);
      assert Tied(a, before, y) == h + Tied(a[1..], before, y);
      TiedAppend(a[1..], b, before, y);
    }
  }

  lemma {:induction false} InsertTied<E(!new)>(x: E, t: seq<E>, before: (E, E) -> bool, y: E)
    requires TotalPreorder(before)
    ensures Tied(Insert(x, t, before), before, y)
         == (if Tie(before, x, y) then [x] else []) + Tied(t, before, y)
  {
    var hx := if Tie(before, x, y) then [x] else [];
    if t != [] && !before(x, t[0]) {
      var rest := Insert(x, t[1..], before);
      InsertTied(x, t[1..], before, y);
      assert Insert(x, t, before) == [t[0]] + rest;
      var h0 := if Tie(before, t[0], y) then [t[0]] else [];
      TiedCons(t[0], rest, before, y);
      assert Tied(t, before, y) == h0 + Tied(t[1..], before, y);
      TieTransitive(before, x, y, t[0]);
      assert h0 == [] || hx == [];
    } else {
      assert ([x] + t)[1..] == t;
    }
  }

  /** Stability: among elements tied with any `y`, `Sort` keeps the order of `s`. */
  lemma {:induction false} SortStable<E(!new)>(s: seq<E>, before: (E, E) -> bool, y: E)
    requires TotalPreorder(before)
    ensures Tied(Sort(s, before), before, y) == Tied(s, before, y)
  {
    if s != [] {
      SortStable(s[1..], before, y);
      InsertTied(s[0], Sort(s[1..], before), before, y);
    }
  }

  lemma {:induction false} InsertCount<E>(x: E, t: seq<E>, before: (E, E) -> bool, p: E -> bool)
    ensures Count(Insert(x, t, before), p) == (if p(x) then 1 else 0) + Count(t, p)
  {
    if t != [] && !before(x, t[0]) {
      InsertCount(x, t[1..], before, p);
      assert Insert(x, t, before) == [t[0]] + Insert(x, t[1..], before);
    } else {
      assert ([x] + t)[1..] == t;
    }
  }

  /** Sorting keeps the number of elements with any property. */
  lemma {:induction false} SortCount<E>(s: seq<E>, before: (E, E) -> bool, p: E -> bool)
    ensures Count(Sort(s, before), p) == Count(s, p)
  {
    if s != [] {
      SortCount(s[1..], before, p);
      InsertCount(s[0], Sort(s[1..], before), before, p);
    }
  }

  lemma {:induction false} CountAppend<E>(a: seq<E>, b: seq<E>, p: E -> bool)
    ensures Count(a + b, p) == Count(a, p) + Count(b, p)
  {
    if a == [] {
      assert a + b == b;
    } else {
      assert (a + b)[1..] == a[1..] + b;
      CountAppend(a[1..], b, p);
    }
  }

  /** A duplicate-free sequence holds each of its elements exactly once. */
  lemma {:induction false} DistinctMultiplicity<E>(s: seq<E>, x: E)
    requires Distinct(s)
    ensures multiset(s)[x] == if x in s then 1 else 0
  {
    if s != [] {
      assert s == [s[0]] + s[1..];
      DistinctMultiplicity(s[1..], x);
      assert s[0] !in s[1..];
    }
  }

  /** A permutation of a duplicate-free sequence is duplicate-free. */
  lemma {:induction false} DistinctPermutation<E>(a: seq<E>, b: seq<E>)
    requires Distinct(a) && multiset(a) == multiset(b)
    ensures Distinct(b)
  {
    forall i, j | 0 <= i < j < |b| ensures b[i] != b[j] {
      if b[i] == b[j] {
        assert b == b[..i] + [b[i]] + b[i + 1..j] + [b[j]] + b[j + 1..];
        assert multiset(b)[b[i]] >= 2;
        DistinctMultiplicity(a, b[i]);
        assert false;
      }
    }
  }


  lemma {:induction false} Reflexive<E(!new)>(before: (E, E) -> bool, x: E)
    requires TotalPreorder(before)
    ensures before(x, x)
  {
    assert before(x, x) || before(x, x);
  }

  /** The first elements of two sorted permutations of each other are tied. */
  lemma {:induction false} SortedHeadsTie<E(!new)>(a: seq<E>, b: seq<E>, before: (E, E) -> bool)
    requires TotalPreorder(before)
    requires Sorted(a, before) && Sorted(b, before) && multiset(a) == multiset(b) && a != []
    ensures b != [] && Tie(before, a[0], b[0])
  {
    assert |a| == |multiset(a)| == |b|;
    assert b[0] in multiset(a) && a[0] in multiset(b);
    var i :| 0 <= i < |a| && a[i] == b[0];
    var j :| 0 <= j < |b| && b[j] == a[0];
    Reflexive(before, a[0]);
    Reflexive(before, b[0]);
    assert before(a[0], a[i]);
    assert before(b[0], b[j]);
  }

  lemma {:induction false} TiedCons<E>(h: E, s: seq<E>, before: (E, E) -> bool, y: E)
    ensures Tied([h] + s, before, y) == (if Tie(before, h, y) then [h] else []) + Tied(s, before, y)
  {
    assert ([h] + s)[1..] == s;
  }

  /** Sequences with the same tied subsequences and the same first element have tails
      with the same tied subsequences. */
  lemma {:induction false} TiedTails<E>(a: seq<E>, b: seq<E>, before: (E, E) -> bool)
    requires a != [] && b != [] && a[0] == b[0]
    requires forall y :: Tied(a, before, y) == Tied(b, before, y)
    ensures forall y :: Tied(a[1..], before, y) == Tied(b[1..], before, y)
  {
    forall y ensures Tied(a[1..], before, y) == Tied(b[1..], before, y) {
      var h := if Tie(before, a[0], y) then [a[0]] else [];
      assert a == [a[0]] + a[1..] && b == [b[0]] + b[1..];
      TiedCons(a[0], a[1..], before, y);
      TiedCons(b[0], b[1..], before, y);
      assert Tied(a, before, y) == Tied(b, before, y);
      assert (h + Tied(a[1..], before, y))[|h|..] == Tied(a[1..], before, y);
      assert (h + Tied(b[1..], before, y))[|h|..] == Tied(b[1..], before, y);
    }
  }

  /** Sequences with the same tied subsequences whose first elements are tied start with
      the same element. */
  lemma {:induction false} TiedHeads<E>(a: seq<E>, b: seq<E>, before: (E, E) -> bool)
    requires a != [] && b != [] && Tie(before, a[0], b[0]) && before(a[0], a[0])
    requires Tied(a, before, a[0]) == Tied(b, before, a[0])
    ensures a[0] == b[0]
  {
    assert a == [a[0]] + a[1..] && b == [b[0]] + b[1..];
    TiedCons(a[0], a[1..], before, a[0]);
    TiedCons(b[0], b[1..], before, a[0]);
    assert Tied(a, before, a[0])[0] == a[0] && Tied(b, before, a[0])[0] == b[0];
  }

  /** Two elements tied with a third may precede each other. */
  lemma {:induction false} TieTransitive<E(!new)>(before: (E, E) -> bool, a: E, b: E, c: E)
    requires TotalPreorder(before)
    ensures Tie(before, a, b) && Tie(before, c, b) ==> before(a, c)
  {
    if Tie(before, a, b) && Tie(before, c, b) {
      assert before(a, b) && before(b, c);
    }
  }

  /** Two sorted, mutually stable permutations of each other start with the same
      element. */
  lemma {:induction false} StableHeads<E(!new)>(a: seq<E>, b: seq<E>, before: (E, E) -> bool)
    requires TotalPreorder(before)
    requires Sorted(a, before) && Sorted(b, before) && multiset(a) == multiset(b)
    requires forall y :: Tied(a, before, y) == Tied(b, before, y)
    requires a != []
    ensures b != [] && a[0] == b[0]
  {
    SortedHeadsTie(a, b, before);
    Reflexive(before, a[0]);
    TiedHeads(a, b, before);
  }

  lemma {:induction false} SortedTail<E>(a: seq<E>, before: (E, E) -> bool)
    requires Sorted(a, before) && a != []
    ensures Sorted(a[1..], before)
  {
    var t := a[1..];
    forall i, j | 0 <= i < j < |t| ensures before(t[i], t[j]) {
      assert t[i] == a[i + 1] && t[j] == a[j + 1];
    }
  }

  lemma {:induction false} MultisetTail<E>(a: seq<E>, b: seq<E>)
    requires multiset(a) == multiset(b)
    requires a != [] && b != [] && a[0] == b[0]
    ensures multiset(a[1..]) == multiset(b[1..])
  {
    assert a == [a[0]] + a[1..];
    assert b == [b[0]] + b[1..];
    assert multiset(a[1..]) == multiset(a) - multiset{a[0]};
    assert multiset(b[1..]) == multiset(b) - multiset{a[0]};
  }

  /** Any two sorted, mutually stable permutations of each other are equal: the stable
      sort of a sequence does not depend on the algorithm that computes it. */
  lemma {:induction false} StableSortUnique<E(!new)>(a: seq<E>, b: seq<E>, before: (E, E) -> bool)
    requires TotalPreorder(before)
    requires Sorted(a, before) && Sorted(b, before) && multiset(a) == multiset(b)
    requires forall y :: Tied(a, before, y) == Tied(b, before, y)
    ensures a == b
  {
    if a != [] {
      StableHeads(a, b, before);
      SortedTail(a, before);
      SortedTail(b, before);
      MultisetTail(a, b);
      TiedTails(a, b, before);
      StableSortUnique(a[1..], b[1..], before);
      assert a == [a[0]] + a[1..] && b == [b[0]] + b[1..];
    } else {
      assert |b| == |multiset(b)| == |multiset(a)| == 0;
    }
  }

  /** A duplicate-free sequence has as many elements as its set of elements. */
  lemma {:induction false} DistinctCardinality<E>(s: seq<E>)
    requires Distinct(s)
    ensures |set x | x in s| == |s|
  {
    if s != [] {
      var tail := s[1..];
      assert Distinct(tail) by {
        forall i, j | 0 <= i < j < |tail| ensures tail[i] != tail[j] {
          assert tail[i] == s[i + 1] && tail[j] == s[j + 1];
        }
      }
      DistinctCardinality(tail);
      assert s[0] !in tail;
      assert (set x | x in s) == (set x | x in tail) + {s[0]} by {
        assert s == [s[0]] + tail;
      }
    }
  }
}
