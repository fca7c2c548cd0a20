/**
 * Key order of the JavaScript objects and sets the scripts iterate over.
 *
 * `Object.keys` of an ordinary object lists its array-index keys first, in ascending
 * numeric order, and then its other string keys in the order they were first created
 * (OrdinaryOwnPropertyKeys, section 10.1.11.1 of ECMA-262). A `Set` iterates its
 * elements in the order they were first added.
 */
module JsObject {

  import opened JsString
  import opened Sorting

  /** 2^32 - 1: array indices are the integers below it. */
  const ARRAY_INDEX_LIMIT: nat := 4294967295

  /** `k` is the canonical decimal numeral of an integer below 2^32 - 1. */
  predicate IsArrayIndex(k: string)
  {
    k != [] && AllDigits(k) && (k[0] != '0' || k == "0") && DigitsValue(k) < ARRAY_INDEX_LIMIT
  }

  /** The numeric value of an array-index key (0 for other keys). */
  function IndexValue(k: string): nat
  {
    if AllDigits(k) then DigitsValue(k) else 0
  }

  /** The comparator of array-index keys: ascending numeric value. */
  function ByIndexValue(): (string, string) -> bool
  {
    (a: string, b: string) => IndexValue(a) <= IndexValue(b)
  }

  /** The array-index keys of `order`, in the order of `order`. */
  function IndexKeys(order: seq<string>): (r: seq<string>)
    ensures forall k :: k in r ==> IsArrayIndex(k)
  {
    if order == [] then []
    else (if IsArrayIndex(order[0]) then [order[0]] else []) + IndexKeys(order[1..])
  }

  /** The other keys of `order`, in the order of `order`. */
  function NamedKeys(order: seq<string>): (r: seq<string>)
    ensures forall k :: k in r ==> !IsArrayIndex(k)
  {
    if order == [] then []
    else (if IsArrayIndex(order[0]) then [] else [order[0]]) + NamedKeys(order[1..])
  }

  /** `Object.keys(o)` for an object whose keys were created in the order `order`. */
  function ObjectKeys(order: seq<string>): seq<string>
  {
    Sort(IndexKeys(order), ByIndexValue()) + NamedKeys(order)
  }

  lemma {:induction false} SplitKeysMultiset(order: seq<string>)
    ensures multiset(IndexKeys(order)) + multiset(NamedKeys(order)) == multiset(order)
  {
    if order != [] {
      SplitKeysMultiset(order[1..]);
      assert order == [order[0]] + order[1..];
    }
  }

  lemma {:induction false} NamedKeysAppend(a: seq<string>, b: seq<string>)
    ensures NamedKeys(a + b) == NamedKeys(a) + NamedKeys(b)
  {
    if a == [] {
      assert a + b == b;
    } else {
      assert (a + b)[1..] == a[1..] + b;
      NamedKeysAppend(a[1..], b);
    }
  }

  lemma {:induction false} NamedKeysOfIndexKeys(s: seq<string>)
    requires forall k :: k in s ==> IsArrayIndex(k)
    ensures NamedKeys(s) == []
  {
    if s != [] {
      NamedKeysOfIndexKeys(s[1..]);
    }
  }

  /** `Object.keys` lists every key exactly as often as it was created: the result is a
      permutation of the creation order. */
  lemma {:induction false} ObjectKeysPermutation(order: seq<string>)
    ensures multiset(ObjectKeys(order)) == multiset(order)
  {
    SplitKeysMultiset(order);
  }

  /** `Object.keys` lists the array-index keys in front of all other keys, in ascending
      numeric order, and the other keys in their creation order. */
  lemma {:induction false} ObjectKeysLayout(order: seq<string>)
    ensures var r := ObjectKeys(order);
            forall i, j :: 0 <= i < j < |r| && IsArrayIndex(r[j]) ==>
              IsArrayIndex(r[i]) && IndexValue(r[i]) <= IndexValue(r[j])
    ensures NamedKeys(ObjectKeys(order)) == NamedKeys(order)
  {
    var sorted := Sort(IndexKeys(order), ByIndexValue());
    SortSorted(IndexKeys(order), ByIndexValue());
    assert forall k :: k in sorted ==> k in multiset(IndexKeys(order));
    var r := ObjectKeys(order);
    forall i, j | 0 <= i < j < |r| && IsArrayIndex(r[j])
      ensures IsArrayIndex(r[i]) && IndexValue(r[i]) <= IndexValue(r[j])
    {
      assert r[j] !in NamedKeys(order);
      assert j < |sorted| && r[j] == sorted[j] && r[i] == sorted[i];
      assert sorted[i] in multiset(IndexKeys(order));
      assert sorted[i] in IndexKeys(order);
    }
    NamedKeysAppend(sorted, NamedKeys(order));
    NamedKeysOfIndexKeys(sorted);
    NamedKeysOfNamedKeys(order);
  }

  lemma {:induction false} NamedKeysOfNamedKeys(s: seq<string>)
    ensures NamedKeys(NamedKeys(s)) == NamedKeys(s)
  {
    if s != [] {
      NamedKeysOfNamedKeys(s[1..]);
      if !IsArrayIndex(s[0]) {
        var n := NamedKeys(s);
        assert n == [s[0]] + NamedKeys(s[1..]);
        assert n[0] == s[0] && n[1..] == NamedKeys(s[1..]);
      } else {
        assert NamedKeys(s) == [] + NamedKeys(s[1..]) == NamedKeys(s[1..]);
      }
    }
  }

  /** The iteration order of `new Set(s)`: each element where it first occurs. */
  function Dedup<T(==)>(s: seq<T>): (r: seq<T>)
    ensures Distinct(r)
    ensures forall i :: 0 <= i < |r| ==> r[i] in s
    ensures forall i :: 0 <= i < |s| ==> s[i] in r
  {
    if s == [] then []
    else
      var d := Dedup(s[..|s| - 1]);
      assert s == s[..|s| - 1] + [s[|s| - 1]];
      if s[|s| - 1] in d then d else d + [s[|s| - 1]]
  }

  // ----- objects with string keys -----

  /** An ordinary object used as a dictionary: its own properties, and the order in which
      each key was first created. */
  datatype Object<T> = Object(entries: map<string, T>, order: seq<string>)

  /** Every key is listed once in the creation order, and only the keys present. */
  ghost predicate Valid<T>(o: Object<T>)
  {
    Distinct(o.order) && (forall k :: k in o.entries <==> k in o.order)
  }

  /** `{}`. */
  function Empty<T>(): (o: Object<T>)
    ensures Valid(o) && o.entries == map[]
  {
    Object(map[], [])
  }

  /** `o[k] = v`: a new key goes to the end of the creation order, an existing key keeps
      its place and takes the new value. */
  function Put<T>(o: Object<T>, k: string, v: T): (r: Object<T>)
    ensures Valid(o) ==> Valid(r)
    ensures r.entries == o.entries[k := v]
    ensures k in o.entries ==> r.order == o.order
    ensures k !in o.entries ==> r.order == o.order + [k]
  {
    if k in o.entries then Object(o.entries[k := v], o.order)
    else Object(o.entries[k := v], o.order + [k])
  }

  /** `Object.keys(o)`. */
  function Keys<T>(o: Object<T>): seq<string>
  {
    ObjectKeys(o.order)
  }

  /** `Object.keys` of a valid object lists each of its keys exactly once. */
  lemma {:induction false} KeysOfValid<T>(o: Object<T>)
    requires Valid(o)
    ensures Distinct(Keys(o))
    ensures forall k :: k in Keys(o) <==> k in o.entries
  {
    ObjectKeysPermutation(o.order);
    DistinctPermutation(o.order, Keys(o));
    forall k ensures k in Keys(o) <==> k in o.order {
      assert k in Keys(o) <==> k in multiset(Keys(o));
      assert k in o.order <==> k in multiset(o.order);
    }
  }

  /** `Object.keys(o).length` is the number of keys of `o`. */
  lemma {:induction false} KeysCount<T>(o: Object<T>)
    requires Valid(o)
    ensures |Keys(o)| == |o.entries|
  {
    ObjectKeysPermutation(o.order);
    assert |Keys(o)| == |multiset(Keys(o))| == |multiset(o.order)| == |o.order|;
    assert (set k | k in o.order) == o.entries.Keys;
    DistinctCardinality(o.order);
  }
}
