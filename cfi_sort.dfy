/**
 * `sort_epubcfi`: Python's stable `sorted` over location strings with
 * `key=cfi_to_tuple`. Like CPython, the sort computes each key once, sorts
 * the (key, location) pairs comparing keys only, and drops the keys again.
 * Python raises `TypeError` when the sort happens to compare two keys that
 * are not comparable; which pairs it compares is not visible, so the sort is
 * modelled for lists whose keys are pairwise comparable.
 */
module CfiSort {
  import opened CfiParse
  import opened CfiOrder

  // ---------------------------------------------------------------------------
  // Order on location strings
  // ---------------------------------------------------------------------------

  /** Comparison of two locations by their keys. */
  function KeyCmp(a: string, b: string): Cmp
  {
    CompareKeys(Key(a), Key(b))
  }

  /** `a` may precede `b` in sorted order: its key is not greater. */
  predicate KeyLe(a: string, b: string)
  {
    KeyCmp(a, b) == Less || KeyCmp(a, b) == Equal
  }

  /** No two keys of the list make Python raise `TypeError`. */
  predicate PairwiseComparable(s: seq<string>)
  {
    forall i, j :: 0 <= i < |s| && 0 <= j < |s| ==> KeyCmp(s[i], s[j]) != Incomparable
  }

  /** Non-decreasing by key. */
  predicate SortedByKey(s: seq<string>)
  {
    forall i, j :: 0 <= i < j < |s| ==> KeyLe(s[i], s[j])
  }

  /** The locations of `s` whose key is `k`, in their order in `s`. */
  function WithKey(s: seq<string>, k: seq<Tok>): seq<string>
  {
    if s == [] then []
    else (if Key(s[0]) == k then [s[0]] else []) + WithKey(s[1..], k)
  }

  /** `KeyLe` is transitive. */
  lemma KeyLeTrans(a: string, b: string, c: string)
    requires KeyLe(a, b) && KeyLe(b, c)
    ensures KeyLe(a, c)
  {
    CompareKeysEqual(Key(a), Key(b));
    CompareKeysEqual(Key(b), Key(c));
    if KeyCmp(a, b) == Less && KeyCmp(b, c) == Less {
      CompareKeysTrans(Key(a), Key(b), Key(c));
    }
  }

  // ---------------------------------------------------------------------------
  // Sorting (key, location) pairs by key
  // ---------------------------------------------------------------------------

  /** A location paired with its precomputed key. */
  datatype Keyed = Keyed(key: seq<Tok>, cfi: string)

  /** `p` may precede `q`: its key is not greater. */
  predicate Le(p: Keyed, q: Keyed)
  {
    CompareKeys(p.key, q.key) == Less || CompareKeys(p.key, q.key) == Equal
  }

  /** No two keys in the list are a number-against-string pair at their first difference. */
  predicate Comparable(s: seq<Keyed>)
  {
    forall i, j :: 0 <= i < |s| && 0 <= j < |s| ==> CompareKeys(s[i].key, s[j].key) != Incomparable
  }

  /** Non-decreasing by key. */
  predicate Sorted(s: seq<Keyed>)
  {
    forall i, j :: 0 <= i < j < |s| ==> Le(s[i], s[j])
  }

  /** Two comparable pairs are ordered one way or the other. */
  lemma LeTotal(p: Keyed, q: Keyed)
    requires CompareKeys(p.key, q.key) != Incomparable
    ensures !Le(p, q) ==> CompareKeys(q.key, p.key) == Less
  {
    CompareKeysFlip(p.key, q.key);
  }

  /** `Le` is transitive. */
  lemma LeTrans(p: Keyed, q: Keyed, r: Keyed)
    requires Le(p, q) && Le(q, r)
    ensures Le(p, r)
  {
    CompareKeysEqual(p.key, q.key);
    CompareKeysEqual(q.key, r.key);
    if CompareKeys(p.key, q.key) == Less && CompareKeys(q.key, r.key) == Less {
      CompareKeysTrans(p.key, q.key, r.key);
    }
  }

  /**
   * Inserting one pair into a sorted list: it goes in front of the first
   * element whose key is not smaller, so before any element of equal key.
   */
  function Insert(x: Keyed, s: seq<Keyed>): seq<Keyed>
  {
    if s == [] then [x]
    else if Le(x, s[0]) then [x] + s
    else [s[0]] + Insert(x, s[1..])
  }

  /** Insertion adds exactly the one element. */
  lemma {:induction false} InsertMultiset(x: Keyed, s: seq<Keyed>)
    ensures multiset(Insert(x, s)) == multiset(s) + multiset{x}
  {
    if s == [] || Le(x, s[0]) {
      InsertFront(x, s);
    } else {
      var y, t := s[0], s[1..];
      InsertPast(x, s);
      InsertMultiset(x, t);
      assert s == [y] + t;
      assert multiset(s) == multiset{y} + multiset(t);
    }
  }

  /** A pair that does not go after the head goes in front. */
  lemma InsertFront(x: Keyed, s: seq<Keyed>)
    requires s == [] || Le(x, s[0])
    ensures Insert(x, s) == [x] + s
  {
  }

  /** A pair that goes after the head is inserted into the tail. */
  lemma InsertPast(x: Keyed, s: seq<Keyed>)
    requires s != [] && !Le(x, s[0])
    ensures Insert(x, s) == [s[0]] + Insert(x, s[1..])
  {
  }

  /** A sorted list stays sorted when its new head precedes every element. */
  lemma SortedCons(y: Keyed, t: seq<Keyed>)
    requires Sorted(t)
    requires forall z :: z in t ==> Le(y, z)
    ensures Sorted([y] + t)
  {
    var r := [y] + t;
    forall i, j | 0 <= i < j < |r| ensures Le(r[i], r[j]) {
      if i == 0 {
        assert r[j] == t[j - 1];
        assert r[j] in t;
      } else {
        assert r[i] == t[i - 1] && r[j] == t[j - 1];
      }
    }
  }

  /** A sorted list stays sorted without its head, whose key is not above any other. */
  lemma SortedTail(s: seq<Keyed>)
    requires s != [] && Sorted(s)
    ensures Sorted(s[1..])
    ensures forall z :: z in s[1..] ==> Le(s[0], z)
  {
    var t := s[1..];
    forall i, j | 0 <= i < j < |t| ensures Le(t[i], t[j]) {
      assert t[i] == s[i + 1] && t[j] == s[j + 1];
    }
    forall z | z in t ensures Le(s[0], z) {
      var k :| 0 <= k < |t| && t[k] == z;
      assert s[k + 1] == z;
    }
  }

  /** Inserting a pair comparable with every element keeps a list sorted. */
  lemma {:induction false} InsertSorted(x: Keyed, s: seq<Keyed>)
    requires Sorted(s)
    requires forall y :: y in s ==> CompareKeys(x.key, y.key) != Incomparable
    ensures Sorted(Insert(x, s))
  {
    if s == [] {
    } else if Le(x, s[0]) {
      SortedTail(s);
      forall z | z in s ensures Le(x, z) {
        if z != s[0] {
          assert z in s[1..] by { assert s == [s[0]] + s[1..]; }
          LeTrans(x, s[0], z);
        }
      }
      SortedCons(x, s);
    } else {
      var t := s[1..];
      SortedTail(s);
      assert forall y :: y in t ==> y in s;
      InsertSorted(x, t);
      InsertMultiset(x, t);
      LeTotal(x, s[0]);
      forall z | z in Insert(x, t) ensures Le(s[0], z) {
        assert z in multiset(Insert(x, t));
      }
      SortedCons(s[0], Insert(x, t));
    }
  }

  /** A comparable list stays comparable without its head. */
  lemma ComparableTail(s: seq<Keyed>)
    requires s != [] && Comparable(s)
    ensures Comparable(s[1..])
    ensures forall y :: y in s[1..] ==> CompareKeys(s[0].key, y.key) != Incomparable
  {
    var t := s[1..];
    forall i, j | 0 <= i < |t| && 0 <= j < |t| ensures CompareKeys(t[i].key, t[j].key) != Incomparable {
      assert t[i] == s[i + 1] && t[j] == s[j + 1];
    }
    forall y | y in t ensures CompareKeys(s[0].key, y.key) != Incomparable {
      var j :| 0 <= j < |t| && t[j] == y;
      assert s[j + 1] == y;
    }
  }

  /** Stable insertion sort by key: a sorted permutation of its input. */
  function SortKeyed(s: seq<Keyed>): (r: seq<Keyed>)
    requires Comparable(s)
    ensures multiset(r) == multiset(s)
    ensures Sorted(r)
  {
    if s == [] then []
    else
      ComparableTail(s);
      var rest := SortKeyed(s[1..]);
      InsertStep(s[0], rest, s[1..]);
      assert s == [s[0]] + s[1..];
      Insert(s[0], rest)
  }

  /** Inserting the head into the sorted tail gives a sorted permutation of the whole list. */
  lemma InsertStep(x: Keyed, rest: seq<Keyed>, tail: seq<Keyed>)
    requires Sorted(rest) && multiset(rest) == multiset(tail)
    requires forall y :: y in tail ==> CompareKeys(x.key, y.key) != Incomparable
    ensures multiset(Insert(x, rest)) == multiset([x] + tail)
    ensures Sorted(Insert(x, rest))
  {
    InsertMultiset(x, rest);
    assert forall y :: y in rest ==> y in multiset(tail);
    InsertSorted(x, rest);
  }

  /** Sorting a list that is already in key order gives it back unchanged. */
  lemma {:induction false} SortKeyedSorted(s: seq<Keyed>)
    requires Sorted(s) && Comparable(s)
    ensures SortKeyed(s) == s
  {
    if s != [] {
      var t := s[1..];
      SortedTail(s);
      SortKeyedCons(s);
      SortKeyedSorted(t);
      if t != [] {
        assert Le(s[0], t[0]) by { assert t[0] in t; }
      }
      assert Insert(s[0], t) == [s[0]] + t;
      assert s == [s[0]] + t;
    }
  }

  /** One step of the sort: the head is inserted into the sorted tail. */
  lemma SortKeyedCons(s: seq<Keyed>)
    requires s != [] && Comparable(s)
    ensures Comparable(s[1..])
    ensures SortKeyed(s) == Insert(s[0], SortKeyed(s[1..]))
  {
    ComparableTail(s);
  }

  // ---------------------------------------------------------------------------
  // Decorate, sort, undecorate
  // ---------------------------------------------------------------------------

  /** Every location paired with `cfi_to_tuple` of itself. */
  function Decorate(cfis: seq<string>): seq<Keyed>
  {
    seq(|cfis|, i requires 0 <= i < |cfis| => Keyed(Key(cfis[i]), cfis[i]))
  }

  /** The locations, keys dropped. */
  function Undecorate(ks: seq<Keyed>): seq<string>
  {
    seq(|ks|, i requires 0 <= i < |ks| => ks[i].cfi)
  }

  /** Every pair carries the key of its own location. */
  predicate Decorated(ks: seq<Keyed>)
  {
    forall p :: p in ks ==> p.key == Key(p.cfi)
  }

  /** `sort_epubcfi`: `sorted(cfis, key=cfi_to_tuple)`. */
  function SortEpubcfi(cfis: seq<string>): seq<string>
    requires PairwiseComparable(cfis)
  {
    DecorateComparable(cfis);
    Undecorate(SortKeyed(Decorate(cfis)))
  }

  /** Comparable locations make comparable pairs. */
  lemma DecorateComparable(cfis: seq<string>)
    requires PairwiseComparable(cfis)
    ensures Comparable(Decorate(cfis))
  {
  }

  /** Decorating and undecorating gives the list back, and every pair is decorated. */
  lemma DecorateFacts(cfis: seq<string>)
    ensures Undecorate(Decorate(cfis)) == cfis
    ensures Decorated(Decorate(cfis))
  {
  }

  /** Undecorating one more pair in front. */
  lemma UndecorateCons(p: Keyed, ks: seq<Keyed>)
    ensures Undecorate([p] + ks) == [p.cfi] + Undecorate(ks)
  {
  }

  /** Inserting a pair adds its location to the undecorated multiset. */
  lemma {:induction false} InsertUndecorate(x: Keyed, s: seq<Keyed>)
    ensures multiset(Undecorate(Insert(x, s))) == multiset(Undecorate(s)) + multiset{x.cfi}
  {
    if s == [] {
      assert Undecorate([x]) == [x.cfi];
    } else if Le(x, s[0]) {
      UndecorateCons(x, s);
    } else {
      InsertUndecorate(x, s[1..]);
      UndecorateCons(s[0], Insert(x, s[1..]));
      UndecorateCons(s[0], s[1..]);
      assert s == [s[0]] + s[1..];
    }
  }

  /** The undecorated sort keeps the multiset of locations. */
  lemma {:induction false} SortKeyedUndecorate(s: seq<Keyed>)
    requires Comparable(s)
    ensures multiset(Undecorate(SortKeyed(s))) == multiset(Undecorate(s))
  {
    if s != [] {
      SortKeyedCons(s);
      SortKeyedUndecorate(s[1..]);
      InsertUndecorate(s[0], SortKeyed(s[1..]));
      UndecorateCons(s[0], s[1..]);
      assert s == [s[0]] + s[1..];
    }
  }

  /** Sorted decorated pairs undecorate to locations sorted by key. */
  lemma UndecorateSorted(ks: seq<Keyed>)
    requires Sorted(ks) && Decorated(ks)
    ensures SortedByKey(Undecorate(ks))
  {
    var u := Undecorate(ks);
    forall i, j | 0 <= i < j < |u| ensures KeyLe(u[i], u[j]) {
      assert Le(ks[i], ks[j]);
      assert ks[i] in ks && ks[j] in ks;
    }
  }

  /** The pairs whose key is `k`, in order. */
  function KeyedWithKey(ks: seq<Keyed>, k: seq<Tok>): seq<Keyed>
  {
    if ks == [] then []
    else (if ks[0].key == k then [ks[0]] else []) + KeyedWithKey(ks[1..], k)
  }

  /** Insertion lands before every pair of equal key. */
  lemma {:induction false} InsertWithKey(x: Keyed, s: seq<Keyed>, k: seq<Tok>)
    ensures KeyedWithKey(Insert(x, s), k) == (if x.key == k then [x] else []) + KeyedWithKey(s, k)
  {
    var xs := if x.key == k then [x] else [];
    if s == [] {
      KeyedWithKeyCons(x, [], k);
    } else if Le(x, s[0]) {
      KeyedWithKeyCons(x, s, k);
    } else {
      var y, t := s[0], s[1..];
      var ys := if y.key == k then [y] else [];
      CompareKeysEqual(x.key, y.key);
      assert xs == [] || ys == [];
      InsertWithKey(x, t, k);
      KeyedWithKeyCons(y, Insert(x, t), k);
      KeyedWithKeyCons(y, t, k);
      assert s == [y] + t;
      calc {
        KeyedWithKey(Insert(x, s), k);
        KeyedWithKey([y] + Insert(x, t), k);
        ys + KeyedWithKey(Insert(x, t), k);
        ys + (xs + KeyedWithKey(t, k));
        xs + (ys + KeyedWithKey(t, k));
        xs + KeyedWithKey(s, k);
      }
    }
  }

  /** Filtering a list with one more pair in front. */
  lemma KeyedWithKeyCons(p: Keyed, t: seq<Keyed>, k: seq<Tok>)
    ensures KeyedWithKey([p] + t, k) == (if p.key == k then [p] else []) + KeyedWithKey(t, k)
  {
    assert ([p] + t)[1..] == t;
  }

  /** The keyed sort is stable. */
  lemma {:induction false} SortKeyedStable(s: seq<Keyed>, k: seq<Tok>)
    requires Comparable(s)
    ensures KeyedWithKey(SortKeyed(s), k) == KeyedWithKey(s, k)
  {
    if s != [] {
      SortKeyedCons(s);
      SortKeyedStable(s[1..], k);
      InsertWithKey(s[0], SortKeyed(s[1..]), k);
      KeyedWithKeyCons(s[0], s[1..], k);
      assert s == [s[0]] + s[1..];
    }
  }

  /** On decorated pairs, filtering by key commutes with dropping the keys. */
  lemma {:induction false} WithKeyUndecorate(ks: seq<Keyed>, k: seq<Tok>)
    requires Decorated(ks)
    ensures WithKey(Undecorate(ks), k) == Undecorate(KeyedWithKey(ks, k))
  {
    if ks != [] {
      var p, rest := ks[0], ks[1..];
      assert ks == [p] + rest;
      assert p in ks;
      assert Decorated(rest) by {
        forall q | q in rest ensures q.key == Key(q.cfi) {
          assert q in ks;
        }
      }
      WithKeyUndecorate(rest, k);
      var head := if p.key == k then [p] else [];
      UndecorateCons(p, rest);
      WithKeyCons(p.cfi, Undecorate(rest), k);
      KeyedWithKeyCons(p, rest, k);
      UndecorateAppend(head, KeyedWithKey(rest, k));
      assert Undecorate(head) == if p.key == k then [p.cfi] else [];
    }
  }

  /** Filtering a list with one more location in front. */
  lemma WithKeyCons(c: string, t: seq<string>, k: seq<Tok>)
    ensures WithKey([c] + t, k) == (if Key(c) == k then [c] else []) + WithKey(t, k)
  {
    assert ([c] + t)[1..] == t;
  }

  /** Undecorating a concatenation. */
  lemma UndecorateAppend(a: seq<Keyed>, b: seq<Keyed>)
    ensures Undecorate(a + b) == Undecorate(a) + Undecorate(b)
  {
  }

  // ---------------------------------------------------------------------------
  // What `sort_epubcfi` promises
  // ---------------------------------------------------------------------------

  /** The sort returns a permutation of its input, ordered non-decreasingly by key. */
  lemma SortEpubcfiSorted(cfis: seq<string>)
    requires PairwiseComparable(cfis)
    ensures multiset(SortEpubcfi(cfis)) == multiset(cfis)
    ensures SortedByKey(SortEpubcfi(cfis))
  {
    var d := Decorate(cfis);
    DecorateComparable(cfis);
    DecorateFacts(cfis);
    SortKeyedUndecorate(d);
    var r := SortKeyed(d);
    forall p | p in r ensures p.key == Key(p.cfi) {
      assert p in multiset(d);
    }
    UndecorateSorted(r);
  }

  /** Stability: the locations sharing any one key keep their input order. */
  lemma SortEpubcfiStable(cfis: seq<string>, k: seq<Tok>)
    requires PairwiseComparable(cfis)
    ensures WithKey(SortEpubcfi(cfis), k) == WithKey(cfis, k)
  {
    var d := Decorate(cfis);
    DecorateComparable(cfis);
    DecorateFacts(cfis);
    var r := SortKeyed(d);
    forall p | p in r ensures p.key == Key(p.cfi) {
      assert p in multiset(d);
    }
    SortKeyedStable(d, k);
    WithKeyUndecorate(r, k);
    WithKeyUndecorate(d, k);
  }

  /** Sorting a list that is already in key order gives it back unchanged. */
  lemma SortSortedUnchanged(cfis: seq<string>)
    requires SortedByKey(cfis)
    ensures PairwiseComparable(cfis) && SortEpubcfi(cfis) == cfis
  {
    forall i, j | 0 <= i < |cfis| && 0 <= j < |cfis| ensures KeyCmp(cfis[i], cfis[j]) != Incomparable {
      if i > j {
        CompareKeysFlip(Key(cfis[j]), Key(cfis[i]));
      } else if i == j {
        CompareKeysEqual(Key(cfis[i]), Key(cfis[i]));
      }
    }
    var d := Decorate(cfis);
    DecorateComparable(cfis);
    DecorateFacts(cfis);
    assert Sorted(d) by {
      forall i, j | 0 <= i < j < |d| ensures Le(d[i], d[j]) {
        assert KeyLe(cfis[i], cfis[j]);
      }
    }
    SortKeyedSorted(d);
  }

  /** Sorting twice is sorting once. */
  lemma SortIdempotent(cfis: seq<string>)
    requires PairwiseComparable(cfis)
    ensures PairwiseComparable(SortEpubcfi(cfis)) && SortEpubcfi(SortEpubcfi(cfis)) == SortEpubcfi(cfis)
  {
    SortEpubcfiSorted(cfis);
    SortSortedUnchanged(SortEpubcfi(cfis));
  }

  /** A list whose neighbours are in key order is sorted. */
  lemma {:induction false} NeighboursSorted(s: seq<string>)
    requires forall i :: 0 <= i < |s| - 1 ==> KeyLe(s[i], s[i + 1])
    ensures SortedByKey(s)
  {
    if |s| > 1 {
      var t := s[1..];
      forall i | 0 <= i < |t| - 1 ensures KeyLe(t[i], t[i + 1]) {
        assert t[i] == s[i + 1] && t[i + 1] == s[i + 2];
      }
      NeighboursSorted(t);
      forall i, j | 0 <= i < j < |s| ensures KeyLe(s[i], s[j]) {
        if i == 0 {
          if j > 1 {
            assert KeyLe(t[0], t[j - 1]);
            KeyLeTrans(s[0], s[1], s[j]);
          }
        } else {
          assert s[i] == t[i - 1] && s[j] == t[j - 1];
        }
      }
    }
  }
}
