/** Stable sorting by composite text keys: what `sort_by` guarantees, and the two
    facts the dump relies on: sorted input is left alone, and with distinct keys the
    result depends only on which rows there are. */
module Sorting {

  // -------------------------------------------------------------------- orders

  /** Text order by character, a prefix first. */
  predicate TextLeq(a: string, b: string) {
    a == [] || (b != [] && (a[0] < b[0] || (a[0] == b[0] && TextLeq(a[1..], b[1..]))))
  }

  lemma {:induction false} TextTotal(a: string, b: string)
    ensures TextLeq(a, b) || TextLeq(b, a)
  {
    if a != [] && b != [] {
      TextTotal(a[1..], b[1..]);
    }
  }

  lemma {:induction false} TextAntisymmetric(a: string, b: string)
    requires TextLeq(a, b) && TextLeq(b, a)
    ensures a == b
  {
    if a != [] {
      TextAntisymmetric(a[1..], b[1..]);
      assert a == [a[0]] + a[1..] && b == [b[0]] + b[1..];
    }
  }

  lemma {:induction false} TextTransitive(a: string, b: string, c: string)
    requires TextLeq(a, b) && TextLeq(b, c)
    ensures TextLeq(a, c)
  {
    if a != [] && a[0] == b[0] && b[0] == c[0] {
      TextTransitive(a[1..], b[1..], c[1..]);
    }
  }

  type Key = seq<string>

  /** Composite keys compare column by column. */
  predicate Leq(a: Key, b: Key) {
    a == [] || (b != [] && if a[0] == b[0] then Leq(a[1..], b[1..]) else TextLeq(a[0], b[0]))
  }

  lemma {:induction false} Total(a: Key, b: Key)
    ensures Leq(a, b) || Leq(b, a)
  {
    if a != [] && b != [] {
      TextTotal(a[0], b[0]);
      Total(a[1..], b[1..]);
    }
  }

  lemma {:induction false} Antisymmetric(a: Key, b: Key)
    requires Leq(a, b) && Leq(b, a)
    ensures a == b
  {
    if a != [] {
      if a[0] != b[0] {
        TextAntisymmetric(a[0], b[0]);
      } else {
        Antisymmetric(a[1..], b[1..]);
        assert a == [a[0]] + a[1..] && b == [b[0]] + b[1..];
      }
    }
  }

  lemma {:induction false} Transitive(a: Key, b: Key, c: Key)
    requires Leq(a, b) && Leq(b, c)
    ensures Leq(a, c)
  {
    if a != [] {
      if a[0] == b[0] && b[0] == c[0] {
        Transitive(a[1..], b[1..], c[1..]);
      } else {
        if a[0] != b[0] && b[0] != c[0] {
          TextTransitive(a[0], b[0], c[0]);
          if a[0] == c[0] {
            TextAntisymmetric(a[0], b[0]);
          }
        }
      }
    }
  }

  // ------------------------------------------------------------------- sorting

  /** Put `x`, which comes before all of `sorted` in the input, in its place. */
  function Place<T>(x: T, sorted: seq<T>, key: T -> Key): seq<T> {
    if sorted == [] then [x]
    else if Leq(key(x), key(sorted[0])) then [x] + sorted
    else [sorted[0]] + Place(x, sorted[1..], key)
  }

  function Sort<T>(s: seq<T>, key: T -> Key): seq<T> {
    if s == [] then [] else Place(s[0], Sort(s[1..], key), key)
  }

  ghost predicate Sorted<T>(s: seq<T>, key: T -> Key) {
    forall i, j :: 0 <= i < j < |s| ==> Leq(key(s[i]), key(s[j]))
  }

  lemma {:induction false} PlacePermutes<T>(x: T, sorted: seq<T>, key: T -> Key)
    ensures multiset(Place(x, sorted, key)) == multiset{x} + multiset(sorted)
  {
    if sorted != [] {
      assert sorted == [sorted[0]] + sorted[1..];
      PlacePermutes(x, sorted[1..], key);
    }
  }

  lemma {:induction false} PlaceSorts<T>(x: T, sorted: seq<T>, key: T -> Key)
    requires Sorted(sorted, key)
    ensures Sorted(Place(x, sorted, key), key)
  {
    if sorted != [] {
      if Leq(key(x), key(sorted[0])) {
        forall j | 0 <= j < |sorted| ensures Leq(key(x), key(sorted[j])) {
          if j > 0 {
            Transitive(key(x), key(sorted[0]), key(sorted[j]));
          }
        }
      } else {
        Total(key(x), key(sorted[0]));
        PlaceSorts(x, sorted[1..], key);
        var rest := Place(x, sorted[1..], key);
        PlacePermutes(x, sorted[1..], key);
        forall j | 0 <= j < |rest| ensures Leq(key(sorted[0]), key(rest[j])) {
          assert rest[j] in multiset(rest);
          if rest[j] != x {
            assert rest[j] in multiset(sorted[1..]);
            var k :| 0 <= k < |sorted[1..]| && sorted[1..][k] == rest[j];
          }
        }
      }
    }
  }

  /** Sorting orders and keeps the rows. */
  lemma {:induction false} SortSorts<T>(s: seq<T>, key: T -> Key)
    ensures Sorted(Sort(s, key), key)
    ensures multiset(Sort(s, key)) == multiset(s)
  {
    if s != [] {
      SortSorts(s[1..], key);
      PlaceSorts(s[0], Sort(s[1..], key), key);
      PlacePermutes(s[0], Sort(s[1..], key), key);
      assert s == [s[0]] + s[1..];
    }
  }

  lemma SortMembers<T>(s: seq<T>, key: T -> Key, x: T)
    ensures x in Sort(s, key) <==> x in s
  {
    SortSorts(s, key);
    assert x in multiset(s) <==> x in multiset(Sort(s, key));
  }

  /** Already sorted input comes out unchanged, ties included. */
  lemma {:induction false} SortOfSorted<T>(s: seq<T>, key: T -> Key)
    requires Sorted(s, key)
    ensures Sort(s, key) == s
  {
    if s != [] {
      SortOfSorted(s[1..], key);
      assert s == [s[0]] + s[1..];
    }
  }

  /** The rows with one key, in order. */
  function WithKey<T>(s: seq<T>, key: T -> Key, k: Key): seq<T> {
    if s == [] then []
    else if key(s[0]) == k then [s[0]] + WithKey(s[1..], key, k)
    else WithKey(s[1..], key, k)
  }

  lemma WithKeyCons<T>(x: T, s: seq<T>, key: T -> Key, k: Key)
    ensures WithKey([x] + s, key, k) == if key(x) == k then [x] + WithKey(s, key, k) else WithKey(s, key, k)
  {
    assert ([x] + s)[1..] == s;
  }

  lemma {:induction false} PlaceStable<T>(x: T, sorted: seq<T>, key: T -> Key, k: Key)
    ensures WithKey(Place(x, sorted, key), key, k) == WithKey([x] + sorted, key, k)
  {
    if sorted != [] && !Leq(key(x), key(sorted[0])) {
      var y, rest := sorted[0], sorted[1..];
      PlaceStable(x, rest, key, k);
      WithKeyCons(y, Place(x, rest, key), key, k);
      WithKeyCons(x, rest, key, k);
      WithKeyCons(x, sorted, key, k);
      LeqReflexive(key(x));
      assert key(y) != key(x);
    }
  }

  lemma {:induction false} LeqReflexive(a: Key)
    ensures Leq(a, a)
  {
    if a != [] {
      LeqReflexive(a[1..]);
    }
  }

  /** Rows with equal keys keep their relative order. */
  lemma {:induction false} SortStable<T>(s: seq<T>, key: T -> Key, k: Key)
    ensures WithKey(Sort(s, key), key, k) == WithKey(s, key, k)
  {
    if s != [] {
      SortStable(s[1..], key, k);
      PlaceStable(s[0], Sort(s[1..], key), key, k);
      WithKeyCons(s[0], Sort(s[1..], key), key, k);
    }
  }

  ghost predicate DistinctKeys<T>(s: seq<T>, key: T -> Key) {
    forall i, j :: 0 <= i < j < |s| ==> key(s[i]) != key(s[j])
  }

  /** A key identifies the row among the members of `s`. */
  ghost predicate Identifies<T>(s: seq<T>, key: T -> Key) {
    forall x, y :: x in s && y in s && key(x) == key(y) ==> x == y
  }

  lemma DistinctIdentifies<T>(s: seq<T>, key: T -> Key)
    requires DistinctKeys(s, key)
    ensures Identifies(s, key)
  {
  }

  lemma SameMember<T>(a: seq<T>, b: seq<T>, x: T)
    requires multiset(a) == multiset(b) && x in a
    ensures x in b
  {
    assert x in multiset(a);
  }

  lemma MembersIdentified<T>(a: seq<T>, b: seq<T>, key: T -> Key)
    requires multiset(a) == multiset(b) && Identifies(a, key)
    ensures Identifies(b, key)
  {
    forall x, y | x in b && y in b && key(x) == key(y) ensures x == y {
      SameMember(b, a, x);
      SameMember(b, a, y);
    }
  }

  lemma SameTails<T>(a: seq<T>, b: seq<T>)
    requires a != [] && b != [] && a[0] == b[0] && multiset(a) == multiset(b)
    ensures multiset(a[1..]) == multiset(b[1..])
  {
    assert a == [a[0]] + a[1..] && b == [b[0]] + b[1..];
    assert multiset(a[1..]) == multiset(a) - multiset{a[0]};
    assert multiset(b[1..]) == multiset(b) - multiset{b[0]};
  }

  lemma SameHeads<T>(a: seq<T>, b: seq<T>, key: T -> Key)
    requires Sorted(a, key) && Sorted(b, key) && multiset(a) == multiset(b) && a != [] && b != []
    requires Identifies(a, key)
    ensures a[0] == b[0]
  {
    SameMember(b, a, b[0]);
    SameMember(a, b, a[0]);
    HeadIsLeast(a, key, b[0]);
    HeadIsLeast(b, key, a[0]);
    Antisymmetric(key(a[0]), key(b[0]));
  }

  lemma {:induction false} SortedUnique<T>(a: seq<T>, b: seq<T>, key: T -> Key)
    requires Sorted(a, key) && Sorted(b, key) && multiset(a) == multiset(b)
    requires Identifies(a, key)
    ensures a == b
  {
    assert |a| == |multiset(a)| == |multiset(b)| == |b|;
    if a != [] {
      SameHeads(a, b, key);
      SameTails(a, b);
      SortedUnique(a[1..], b[1..], key);
      assert a == [a[0]] + a[1..] && b == [b[0]] + b[1..];
    }
  }

  lemma HeadIsLeast<T>(s: seq<T>, key: T -> Key, x: T)
    requires Sorted(s, key) && x in s
    ensures Leq(key(s[0]), key(x))
  {
    var k :| 0 <= k < |s| && s[k] == x;
    if k == 0 {
      LeqReflexive(key(x));
    }
  }

  /** With distinct keys the sorted sequence depends only on the rows, not on the
      order they were stored in. */
  lemma SortIgnoresOrder<T>(a: seq<T>, b: seq<T>, key: T -> Key)
    requires multiset(a) == multiset(b) && DistinctKeys(a, key)
    ensures Sort(a, key) == Sort(b, key)
  {
    SortSorts(a, key);
    SortSorts(b, key);
    DistinctIdentifies(a, key);
    MembersIdentified(a, Sort(a, key), key);
    SortedUnique(Sort(a, key), Sort(b, key), key);
  }
}
