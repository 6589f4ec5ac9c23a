/** A stable sort by a real-valued key, largest key first: the value semantics of
    `array.sort((a, b) => key(b) - key(a))`, which the JavaScript standard requires
    to be stable. An ascending sort by `d` is this sort by the key `-d`. */
module Sorting {

  /** Non-increasing by key. */
  ghost predicate SortedDescending<T>(s: seq<T>, key: T -> real)
  {
    forall i, j :: 0 <= i < j < |s| ==> key(s[i]) >= key(s[j])
  }

  /** The elements whose key is exactly `k`, in their order in `s`. */
  function WithKey<T>(s: seq<T>, key: T -> real, k: real): seq<T>
  {
    if s == [] then []
    else (if key(s[0]) == k then [s[0]] else []) + WithKey(s[1..], key, k)
  }

  /** Inserts `x` in front of the first element whose key is not larger than its own. */
  function Insert<T>(x: T, s: seq<T>, key: T -> real): (r: seq<T>)
    ensures |r| == |s| + 1
  {
    if s == [] || key(x) >= key(s[0]) then [x] + s else [s[0]] + Insert(x, s[1..], key)
  }

  /** Insertion adds exactly `x`, puts `x` or the old head first, and keeps a sorted
      sequence sorted. */
  lemma {:induction false} InsertSorts<T>(x: T, s: seq<T>, key: T -> real)
    ensures multiset(Insert(x, s, key)) == multiset(s) + multiset{x}
    ensures Insert(x, s, key)[0] == x || (s != [] && Insert(x, s, key)[0] == s[0])
    ensures SortedDescending(s, key) ==> SortedDescending(Insert(x, s, key), key)
  {
    if s == [] || key(x) >= key(s[0]) {
      ConsSorted(x, s, key);
    } else {
      assert s == [s[0]] + s[1..];
      var rest := Insert(x, s[1..], key);
      InsertSorts(x, s[1..], key);
      if SortedDescending(s, key) {
        assert SortedDescending(s[1..], key);
        ConsSorted(s[0], rest, key);
      }
    }
  }

  /** Putting an element with a key at least the head's in front keeps a sequence sorted. */
  lemma ConsSorted<T>(a: T, t: seq<T>, key: T -> real)
    requires t == [] || key(a) >= key(t[0])
    ensures SortedDescending(t, key) ==> SortedDescending([a] + t, key)
  {
    if SortedDescending(t, key) {
      forall i, j | 0 <= i < j < |[a] + t|
        ensures key(([a] + t)[i]) >= key(([a] + t)[j])
      {
        if i == 0 && j > 1 { assert key(t[0]) >= key(t[j - 1]); }
      }
    }
  }

  /** Inserting `x` places it before every element of its own key that was already there. */
  lemma {:induction false} InsertWithKey<T>(x: T, s: seq<T>, key: T -> real, k: real)
    ensures WithKey(Insert(x, s, key), key, k) == (if key(x) == k then [x] else []) + WithKey(s, key, k)
  {
    if s == [] || key(x) >= key(s[0]) {
      assert ([x] + s)[1..] == s;
    } else {
      var r := Insert(x, s, key);
      assert r[0] == s[0] && r[1..] == Insert(x, s[1..], key);
      InsertWithKey(x, s[1..], key, k);
      assert WithKey(s, key, k) == (if key(s[0]) == k then [s[0]] else []) + WithKey(s[1..], key, k);
    }
  }

  /** Insertion sort, inserting from the back of the input. */
  function SortDescending<T>(s: seq<T>, key: T -> real): (r: seq<T>)
    ensures |r| == |s|
  {
    if s == [] then [] else Insert(s[0], SortDescending(s[1..], key), key)
  }

  /** The sort's output is non-increasing by key and a permutation of its input. */
  lemma {:induction false} SortDescendingSorts<T>(s: seq<T>, key: T -> real)
    ensures multiset(SortDescending(s, key)) == multiset(s)
    ensures SortedDescending(SortDescending(s, key), key)
  {
    if s != [] {
      SortDescendingSorts(s[1..], key);
      InsertSorts(s[0], SortDescending(s[1..], key), key);
      assert s == [s[0]] + s[1..];
    }
  }

  /** The sort is stable: the elements of each key keep their input order. */
  lemma {:induction false} SortStable<T>(s: seq<T>, key: T -> real, k: real)
    ensures WithKey(SortDescending(s, key), key, k) == WithKey(s, key, k)
  {
    if s != [] {
      SortStable(s[1..], key, k);
      InsertWithKey(s[0], SortDescending(s[1..], key), key, k);
    }
  }

  /** A sequence already in order comes back unchanged. */
  lemma {:induction false} SortOfSorted<T>(s: seq<T>, key: T -> real)
    requires SortedDescending(s, key)
    ensures SortDescending(s, key) == s
  {
    if s != [] {
      assert SortedDescending(s[1..], key);
      SortOfSorted(s[1..], key);
      assert s == [s[0]] + s[1..];
    }
  }

  /** Every element of the input is found in the sorted output. */
  lemma SortedContains<T>(s: seq<T>, key: T -> real, i: nat)
    requires i < |s|
    ensures s[i] in SortDescending(s, key)
  {
    SortDescendingSorts(s, key);
    assert s[i] in multiset(s);
  }
}
