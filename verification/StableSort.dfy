/** Stable ascending sorting by a raw-byte key, as Python's `sorted(..., key=...)`. */
module StableSort {
  import opened Bytes

  function InsertBy<T>(x: T, xs: seq<T>, key: T -> bytes): seq<T> {
    if xs == [] || !Below(key(xs[0]), key(x)) then [x] + xs else [xs[0]] + InsertBy(x, xs[1..], key)
  }

  function SortBy<T>(xs: seq<T>, key: T -> bytes): seq<T> {
    if xs == [] then [] else InsertBy(xs[0], SortBy(xs[1..], key), key)
  }

  predicate Ascending<T>(xs: seq<T>, key: T -> bytes) {
    |xs| > 1 ==> !Below(key(xs[1]), key(xs[0])) && Ascending(xs[1..], key)
  }

  /** The elements whose key is `k`, in the order they stand. */
  function Group<T>(xs: seq<T>, key: T -> bytes, k: bytes): seq<T> {
    if xs == [] then []
    else if key(xs[0]) == k then [xs[0]] + Group(xs[1..], key, k)
    else Group(xs[1..], key, k)
  }

  lemma {:induction false} InsertMembers<T>(x: T, xs: seq<T>, key: T -> bytes)
    ensures forall y :: y in InsertBy(x, xs, key) <==> y == x || y in xs
    ensures |InsertBy(x, xs, key)| == |xs| + 1
  {
    if xs != [] && Below(key(xs[0]), key(x)) {
      InsertMembers(x, xs[1..], key);
      assert xs == [xs[0]] + xs[1..];
    }
  }

  lemma {:induction false} SortMembers<T>(xs: seq<T>, key: T -> bytes)
    ensures forall y :: y in SortBy(xs, key) <==> y in xs
    ensures |SortBy(xs, key)| == |xs|
  {
    if xs != [] {
      SortMembers(xs[1..], key);
      InsertMembers(xs[0], SortBy(xs[1..], key), key);
      assert xs == [xs[0]] + xs[1..];
    }
  }

  lemma {:induction false} InsertAscending<T>(x: T, xs: seq<T>, key: T -> bytes)
    requires Ascending(xs, key)
    ensures Ascending(InsertBy(x, xs, key), key)
  {
    if xs != [] && Below(key(xs[0]), key(x)) {
      InsertAscending(x, xs[1..], key);
      BelowTrichotomy(key(xs[0]), key(x));
      var r := InsertBy(x, xs[1..], key);
      assert ([xs[0]] + r)[1..] == r;
    } else {
      assert ([x] + xs)[1..] == xs;
    }
  }

  lemma {:induction false} SortAscending<T>(xs: seq<T>, key: T -> bytes)
    ensures Ascending(SortBy(xs, key), key)
  {
    if xs != [] {
      SortAscending(xs[1..], key);
      InsertAscending(xs[0], SortBy(xs[1..], key), key);
    }
  }

  lemma {:induction false} InsertGroup<T>(x: T, xs: seq<T>, key: T -> bytes, k: bytes)
    ensures Group(InsertBy(x, xs, key), key, k) == Group([x] + xs, key, k)
  {
    assert ([x] + xs)[1..] == xs;
    if xs != [] && Below(key(xs[0]), key(x)) {
      BelowTrichotomy(key(xs[0]), key(x));
      InsertGroup(x, xs[1..], key, k);
      assert ([x] + xs[1..])[1..] == xs[1..];
      var r := InsertBy(x, xs[1..], key);
      assert ([xs[0]] + r)[1..] == r;
    }
  }

  /** Stability: among equal keys the order is kept, and nothing is lost or added. */
  lemma {:induction false} SortGroup<T>(xs: seq<T>, key: T -> bytes, k: bytes)
    ensures Group(SortBy(xs, key), key, k) == Group(xs, key, k)
  {
    if xs != [] {
      SortGroup(xs[1..], key, k);
      var r := SortBy(xs[1..], key);
      InsertGroup(xs[0], r, key, k);
      assert ([xs[0]] + r)[1..] == r;
    }
  }

  lemma {:induction false} LeastFirst<T>(xs: seq<T>, key: T -> bytes, x: T)
    requires Ascending(xs, key) && x in xs
    ensures !Below(key(x), key(xs[0]))
  {
    BelowTrichotomy(key(x), key(x));
    if x != xs[0] {
      LeastFirst(xs[1..], key, x);
      BelowTrichotomy(key(xs[1]), key(xs[0]));
      BelowTrichotomy(key(x), key(xs[1]));
      if Below(key(x), key(xs[0])) && key(xs[0]) != key(xs[1]) {
        BelowTransitive(key(x), key(xs[0]), key(xs[1]));
      }
    }
  }

  lemma {:induction false} GroupMembers<T>(xs: seq<T>, key: T -> bytes, k: bytes)
    ensures forall x :: x in Group(xs, key, k) <==> x in xs && key(x) == k
  {
    if xs != [] {
      GroupMembers(xs[1..], key, k);
      assert xs == [xs[0]] + xs[1..];
    }
  }

  /** Any ascending arrangement with the same groups is this one, so no other stable sort
      could give a different answer. */
  lemma {:induction false} SortUnique<T>(xs: seq<T>, ys: seq<T>, key: T -> bytes)
    requires Ascending(xs, key) && Ascending(ys, key)
    requires forall k :: Group(xs, key, k) == Group(ys, key, k)
    ensures xs == ys
  {
    if ys != [] {
      GroupMembers(xs, key, key(ys[0]));
      GroupMembers(ys, key, key(ys[0]));
    }
    if xs != [] {
      GroupMembers(xs, key, key(xs[0]));
      GroupMembers(ys, key, key(xs[0]));
      assert Group(ys, key, key(xs[0])) == Group(xs, key, key(xs[0]));
      assert Group(ys, key, key(ys[0])) == Group(xs, key, key(ys[0]));
      var x :| x in ys && key(x) == key(xs[0]);
      var y :| y in xs && key(y) == key(ys[0]);
      LeastFirst(ys, key, x);
      LeastFirst(xs, key, y);
      BelowTrichotomy(key(xs[0]), key(ys[0]));
      assert Group(xs, key, key(xs[0]))[0] == xs[0] && Group(ys, key, key(xs[0]))[0] == ys[0];
      forall k ensures Group(xs[1..], key, k) == Group(ys[1..], key, k) {
        if k == key(xs[0]) {
          assert Group(xs, key, k)[1..] == Group(xs[1..], key, k);
          assert Group(ys, key, k)[1..] == Group(ys[1..], key, k);
        } else {
          assert Group(xs, key, k) == Group(ys, key, k);
        }
      }
      SortUnique(xs[1..], ys[1..], key);
      assert xs == [xs[0]] + xs[1..] && ys == [ys[0]] + ys[1..];
    }
  }

  lemma {:induction false} AscendingPair<T>(xs: seq<T>, key: T -> bytes, i: nat, j: nat)
    requires Ascending(xs, key) && i < j < |xs|
    ensures !Below(key(xs[j]), key(xs[i]))
  {
    if i > 0 {
      AscendingPair(xs[1..], key, i - 1, j - 1);
    } else {
      LeastFirst(xs, key, xs[j]);
    }
  }

  /** Any two sorted elements have the same key, or the keys stand in raw-byte order. */
  lemma SortOrders<T>(xs: seq<T>, key: T -> bytes, i: nat, j: nat)
    requires i < j < |SortBy(xs, key)|
    ensures var a, b := key(SortBy(xs, key)[i]), key(SortBy(xs, key)[j]); a == b || Precedes(a, b)
  {
    var ys := SortBy(xs, key);
    SortAscending(xs, key);
    AscendingPair(ys, key, i, j);
    BelowTrichotomy(key(ys[i]), key(ys[j]));
    BelowIff(key(ys[i]), key(ys[j]));
  }
}
