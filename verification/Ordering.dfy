/** Byte-wise string order, the contract of Go's sort package, and sorted listings of map keys. */
module Ordering {


  /** Go's `a <= b` on strings. */
  predicate LexLe(a: string, b: string) {
    |a| == 0 || (|b| > 0 && (a[0] < b[0] || (a[0] == b[0] && LexLe(a[1..], b[1..]))))
  }

  lemma {:induction false} LexTotal(a: string, b: string)
    ensures LexLe(a, a)
    ensures LexLe(a, b) || LexLe(b, a)
    ensures LexLe(a, b) && LexLe(b, a) ==> a == b
    decreases |a|
  {
    if |a| > 0 {
      LexTotal(a[1..], if |b| > 0 then b[1..] else "");
      if |b| > 0 {
        assert a == [a[0]] + a[1..] && b == [b[0]] + b[1..];
      }
    }
  }

  lemma {:induction false} LexTransitive(a: string, b: string, c: string)
    requires LexLe(a, b) && LexLe(b, c)
    ensures LexLe(a, c)
    decreases |a|
  {
    if |a| > 0 && a[0] == b[0] == c[0] {
      LexTransitive(a[1..], b[1..], c[1..]);
    }
  }

  /** What sort.Slice needs of its comparison: `le(a, b)` is `!less(b, a)`. */
  /** The two texts part at position `i`, where `a` has the smaller byte. */
  predicate PartsBelow(a: string, b: string, i: nat) {
    i < |a| && i < |b| && a[..i] == b[..i] && a[i] < b[i]
  }

  /** The order is that of the first difference, a prefix coming first. */
  lemma {:induction false} LexLeExactly(a: string, b: string)
    ensures LexLe(a, b) <==> a <= b || exists i :: PartsBelow(a, b, i)
    decreases |a|
  {
    if a != "" && b != "" {
      LexLeExactly(a[1..], b[1..]);
      assert a == [a[0]] + a[1..] && b == [b[0]] + b[1..];
      if a[0] < b[0] { assert PartsBelow(a, b, 0); }
      if a[0] == b[0] && exists i :: PartsBelow(a[1..], b[1..], i) {
        var i: nat :| PartsBelow(a[1..], b[1..], i);
        assert a[..i + 1] == [a[0]] + a[1..][..i] && b[..i + 1] == [b[0]] + b[1..][..i];
        assert PartsBelow(a, b, i + 1);
      }
      if i: nat :| PartsBelow(a, b, i) && i > 0 {
        assert a[..i][0] == b[..i][0] && a[..i][1..] == b[..i][1..];
        assert a[1..][..i - 1] == a[..i][1..] && b[1..][..i - 1] == b[..i][1..];
        assert PartsBelow(a[1..], b[1..], i - 1);
      }
    }
  }

  ghost predicate TotalPreorder<T(!new)>(le: (T, T) -> bool) {
    && (forall a, b :: le(a, b) || le(b, a))
    && (forall a, b, c :: le(a, b) && le(b, c) ==> le(a, c))
  }

  lemma LexIsTotalPreorder()
    ensures TotalPreorder(LexLe)
  {
    forall a, b ensures LexLe(a, b) || LexLe(b, a) { LexTotal(a, b); }
    forall a, b, c | LexLe(a, b) && LexLe(b, c) ensures LexLe(a, c) { LexTransitive(a, b, c); }
  }

  ghost predicate Sorted<T>(xs: seq<T>, le: (T, T) -> bool) {
    forall i, j :: 0 <= i < j < |xs| ==> le(xs[i], xs[j])
  }

  ghost predicate NoDuplicates<T>(xs: seq<T>) {
    forall i, j :: 0 <= i < j < |xs| ==> xs[i] != xs[j]
  }

  /** `xs` lists every element of `s` once, in order. */
  ghost predicate Lists<T(!new)>(xs: seq<T>, s: set<T>, le: (T, T) -> bool) {
    && Sorted(xs, le)
    && NoDuplicates(xs)
    && (forall x :: x in xs <==> x in s)
  }

  ghost predicate AntisymmetricOn<T>(s: set<T>, le: (T, T) -> bool) {
    forall a, b :: a in s && b in s && le(a, b) && le(b, a) ==> a == b
  }

  /** Where the order tells the elements apart, there is only one way to list them. */
  lemma {:induction false} ListingIsUnique<T(!new)>(xs: seq<T>, ys: seq<T>, s: set<T>, le: (T, T) -> bool)
    requires Lists(xs, s, le) && Lists(ys, s, le) && AntisymmetricOn(s, le)
    ensures xs == ys
    decreases |xs|
  {
    assert xs != [] ==> xs[0] in xs;
    assert ys != [] ==> ys[0] in ys;
    if xs != [] && ys != [] {
      assert xs[0] in ys && ys[0] in xs;
      var j :| 0 <= j < |ys| && ys[j] == xs[0];
      var i :| 0 <= i < |xs| && xs[i] == ys[0];
      assert xs[0] == ys[0];
      var s' := s - {xs[0]};
      assert xs == [xs[0]] + xs[1..] && ys == [ys[0]] + ys[1..];
      forall x ensures (x in xs[1..] <==> x in s') && (x in ys[1..] <==> x in s') {
        assert x in xs <==> x == xs[0] || x in xs[1..];
        assert x in ys <==> x == ys[0] || x in ys[1..];
      }
      ListingIsUnique(xs[1..], ys[1..], s', le);
    }
  }

  lemma LexListingIsUnique(xs: seq<string>, ys: seq<string>, s: set<string>)
    requires Lists(xs, s, LexLe) && Lists(ys, s, LexLe)
    ensures xs == ys
  {
    forall a, b | LexLe(a, b) && LexLe(b, a) ensures a == b { LexTotal(a, b); }
    ListingIsUnique(xs, ys, s, LexLe);
  }

  // ----- Sorting -----

  /** `x` placed before the first element it may precede. */
  function Insert<T>(x: T, xs: seq<T>, le: (T, T) -> bool): seq<T> {
    if xs == [] then [x]
    else if le(x, xs[0]) then [x] + xs
    else [xs[0]] + Insert(x, xs[1..], le)
  }

  lemma {:induction false} InsertKeeps<T(!new)>(x: T, xs: seq<T>, le: (T, T) -> bool)
    ensures multiset(Insert(x, xs, le)) == multiset{x} + multiset(xs)
    ensures forall y :: y in Insert(x, xs, le) <==> y == x || y in xs
    decreases |xs|
  {
    if xs != [] {
      assert xs == [xs[0]] + xs[1..];
      if !le(x, xs[0]) { InsertKeeps(x, xs[1..], le); }
    }
  }

  /** A sorted sequence stays sorted behind an element that may precede all of it. */
  lemma SortedAfter<T(!new)>(x: T, xs: seq<T>, le: (T, T) -> bool)
    requires TotalPreorder(le) && Sorted(xs, le) && forall y | y in xs :: le(x, y) || (xs != [] && le(x, xs[0]))
    ensures Sorted([x] + xs, le)
  {
    forall y | y in xs ensures le(x, y) {
      var i :| 0 <= i < |xs| && xs[i] == y;
      assert i > 0 ==> le(xs[0], y);
    }
  }

  lemma {:induction false} InsertSorts<T(!new)>(x: T, xs: seq<T>, le: (T, T) -> bool)
    requires TotalPreorder(le) && Sorted(xs, le)
    ensures Sorted(Insert(x, xs, le), le)
    ensures multiset(Insert(x, xs, le)) == multiset{x} + multiset(xs)
    decreases |xs|
  {
    InsertKeeps(x, xs, le);
    if xs == [] {
    } else if le(x, xs[0]) {
      SortedAfter(x, xs, le);
    } else {
      InsertSorts(x, xs[1..], le);
      InsertKeeps(x, xs[1..], le);
      SortedAfter(xs[0], Insert(x, xs[1..], le), le);
    }
  }

  lemma {:induction false} InsertedLength<T>(x: T, xs: seq<T>, le: (T, T) -> bool)
    ensures |Insert(x, xs, le)| == |xs| + 1
    decreases |xs|
  {
    if xs != [] { InsertedLength(x, xs[1..], le); }
  }

  /** The sorted form of a sequence, duplicates kept. */
  function SortedForm<T>(xs: seq<T>, le: (T, T) -> bool): (ys: seq<T>)
    ensures |ys| == |xs|
  {
    if xs == [] then [] else
      InsertedLength(xs[|xs| - 1], SortedForm(xs[..|xs| - 1], le), le);
      Insert(xs[|xs| - 1], SortedForm(xs[..|xs| - 1], le), le)
  }

  lemma {:induction false} SortedFormSorts<T(!new)>(xs: seq<T>, le: (T, T) -> bool)
    requires TotalPreorder(le)
    ensures Sorted(SortedForm(xs, le), le) && multiset(SortedForm(xs, le)) == multiset(xs)
    decreases |xs|
  {
    if xs != [] {
      var n := |xs| - 1;
      SortedFormSorts(xs[..n], le);
      InsertSorts(xs[n], SortedForm(xs[..n], le), le);
      assert xs == xs[..n] + [xs[n]];
    }
  }

  lemma SameTail<T>(xs: seq<T>, ys: seq<T>)
    requires xs != [] && ys != [] && xs[0] == ys[0] && multiset(xs) == multiset(ys)
    ensures multiset(xs[1..]) == multiset(ys[1..])
  {
    assert xs == [xs[0]] + xs[1..] && ys == [ys[0]] + ys[1..];
    assert multiset(xs[1..]) == multiset(xs) - multiset{xs[0]};
    assert multiset(ys[1..]) == multiset(ys) - multiset{ys[0]};
  }

  lemma SameHead<T(!new)>(xs: seq<T>, ys: seq<T>, le: (T, T) -> bool)
    requires xs != [] && ys != [] && Sorted(xs, le) && Sorted(ys, le) && multiset(xs) == multiset(ys)
    requires forall a, b | a in xs && b in xs && le(a, b) && le(b, a) :: a == b
    requires forall a | a in xs :: le(a, a)
    ensures xs[0] == ys[0]
  {
    assert xs[0] in multiset(ys) && ys[0] in multiset(xs);
    var j :| 0 <= j < |ys| && ys[j] == xs[0];
    var i :| 0 <= i < |xs| && xs[i] == ys[0];
    assert le(ys[0], xs[0]) && le(xs[0], ys[0]);
  }

  /** With a total order a multiset has one sorted form. */
  lemma {:induction false} SortedIsUnique<T(!new)>(xs: seq<T>, ys: seq<T>, le: (T, T) -> bool)
    requires Sorted(xs, le) && Sorted(ys, le) && multiset(xs) == multiset(ys)
    requires forall a, b | a in xs && b in xs && le(a, b) && le(b, a) :: a == b
    requires forall a | a in xs :: le(a, a)
    ensures xs == ys
    decreases |xs|
  {
    assert |multiset(xs)| == |xs| && |multiset(ys)| == |ys|;
    if xs != [] {
      SameHead(xs, ys, le);
      SameTail(xs, ys);
      assert forall a | a in xs[1..] :: a in xs;
      SortedIsUnique(xs[1..], ys[1..], le);
      assert xs == [xs[0]] + xs[1..] && ys == [ys[0]] + ys[1..];
    }
  }

  /** sort.Slice and sort.Strings: some sorted permutation of the input. */
  method SortSlice<T(!new)>(xs: seq<T>, le: (T, T) -> bool) returns (ys: seq<T>)
    requires TotalPreorder(le)
    ensures Sorted(ys, le) && multiset(ys) == multiset(xs)
  {
    ys := [];
    for i := 0 to |xs|
      invariant Sorted(ys, le) && multiset(ys) == multiset(xs[..i])
    {
      assert xs[..i + 1] == xs[..i] + [xs[i]];
      InsertSorts(xs[i], ys, le);
      ys := Insert(xs[i], ys, le);
    }
    assert xs[..|xs|] == xs;
  }

  lemma OnceEachIsDistinct<T>(xs: seq<T>)
    requires forall x | x in xs :: multiset(xs)[x] <= 1
    ensures NoDuplicates(xs)
  {
    forall i, j | 0 <= i < j < |xs| ensures xs[i] != xs[j] {
      var x, y := xs[i], xs[j];
      assert xs == xs[..i] + [x] + xs[i + 1..j] + [y] + xs[j + 1..];
      assert multiset(xs)[x] >= if x == y then 2 else 1;
    }
  }

  lemma {:induction false} AtMostOnce<T>(xs: seq<T>, x: T)
    requires NoDuplicates(xs)
    ensures multiset(xs)[x] <= 1
    decreases |xs|
  {
    if xs != [] {
      assert xs == [xs[0]] + xs[1..];
      if xs[0] == x {
        assert x !in xs[1..];
        assert x !in multiset(xs[1..]);
      } else {
        AtMostOnce(xs[1..], x);
      }
    }
  }

  lemma PermutationKeepsDistinct<T(!new)>(xs: seq<T>, ys: seq<T>)
    requires NoDuplicates(xs) && multiset(xs) == multiset(ys)
    ensures NoDuplicates(ys)
    ensures forall x :: x in xs <==> x in ys
  {
    forall x: T ensures x in xs <==> x in ys {
      assert x in multiset(xs) <==> x in multiset(ys);
    }
    forall x | x in ys ensures multiset(ys)[x] <= 1 { AtMostOnce(xs, x); }
    OnceEachIsDistinct(ys);
  }

  /** A permutation holds the head of what it permutes, and permutes the tail without it. */
  lemma FindHead<T>(xs: seq<T>, ys: seq<T>) returns (j: nat)
    requires xs != [] && multiset(xs) == multiset(ys)
    ensures j < |ys| && ys[j] == xs[0] && multiset(xs[1..]) == multiset(ys[..j] + ys[j + 1..])
  {
    assert xs == [xs[0]] + xs[1..];
    assert xs[0] in multiset(ys);
    j :| 0 <= j < |ys| && ys[j] == xs[0];
    assert ys == ys[..j] + [ys[j]] + ys[j + 1..];
    assert multiset(ys[..j] + ys[j + 1..]) == multiset(ys) - multiset{xs[0]};
  }

  lemma PutAnywhere<T>(xs: seq<T>, ys: seq<T>, j: nat)
    requires xs != [] && multiset(xs[1..]) == multiset(ys) && j <= |ys|
    ensures multiset(xs) == multiset(ys[..j] + [xs[0]] + ys[j..])
  {
    assert xs == [xs[0]] + xs[1..];
    assert ys == ys[..j] + ys[j..];
  }

  /** The keys of a map in iteration order, which Go leaves unspecified. */
  method RangeKeys<K(!new, ==), V>(m: map<K, V>) returns (keys: seq<K>)
    ensures NoDuplicates(keys)
    ensures forall k :: k in keys <==> k in m
  {
    keys := [];
    var rest := m.Keys;
    while rest != {}
      invariant rest <= m.Keys && NoDuplicates(keys)
      invariant forall k :: k in keys <==> k in m.Keys - rest
      decreases |rest|
    {
      var k :| k in rest;
      assert k !in keys;
      keys := keys + [k];
      rest := rest - {k};
    }
  }

  /** Collect the keys of a map, then sort them. */
  method SortedKeys<K(!new, ==), V>(m: map<K, V>, le: (K, K) -> bool) returns (keys: seq<K>)
    requires TotalPreorder(le)
    ensures Lists(keys, m.Keys, le)
  {
    var unsorted := RangeKeys(m);
    keys := SortSlice(unsorted, le);
    PermutationKeepsDistinct(unsorted, keys);
  }

  lemma {:induction false} SortedListingExists<T(!new)>(s: set<T>, le: (T, T) -> bool)
    requires TotalPreorder(le)
    ensures exists xs: seq<T> :: Lists(xs, s, le)
    decreases |s|
  {
    if s == {} {
      assert Lists([], s, le);
    } else {
      var x :| x in s;
      SortedListingExists(s - {x}, le);
      var xs: seq<T> :| Lists(xs, s - {x}, le);
      InsertSorts(x, xs, le);
      assert NoDuplicates([x] + xs);
      PermutationKeepsDistinct([x] + xs, Insert(x, xs, le));
      assert Lists(Insert(x, xs, le), s, le);
    }
  }

  lemma SortedStringsExist(s: set<string>)
    ensures exists xs :: Lists(xs, s, LexLe)
  {
    LexIsTotalPreorder();
    SortedListingExists(s, LexLe);
  }

  /** The sorted listing of a set of strings. */
  ghost function SortedStrings(s: set<string>): (xs: seq<string>)
    ensures Lists(xs, s, LexLe)
  {
    SortedStringsExist(s);
    var xs :| Lists(xs, s, LexLe);
    xs
  }
}
