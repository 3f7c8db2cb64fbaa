/** Sorting by a string key, as `slices.SortFunc` and `sort.Slice` are used throughout the source. */
module Sorting {
  import opened Text

  predicate LessEqual(a: string, b: string) {
    a == b || Less(a, b)
  }

  ghost predicate SortedBy<T(!new)>(key: T -> string, s: seq<T>) {
    forall i, j :: 0 <= i < j < |s| ==> LessEqual(key(s[i]), key(s[j]))
  }

  /** Elements with equal keys are equal: then the order of a sort is fully determined. */
  ghost predicate KeyDetermines<T(!new)>(key: T -> string, s: seq<T>) {
    forall x, y :: x in s && y in s && key(x) == key(y) ==> x == y
  }

  lemma LessEqualTransitive(a: string, b: string, c: string)
    requires LessEqual(a, b) && LessEqual(b, c)
    ensures LessEqual(a, c)
  {
    if Less(a, b) && Less(b, c) {
      LessTransitive(a, b, c);
    }
  }

  function Insert<T(!new)>(key: T -> string, x: T, s: seq<T>): (r: seq<T>)
  {
    if s == [] || LessEqual(key(x), key(s[0])) then [x] + s else [s[0]] + Insert(key, x, s[1..])
  }

  function Sort<T(!new)>(key: T -> string, s: seq<T>): (r: seq<T>) {
    if s == [] then [] else Insert(key, s[0], Sort(key, s[1..]))
  }

  lemma SortedCons<T(!new)>(key: T -> string, x: T, s: seq<T>)
    requires SortedBy(key, s)
    requires forall y :: y in s ==> LessEqual(key(x), key(y))
    ensures SortedBy(key, [x] + s)
  {
    var r := [x] + s;
    forall i, j | 0 <= i < j < |r|
      ensures LessEqual(key(r[i]), key(r[j]))
    {
      assert r[j] == s[j - 1];
      if i > 0 {
        assert r[i] == s[i - 1];
      }
    }
  }

  lemma InsertBag<T(!new)>(key: T -> string, x: T, s: seq<T>)
    ensures multiset(Insert(key, x, s)) == multiset(s) + multiset{x}
  {
    if s != [] {
      assert s == [s[0]] + s[1..];
    }
  }

  lemma SortedTail<T(!new)>(key: T -> string, s: seq<T>)
    requires s != [] && SortedBy(key, s)
    ensures SortedBy(key, s[1..])
    ensures forall y :: y in s[1..] ==> LessEqual(key(s[0]), key(y))
  {
  }

  lemma {:induction false} InsertIsSorted<T(!new)>(key: T -> string, x: T, s: seq<T>)
    requires SortedBy(key, s)
    ensures multiset(Insert(key, x, s)) == multiset(s) + multiset{x}
    ensures SortedBy(key, Insert(key, x, s))
  {
    InsertBag(key, x, s);
    if s == [] {
    } else if LessEqual(key(x), key(s[0])) {
      SortedTail(key, s);
      forall y | y in s
        ensures LessEqual(key(x), key(y))
      {
        if y != s[0] {
          LessEqualTransitive(key(x), key(s[0]), key(y));
        }
      }
      SortedCons(key, x, s);
    } else {
      LessTotal(key(x), key(s[0]));
      SortedTail(key, s);
      InsertIsSorted(key, x, s[1..]);
      var rest := Insert(key, x, s[1..]);
      forall y | y in rest
        ensures LessEqual(key(s[0]), key(y))
      {
        assert y in multiset(rest);
        assert y in s[1..] || y == x;
      }
      SortedCons(key, s[0], rest);
    }
  }

  lemma {:induction false} SortIsSorted<T(!new)>(key: T -> string, s: seq<T>)
    ensures multiset(Sort(key, s)) == multiset(s)
    ensures SortedBy(key, Sort(key, s))
  {
    if s != [] {
      SortIsSorted(key, s[1..]);
      InsertIsSorted(key, s[0], Sort(key, s[1..]));
      assert s == [s[0]] + s[1..];
    }
  }

  lemma MultisetMembers<T>(a: seq<T>, b: seq<T>)
    requires multiset(a) == multiset(b)
    ensures forall x :: x in a <==> x in b
    ensures |a| == |b|
  {
    assert forall x :: x in a <==> x in multiset(a);
    assert forall x :: x in b <==> x in multiset(b);
    assert |multiset(a)| == |a| && |multiset(b)| == |b|;
  }

  lemma LessEqualAntisymmetric(a: string, b: string)
    requires LessEqual(a, b) && LessEqual(b, a)
    ensures a == b
  {
    if Less(a, b) && Less(b, a) {
      LessTransitive(a, b, a);
      LessIrreflexive(a);
    }
  }

  lemma FirstIsLeast<T(!new)>(key: T -> string, s: seq<T>, x: T)
    requires SortedBy(key, s) && x in s
    ensures LessEqual(key(s[0]), key(x))
  {
    var i :| 0 <= i < |s| && s[i] == x;
  }

  lemma TailBag<T>(s: seq<T>)
    requires s != []
    ensures multiset(s[1..]) == multiset(s) - multiset{s[0]}
  {
    assert s == [s[0]] + s[1..];
  }

  /** However an unstable sort orders its input, the result is the same sequence. */
  lemma {:induction false} SortedUnique<T(!new)>(key: T -> string, a: seq<T>, b: seq<T>)
    requires multiset(a) == multiset(b)
    requires SortedBy(key, a) && SortedBy(key, b)
    requires KeyDetermines(key, a)
    ensures a == b
  {
    MultisetMembers(a, b);
    if a != [] {
      assert a[0] in b && b[0] in a;
      FirstIsLeast(key, b, a[0]);
      FirstIsLeast(key, a, b[0]);
      LessEqualAntisymmetric(key(a[0]), key(b[0]));
      assert a[0] == b[0];
      TailBag(a);
      TailBag(b);
      SortedTail(key, a);
      SortedTail(key, b);
      SortedUnique(key, a[1..], b[1..]);
      assert a == [a[0]] + a[1..] && b == [b[0]] + b[1..];
    }
  }

  /** A library sort: all a caller may rely on is a sorted permutation. */
  method SortFunc<T(!new)>(key: T -> string, s: seq<T>) returns (r: seq<T>)
    ensures multiset(r) == multiset(s)
    ensures SortedBy(key, r)
  {
    r := [];
    for i := 0 to |s|
      invariant multiset(r) == multiset(s[..i])
      invariant SortedBy(key, r)
    {
      assert s[..i + 1] == s[..i] + [s[i]];
      InsertIsSorted(key, s[i], r);
      r := Insert(key, s[i], r);
    }
    assert s[..|s|] == s;
  }

  /** Some enumeration of a finite set, as Go's map iteration yields one. */
  ghost predicate Enumerates<T(!new)>(s: seq<T>, xs: set<T>) {
    && (forall x :: x in s <==> x in xs)
    && (forall i, j :: 0 <= i < j < |s| ==> s[i] != s[j])
  }

  lemma CountAtLeastTwo<T>(s: seq<T>, i: nat, j: nat)
    requires i < j < |s| && s[i] == s[j]
    ensures multiset(s)[s[i]] >= 2
  {
    assert s == s[..j] + s[j..];
    assert s[..j][i] == s[i] && s[j..][0] == s[i];
    assert s[i] in s[..j] && s[i] in s[j..];
  }

  lemma DistinctFromBag<T>(s: seq<T>, xs: set<T>)
    requires multiset(s) == multiset(xs)
    ensures forall i, j :: 0 <= i < j < |s| ==> s[i] != s[j]
  {
    forall i, j | 0 <= i < j < |s|
      ensures s[i] != s[j]
    {
      if s[i] == s[j] {
        CountAtLeastTwo(s, i, j);
      }
    }
  }

  lemma EnumerationGrows<T(!new)>(s: seq<T>, xs: set<T>, x: T)
    requires Enumerates(s, xs) && x !in xs
    ensures Enumerates(s + [x], xs + {x})
  {
  }

  lemma {:induction false} EnumerationBag<T(!new)>(s: seq<T>, xs: set<T>)
    requires Enumerates(s, xs)
    ensures multiset(s) == multiset(xs) && |s| == |xs|
  {
    if s == [] {
      assert xs == {};
    } else {
      var n := |s| - 1;
      var xs' := xs - {s[n]};
      forall x
        ensures x in s[..n] <==> x in xs'
      {
        if x in xs' {
          var i :| 0 <= i < |s| && s[i] == x;
          assert s[..n][i] == x;
        }
      }
      EnumerationBag(s[..n], xs');
      assert s == s[..n] + [s[n]];
    }
  }

  /** Some order of a finite set, as ranging over a Go map yields its keys. */
  method AnyOrder<T(!new)>(xs: set<T>) returns (order: seq<T>)
    ensures Enumerates(order, xs)
  {
    order := [];
    var todo := xs;
    ghost var seen: set<T> := {};
    while todo != {}
      invariant seen + todo == xs && seen !! todo && Enumerates(order, seen)
      decreases todo
    {
      var x :| x in todo;
      EnumerationGrows(order, seen, x);
      order, todo, seen := order + [x], todo - {x}, seen + {x};
    }
  }

  ghost function Enumeration<T(!new)>(xs: set<T>): (s: seq<T>)
    ensures Enumerates(s, xs)
  {
    if xs == {} then [] else
      var x :| x in xs;
      Enumeration(xs - {x}) + [x]
  }

  /** The keys of a map in sorted order. */
  ghost function SortedKeys<T(!new)>(key: T -> string, xs: set<T>): seq<T> {
    Sort(key, Enumeration(xs))
  }

  /** Sorting any enumeration of a set whose keys are distinct gives `SortedKeys`. */
  lemma SortedKeysUnique<T(!new)>(key: T -> string, xs: set<T>, order: seq<T>, r: seq<T>)
    requires Enumerates(order, xs)
    requires multiset(r) == multiset(order) && SortedBy(key, r)
    requires forall x, y :: x in xs && y in xs && key(x) == key(y) ==> x == y
    ensures r == SortedKeys(key, xs)
  {
    EnumerationBag(order, xs);
    EnumerationBag(Enumeration(xs), xs);
    SortIsSorted(key, Enumeration(xs));
    MultisetMembers(r, order);
    SortedUnique(key, r, SortedKeys(key, xs));
  }

  lemma SortedKeysEnumerates<T(!new)>(key: T -> string, xs: set<T>)
    ensures forall x :: x in SortedKeys(key, xs) <==> x in xs
    ensures multiset(SortedKeys(key, xs)) == multiset(xs)
  {
    EnumerationBag(Enumeration(xs), xs);
    SortIsSorted(key, Enumeration(xs));
    MultisetMembers(SortedKeys(key, xs), Enumeration(xs));
  }

  /** The sum of a bag per element. */
  function BagSum<K, T>(f: K -> multiset<T>, order: seq<K>): multiset<T> {
    if order == [] then multiset{} else BagSum(f, order[..|order| - 1]) + f(order[|order| - 1])
  }

  lemma {:induction false} BagSumSplits<K, T>(f: K -> multiset<T>, order: seq<K>, i: nat)
    requires i < |order|
    ensures BagSum(f, order) == BagSum(f, order[..i] + order[i + 1..]) + f(order[i])
  {
    var n := |order| - 1;
    var rest := order[..i] + order[i + 1..];
    if i == n {
      assert rest == order[..n];
    } else {
      assert order[..n][..i] + order[..n][i + 1..] == order[..i] + order[i + 1..n] == rest[..n - 1];
      BagSumSplits(f, order[..n], i);
      assert rest[n - 1] == order[n];
    }
  }

  lemma DropIndexBag<T>(s: seq<T>, i: nat)
    requires i < |s|
    ensures multiset(s) == multiset(s[..i] + s[i + 1..]) + multiset{s[i]}
  {
    assert s == s[..i] + [s[i]] + s[i + 1..];
  }

  lemma InitBag<T>(s: seq<T>)
    requires s != []
    ensures multiset(s[..|s| - 1]) == multiset(s) - multiset{s[|s| - 1]}
  {
    assert s == s[..|s| - 1] + [s[|s| - 1]];
  }

  lemma {:induction false} BagSumOrderFree<K, T>(f: K -> multiset<T>, a: seq<K>, b: seq<K>)
    requires multiset(a) == multiset(b)
    ensures BagSum(f, a) == BagSum(f, b)
  {
    MultisetMembers(a, b);
    if a != [] {
      var n := |a| - 1;
      assert a[n] in b;
      var i :| 0 <= i < |b| && b[i] == a[n];
      InitBag(a);
      DropIndexBag(b, i);
      BagSumOrderFree(f, a[..n], b[..i] + b[i + 1..]);
      BagSumSplits(f, b, i);
    }
  }
}
