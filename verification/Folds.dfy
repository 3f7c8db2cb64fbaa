/** Folds over sequences that the loops of the source compute. */
module Folds {

  function CountIf<T>(p: T -> bool, s: seq<T>): nat {
    if s == [] then 0
    else CountIf(p, s[..|s| - 1]) + (if p(s[|s| - 1]) then 1 else 0)
  }

  function Map<T, U>(f: T -> U, s: seq<T>): seq<U> {
    if s == [] then [] else Map(f, s[..|s| - 1]) + [f(s[|s| - 1])]
  }

  /** The first non-empty text, or the empty one. */
  function FirstText<T>(f: T -> string, s: seq<T>): string {
    if s == [] then ""
    else
      var before := FirstText(f, s[..|s| - 1]);
      if before != "" then before else f(s[|s| - 1])
  }

  function Filter<T>(p: T -> bool, s: seq<T>): seq<T> {
    if s == [] then []
    else Filter(p, s[..|s| - 1]) + (if p(s[|s| - 1]) then [s[|s| - 1]] else [])
  }

  function Tabulate<T>(f: nat -> T, n: nat): seq<T> {
    if n == 0 then [] else Tabulate(f, n - 1) + [f(n - 1)]
  }

  lemma {:induction false} TabulateAt<T>(f: nat -> T, n: nat)
    ensures |Tabulate(f, n)| == n && forall i: nat :: i < n ==> Tabulate(f, n)[i] == f(i)
  {
    if n > 0 {
      TabulateAt(f, n - 1);
    }
  }

  /** The elements that satisfy `p`. */
  function Where<T>(p: T -> bool, s: seq<T>): set<T> {
    set x | x in s && p(x)
  }

  lemma {:induction false} CountIfIsSize<T>(p: T -> bool, s: seq<T>)
    requires forall i, j :: 0 <= i < j < |s| ==> s[i] != s[j]
    ensures CountIf(p, s) == |Where(p, s)|
  {
    if s != [] {
      var n := |s| - 1;
      CountIfIsSize(p, s[..n]);
      var before := Where(p, s[..n]);
      assert s[n] !in s[..n];
      assert forall x :: x in s <==> x in s[..n] || x == s[n];
      if p(s[n]) {
        assert Where(p, s) == before + {s[n]};
      } else {
        assert Where(p, s) == before;
      }
    }
  }

  lemma {:induction false} FilterMembers<T>(p: T -> bool, s: seq<T>, x: T)
    ensures x in Filter(p, s) <==> x in s && p(x)
  {
    if s != [] {
      FilterMembers(p, s[..|s| - 1], x);
    }
  }

  lemma {:induction false} FilterCount<T>(p: T -> bool, s: seq<T>, x: T)
    ensures multiset(Filter(p, s))[x] == if p(x) then multiset(s)[x] else 0
  {
    if s != [] {
      var n := |s| - 1;
      FilterCount(p, s[..n], x);
      assert s == s[..n] + [s[n]];
    }
  }

  lemma {:induction false} MapAt<T, U>(f: T -> U, s: seq<T>)
    ensures |Map(f, s)| == |s| && forall i :: 0 <= i < |s| ==> Map(f, s)[i] == f(s[i])
  {
    if s != [] {
      MapAt(f, s[..|s| - 1]);
    }
  }

  /** Folds see a function only through its values on the elements. */
  lemma {:induction false} SameFolds<T, U>(p: T -> bool, q: T -> bool, f: T -> U, g: T -> U, t: T -> string, u: T -> string, s: seq<T>)
    requires forall x :: x in s ==> p(x) == q(x) && f(x) == g(x) && t(x) == u(x)
    ensures CountIf(p, s) == CountIf(q, s) && Map(f, s) == Map(g, s) && FirstText(t, s) == FirstText(u, s)
  {
    if s != [] {
      assert s[|s| - 1] in s;
      SameFolds(p, q, f, g, t, u, s[..|s| - 1]);
    }
  }

  function Image<A, B>(xs: set<A>, f: A -> B): set<B> {
    set x | x in xs :: f(x)
  }

  lemma {:induction false} ImageSize<A, B>(xs: set<A>, f: A -> B)
    requires forall x, y :: x in xs && y in xs && f(x) == f(y) ==> x == y
    ensures |Image(xs, f)| == |xs|
  {
    if xs != {} {
      var x :| x in xs;
      ImageSize(xs - {x}, f);
      assert Image(xs, f) == Image(xs - {x}, f) + {f(x)};
    }
  }

  /** The pairs of a position below `n` and an element of its set. */
  function Tagged<T>(parts: nat -> set<T>, n: nat): set<(nat, T)> {
    set j: nat, x | 0 <= j < n && x in parts(j) :: (j, x)
  }

  lemma TaggedGrows<T>(parts: nat -> set<T>, n: nat)
    ensures |Tagged(parts, n + 1)| == |Tagged(parts, n)| + |parts(n)|
  {
    var tag := (x: T) => (n, x);
    ImageSize(parts(n), tag);
    assert Tagged(parts, n + 1) == Tagged(parts, n) + Image(parts(n), tag);
    assert Tagged(parts, n) !! Image(parts(n), tag);
  }

  function Total(sizes: nat -> nat, n: nat): nat {
    if n == 0 then 0 else Total(sizes, n - 1) + sizes(n - 1)
  }

  lemma {:induction false} TaggedTotal<T>(parts: nat -> set<T>, sizes: nat -> nat, n: nat)
    requires forall j: nat :: j < n ==> sizes(j) == |parts(j)|
    ensures |Tagged(parts, n)| == Total(sizes, n)
  {
    if n == 0 {
      assert Tagged(parts, 0) == {};
    } else {
      TaggedTotal(parts, sizes, n - 1);
      TaggedGrows(parts, n - 1);
    }
  }

  /** The positions below `n` that hit. */
  function Positions(hit: nat -> bool, n: nat): set<nat> {
    set k: nat | k < n && hit(k)
  }

  lemma PositionsGrow(hit: nat -> bool, n: nat)
    ensures |Positions(hit, n + 1)| == |Positions(hit, n)| + if hit(n) then 1 else 0
  {
    var before := Positions(hit, n);
    if hit(n) {
      assert Positions(hit, n + 1) == before + {n};
    } else {
      assert Positions(hit, n + 1) == before;
    }
  }

  lemma {:induction false} PositionsTotal(hit: nat -> bool, sizes: nat -> nat, n: nat)
    requires forall k: nat :: k < n ==> sizes(k) == if hit(k) then 1 else 0
    ensures |Positions(hit, n)| == Total(sizes, n)
  {
    if n == 0 {
      assert Positions(hit, 0) == {};
    } else {
      PositionsTotal(hit, sizes, n - 1);
      PositionsGrow(hit, n - 1);
    }
  }

  function Joined<T>(parts: nat -> seq<T>, n: nat): seq<T> {
    if n == 0 then [] else Joined(parts, n - 1) + parts(n - 1)
  }

  lemma ConcatCount<T>(a: seq<T>, b: seq<T>, x: T)
    ensures multiset(a + b)[x] == multiset(a)[x] + multiset(b)[x]
  {
  }

  lemma {:induction false} JoinedTotal<T>(parts: nat -> seq<T>, sizes: nat -> nat, n: nat, x: T)
    requires forall j: nat :: j < n ==> multiset(parts(j))[x] == sizes(j)
    ensures multiset(Joined(parts, n))[x] == Total(sizes, n)
  {
    if n > 0 {
      JoinedTotal(parts, sizes, n - 1, x);
      ConcatCount(Joined(parts, n - 1), parts(n - 1), x);
    }
  }

  /** The joined parts hold `x` as often as there are tagged hits. */
  lemma JoinedHits<T, H>(parts: nat -> seq<T>, hits: nat -> set<H>, n: nat, x: T)
    requires forall j: nat :: j < n ==> multiset(parts(j))[x] == |hits(j)|
    ensures multiset(Joined(parts, n))[x] == |Tagged(hits, n)|
  {
    var sizes := (j: nat) => |hits(j)|;
    JoinedTotal(parts, sizes, n, x);
    TaggedTotal(hits, sizes, n);
  }
}
