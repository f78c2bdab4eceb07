/** Python's `sorted`: stable, by a key order, and on sets of strings. */
module Sorting {

  /** Comparison of strings by code point. */
  predicate Less(a: string, b: string)
    decreases |a|
  {
    |b| > 0 && (|a| == 0 || a[0] < b[0] || (a[0] == b[0] && Less(a[1..], b[1..])))
  }

  predicate AtMost(a: string, b: string) { !Less(b, a) }

  lemma {:induction false} LessIsTotal(a: string, b: string)
    ensures Less(a, b) || Less(b, a) || a == b
    ensures !(Less(a, b) && Less(b, a)) && !Less(a, a)
    decreases |a|
  {
    if |a| > 0 {
      LessIsTotal(a[1..], a[1..]);
      if |b| > 0 {
        LessIsTotal(a[1..], b[1..]);
        if a[0] == b[0] && a[1..] == b[1..] { assert a == [a[0]] + a[1..] == [b[0]] + b[1..] == b; }
      }
    }
  }

  lemma {:induction false} LessTransitive(a: string, b: string, c: string)
    requires Less(a, b) && Less(b, c)
    ensures Less(a, c)
    decreases |a|
  {
    if |a| > 0 && a[0] == b[0] == c[0] { LessTransitive(a[1..], b[1..], c[1..]); }
  }

  // ----- sets of strings -----

  lemma {:induction false} HasLeast(s: set<string>) returns (m: string)
    requires s != {}
    ensures m in s && forall x <- s :: AtMost(m, x)
    decreases |s|
  {
    var a :| a in s;
    if s == {a} {
      m := a;
      LessIsTotal(a, a);
    } else {
      var n := HasLeast(s - {a});
      LessIsTotal(a, n);
      m := if Less(a, n) then a else n;
      forall x <- s ensures AtMost(m, x) {
        LessIsTotal(a, a);
        assert x == a || x in s - {a};
        if Less(a, n) && Less(x, a) { LessTransitive(x, a, n); }
      }
    }
  }

  predicate IsLeast(m: string, s: set<string>) { m in s && forall x <- s :: AtMost(m, x) }

  lemma LeastUnique(s: set<string>)
    requires s != {}
    ensures exists m :: IsLeast(m, s)
    ensures forall m, n :: IsLeast(m, s) && IsLeast(n, s) ==> m == n
  {
    var m := HasLeast(s);
    assert IsLeast(m, s);
    forall m, n | IsLeast(m, s) && IsLeast(n, s) ensures m == n { LessIsTotal(m, n); }
  }

  predicate Increasing(xs: seq<string>) { forall i, j :: 0 <= i < j < |xs| ==> Less(xs[i], xs[j]) }

  /** `sorted(s)`: the members of the set, each once, in increasing order. */
  function Sorted(s: set<string>): (xs: seq<string>)
    ensures Increasing(xs) && forall x :: x in xs <==> x in s
    decreases |s|
  {
    if s == {} then []
    else
      LeastUnique(s);
      var m :| m in s && IsLeast(m, s);
      var rest := Sorted(s - {m});
      assert forall x <- rest :: Less(m, x) by {
        forall x <- rest ensures Less(m, x) { LessIsTotal(m, x); }
      }
      [m] + rest
  }

  lemma HasFirst(ys: seq<string>)
    ensures |ys| > 0 ==> exists y :: y in ys
  {
    if |ys| > 0 { assert ys[0] in ys; }
  }

  /** There is one such order only. */
  lemma {:induction false} SortedUnique(xs: seq<string>, ys: seq<string>)
    requires Increasing(xs) && Increasing(ys) && forall x :: x in xs <==> x in ys
    ensures xs == ys
    decreases |xs|
  {
    HasFirst(ys);
    if |xs| > 0 {
      assert xs[0] in xs && ys != [] && ys[0] in ys;
      LessIsTotal(xs[0], ys[0]);
      assert xs[0] == ys[0];
      forall x ensures x in xs[1..] <==> x in ys[1..] {
        assert x in xs <==> x == xs[0] || x in xs[1..];
        assert x in ys <==> x == ys[0] || x in ys[1..];
        LessIsTotal(xs[0], xs[0]);
      }
      SortedUnique(xs[1..], ys[1..]);
    }
  }

  // ----- sets of numbers -----

  predicate Rising(xs: seq<int>) { forall i, j :: 0 <= i < j < |xs| ==> xs[i] < xs[j] }

  lemma {:induction false} HasMinimum<T(!new)>(s: set<T>, le: (T, T) -> bool) returns (m: T)
    requires s != {} && IsOrder(le)
    ensures m in s && forall x <- s :: le(m, x)
    decreases |s|
  {
    var a :| a in s;
    var rest := s - {a};
    m := a;
    if rest != {} {
      var n := HasMinimum(rest, le);
      m := if le(n, a) then n else a;
      forall x <- s ensures le(m, x) { assert x == a || x in rest; }
    } else {
      assert s == {a};
    }
  }

  lemma LeastIntExists(s: set<int>)
    requires s != {}
    ensures exists m :: m in s && forall x <- s :: m <= x
  {
    var m := HasMinimum(s, (a: int, b: int) => a <= b);
  }

  /** `sorted(s)` of a set of numbers. */
  function Ascending(s: set<int>): (xs: seq<int>)
    ensures Rising(xs) && forall x :: x in xs <==> x in s
    decreases |s|
  {
    if s == {} then []
    else
      LeastIntExists(s);
      var m :| m in s && forall x <- s :: m <= x;
      [m] + Ascending(s - {m})
  }

  // ----- lists -----

  /** Before the first member that it may precede. */
  function Insert<T>(le: (T, T) -> bool, x: T, xs: seq<T>): (r: seq<T>)
    ensures |r| == |xs| + 1 && multiset(r) == multiset(xs) + multiset{x}
  {
    if |xs| == 0 || le(x, xs[0]) then
      [x] + xs
    else
      assert xs == [xs[0]] + xs[1..];
      [xs[0]] + Insert(le, x, xs[1..])
  }

  /** `sorted(xs)`; `le` compares the keys, and equal keys keep their order. */
  function SortBy<T>(le: (T, T) -> bool, xs: seq<T>): (r: seq<T>)
    ensures |r| == |xs| && multiset(r) == multiset(xs)
  {
    if |xs| == 0 then []
    else
      assert xs == [xs[0]] + xs[1..];
      Insert(le, xs[0], SortBy(le, xs[1..]))
  }

  ghost predicate Ordered<T>(le: (T, T) -> bool, xs: seq<T>) {
    forall i, j :: 0 <= i < j < |xs| ==> le(xs[i], xs[j])
  }

  ghost predicate IsOrder<T(!new)>(le: (T, T) -> bool) {
    && (forall x, y :: le(x, y) || le(y, x))
    && (forall x, y, z :: le(x, y) && le(y, z) ==> le(x, z))
  }

  lemma SameMembers<T>(xs: seq<T>, ys: seq<T>)
    requires multiset(xs) == multiset(ys)
    ensures forall x :: x in xs <==> x in ys
  {
    forall x ensures x in xs <==> x in ys {
      assert x in multiset(xs) <==> x in multiset(ys);
    }
  }

  lemma Total<T(!new)>(le: (T, T) -> bool, x: T, y: T)
    requires IsOrder(le) && !le(x, y)
    ensures le(y, x)
  {
  }

  /** A member below the first one is below all of them. */
  lemma BelowAll<T(!new)>(le: (T, T) -> bool, x: T, xs: seq<T>)
    requires IsOrder(le) && Ordered(le, xs) && |xs| > 0 && le(x, xs[0])
    ensures forall y <- xs :: le(x, y)
  {
    forall y <- xs ensures le(x, y) {
      var i :| 0 <= i < |xs| && xs[i] == y;
      assert i > 0 ==> le(xs[0], xs[i]);
    }
  }

  lemma OrderedCons<T>(le: (T, T) -> bool, x: T, xs: seq<T>)
    requires Ordered(le, xs) && forall y <- xs :: le(x, y)
    ensures Ordered(le, [x] + xs)
  {
  }

  lemma OrderedTail<T>(le: (T, T) -> bool, xs: seq<T>)
    requires Ordered(le, xs) && |xs| > 0
    ensures Ordered(le, xs[1..]) && forall y <- xs[1..] :: le(xs[0], y)
  {
  }

  lemma Inserted<T>(le: (T, T) -> bool, x: T, xs: seq<T>)
    ensures forall y <- Insert(le, x, xs) :: y == x || y in xs
  {
    hide Insert;
    var r := Insert(le, x, xs);
    forall y <- r ensures y == x || y in xs { assert y in multiset(r); }
  }

  lemma {:induction false} InsertOrders<T(!new)>(le: (T, T) -> bool, x: T, xs: seq<T>)
    requires IsOrder(le) && Ordered(le, xs)
    ensures Ordered(le, Insert(le, x, xs))
  {
    hide IsOrder, Ordered;
    if |xs| == 0 {
      OrderedNone(le);
      OrderedCons(le, x, []);
    } else if le(x, xs[0]) {
      BelowAll(le, x, xs);
      OrderedCons(le, x, xs);
    } else {
      Total(le, x, xs[0]);
      OrderedTail(le, xs);
      InsertOrders(le, x, xs[1..]);
      Inserted(le, x, xs[1..]);
      OrderedCons(le, xs[0], Insert(le, x, xs[1..]));
    }
  }

  lemma OrderedNone<T>(le: (T, T) -> bool)
    ensures Ordered(le, [])
  {
  }

  lemma {:induction false} SortOrders<T(!new)>(le: (T, T) -> bool, xs: seq<T>)
    requires IsOrder(le)
    ensures Ordered(le, SortBy(le, xs))
  {
    if |xs| > 0 {
      SortOrders(le, xs[1..]);
      InsertOrders(le, xs[0], SortBy(le, xs[1..]));
    }
  }
}
