/** How two signature files' lists of file checksums are compared. */
module ChecksumDiff {

  /** `(file name, checksum)` */
  datatype Entry = Entry(name: string, cs: string)

  /** An entry of the old list paired with one of the new list. */
  datatype Change = Change(was: Entry, now: Entry)

  /** The three lists before they are cut down to names. */
  datatype Diff = Diff(changed: seq<Change>, added: seq<Entry>, removed: seq<Entry>)

  function Names(es: seq<Entry>): (names: seq<string>)
    ensures |names| == |es| && forall i :: 0 <= i < |es| ==> names[i] == es[i].name
  {
    seq(|es|, i requires 0 <= i < |es| => es[i].name)
  }

  function Triples(cs: seq<Change>): (ts: seq<(string, string, string)>)
    ensures |ts| == |cs| && forall i :: 0 <= i < |cs| ==> ts[i] == (cs[i].was.name, cs[i].was.cs, cs[i].now.cs)
  {
    seq(|cs|, i requires 0 <= i < |cs| => (cs[i].was.name, cs[i].was.cs, cs[i].now.cs))
  }

  function Olds(cs: seq<Change>): multiset<Entry> {
    if |cs| == 0 then multiset{} else Olds(cs[..|cs| - 1]) + multiset{cs[|cs| - 1].was}
  }

  function News(cs: seq<Change>): multiset<Entry> {
    if |cs| == 0 then multiset{} else News(cs[..|cs| - 1]) + multiset{cs[|cs| - 1].now}
  }

  /**
   What a right answer is: what only the old list has was removed or changed, what only the new list
   has was added or changed, a change keeps the name and not the checksum, and nothing with the same
   name is left on both sides.
   */
  ghost predicate Explains(a: seq<Entry>, b: seq<Entry>, d: Diff) {
    && multiset(d.removed) + Olds(d.changed) == multiset(a) - multiset(b)
    && multiset(d.added) + News(d.changed) == multiset(b) - multiset(a)
    && RealChanges(d.changed)
    && Apart(d.added, d.removed)
  }

  ghost predicate RealChanges(changed: seq<Change>) {
    forall c <- changed :: c.was.name == c.now.name && c.was.cs != c.now.cs
  }

  ghost predicate Apart(added: seq<Entry>, removed: seq<Entry>) {
    forall x <- added, y <- removed :: x.name != y.name
  }

  /** Nothing is lost or made up: taking the old halves out of `a` and putting the new ones in gives `b`. */
  lemma DiffConserves(a: seq<Entry>, b: seq<Entry>, d: Diff)
    requires Explains(a, b, d)
    ensures multiset(d.removed) + Olds(d.changed) <= multiset(a)
    ensures multiset(a) - (multiset(d.removed) + Olds(d.changed)) + (multiset(d.added) + News(d.changed)) == multiset(b)
  {
    hide Olds, News;
    var ma, mb := multiset(a), multiset(b);
    forall x: Entry
      ensures (ma - (ma - mb) + (mb - ma))[x] == mb[x]
    {
    }
    assert ma - (ma - mb) + (mb - ma) == mb;
  }

  // ----- Counter -----

  function At(count: map<Entry, int>, x: Entry): int { if x in count then count[x] else 0 }

  function Times(es: seq<Entry>, x: Entry): int { multiset(es)[x] }

  lemma TimesNext(es: seq<Entry>, i: nat)
    requires i < |es|
    ensures forall x :: Times(es[..i + 1], x) == Times(es[..i], x) + if x == es[i] then 1 else 0
  {
    assert es[..i + 1] == es[..i] + [es[i]];
  }

  /** `Counter(a)` followed by `subtract(b)`, which may go below zero. */
  method Counted(a: seq<Entry>, b: seq<Entry>) returns (count: map<Entry, int>)
    ensures forall x :: At(count, x) == Times(a, x) - Times(b, x)
  {
    hide Times;
    count := map[];
    NoTimes(a, b);
    for i := 0 to |a|
      invariant forall x :: At(count, x) == Times(a[..i], x)
    {
      TimesNext(a, i);
      ghost var was := count;
      count := count[a[i] := At(count, a[i]) + 1];
      assert forall x :: At(count, x) == At(was, x) + if x == a[i] then 1 else 0;
    }
    assert a[..|a|] == a;
    for i := 0 to |b|
      invariant forall x :: At(count, x) == Times(a, x) - Times(b[..i], x)
    {
      TimesNext(b, i);
      count := count[b[i] := At(count, b[i]) - 1];
    }
    assert b[..|b|] == b;
  }

  lemma NoTimes(a: seq<Entry>, b: seq<Entry>)
    ensures forall x :: Times(a[..0], x) == 0 && Times(b[..0], x) == 0
  {
  }

  function Least(x: int, y: int): int { if x < 0 then 0 else if x < y then x else y }

  /** `got` is what walking the first `i` members of `a` picks of those that `b` has too few of. */
  ghost predicate Picked(got: multiset<Entry>, a: seq<Entry>, b: seq<Entry>, i: nat)
    requires i <= |a|
  {
    forall x :: got[x] == Least(Times(a, x) - Times(b, x), Times(a[..i], x))
  }

  ghost predicate Remaining(count: map<Entry, int>, got: multiset<Entry>, a: seq<Entry>, b: seq<Entry>) {
    forall x :: At(count, x) == Times(a, x) - Times(b, x) - got[x]
  }

  lemma PickedNone(count: map<Entry, int>, a: seq<Entry>, b: seq<Entry>)
    requires forall x :: At(count, x) == Times(a, x) - Times(b, x)
    ensures Picked(multiset{}, a, b, 0) && Remaining(count, multiset{}, a, b)
  {
  }

  lemma PickedNext(count: map<Entry, int>, got: multiset<Entry>, a: seq<Entry>, b: seq<Entry>, i: nat)
    requires i < |a| && Picked(got, a, b, i) && Remaining(count, got, a, b)
    ensures At(count, a[i]) > 0
         ==> Picked(got + multiset{a[i]}, a, b, i + 1)
             && Remaining(count[a[i] := At(count, a[i]) - 1], got + multiset{a[i]}, a, b)
    ensures At(count, a[i]) <= 0 ==> Picked(got, a, b, i + 1)
  {
    hide Times;
    TimesNext(a, i);
    TimesFrom(a, i);
  }

  lemma TimesFrom(es: seq<Entry>, i: nat)
    requires i < |es|
    ensures forall x :: 0 <= Times(es[..i], x) <= Times(es, x)
  {
    assert es == es[..i] + es[i..];
  }

  lemma PickedAll(got: multiset<Entry>, a: seq<Entry>, b: seq<Entry>)
    requires Picked(got, a, b, |a|)
    ensures got == multiset(a) - multiset(b)
  {
    assert a[..|a|] == a;
    forall x: Entry
      ensures got[x] == (multiset(a) - multiset(b))[x]
    {
      assert Times(a[..|a|], x) == multiset(a)[x];
    }
  }

  /** The members of `b`, in order, that `a` has too few of. */
  method Surplus(b: seq<Entry>, a: seq<Entry>) returns (added: seq<Entry>)
    ensures multiset(added) == multiset(b) - multiset(a)
  {
    hide Picked, Remaining, Times;
    var count := Counted(b, a);
    added := [];
    PickedNone(count, b, a);
    for i := 0 to |b|
      invariant Picked(multiset(added), b, a, i) && Remaining(count, multiset(added), b, a)
    {
      PickedNext(count, multiset(added), b, a, i);
      if At(count, b[i]) > 0 {
        count := count[b[i] := At(count, b[i]) - 1];
        added := added + [b[i]];
      }
    }
    PickedAll(multiset(added), b, a);
  }

  /** The first entry of that name, or the length. */
  method IndexOfName(es: seq<Entry>, name: string) returns (k: nat)
    ensures k <= |es| && (forall j :: 0 <= j < k ==> es[j].name != name) && (k < |es| ==> es[k].name == name)
  {
    k := 0;
    while k < |es| && es[k].name != name
      invariant k <= |es| && forall j :: 0 <= j < k ==> es[j].name != name
    {
      k := k + 1;
    }
  }

  lemma TakeOut(es: seq<Entry>, k: nat)
    requires k < |es|
    ensures multiset(es) == multiset(es[..k] + es[k + 1..]) + multiset{es[k]}
  {
    assert es == es[..k] + [es[k]] + es[k + 1..];
  }

  /** `file_checksums_diff`; `d` is the answer before the names are cut out. */
  method FileChecksumsDiff(a: seq<Entry>, b: seq<Entry>)
    returns (changed: seq<(string, string, string)>, added: seq<string>, removed: seq<string>, ghost d: Diff)
    ensures changed == Triples(d.changed) && added == Names(d.added) && removed == Names(d.removed)
    ensures Explains(a, b, d)
    ensures forall name :: name in added ==> name !in removed
  {
    hide Picked, Remaining, Times, Olds, News, RealChanges, Apart;
    var count := Counted(a, b);
    var more := Surplus(b, a);
    var pairs: seq<Change>, gone: seq<Entry> := [], [];
    PickedNone(count, a, b);
    NoHalves();
    ghost var got: multiset<Entry> := multiset{};
    for i := 0 to |a|
      invariant got == multiset(gone) + Olds(pairs)
      invariant Picked(got, a, b, i) && Remaining(count, got, a, b)
      invariant multiset(more) + News(pairs) == multiset(b) - multiset(a)
      invariant RealChanges(pairs) && Apart(more, gone)
    {
      var x := a[i];
      PickedNext(count, got, a, b, i);
      if At(count, x) > 0 {
        OnlyInFirst(count, got, a, b, x);
        got := got + multiset{x};
        count := count[x := At(count, x) - 1];
        var k := IndexOfName(more, x.name);
        if k < |more| {
          var y := more[k];
          InSecond(multiset(more), News(pairs), a, b, y);
          OneMorePair(pairs, x, y);
          Shift(multiset(gone), Olds(pairs), x);
          TakeOut(more, k);
          StillApart(more, gone, k);
          Swap(multiset(more[..k] + more[k + 1..]), News(pairs), y);
          pairs := pairs + [Change(x, y)];
          more := more[..k] + more[k + 1..];
        } else {
          NowApart(more, gone, x);
          Shift(Olds(pairs), multiset(gone), x);
          gone := gone + [x];
        }
      }
    }
    PickedAll(got, a, b);
    NoCommonName(more, gone);
    d := Diff(pairs, more, gone);
    changed, added, removed := Triples(pairs), Names(more), Names(gone);
  }

  lemma NoHalves()
    ensures Olds([]) == multiset{} && News([]) == multiset{} && RealChanges([])
    ensures forall es :: Apart(es, [])
  {
  }

  lemma OneMorePair(pairs: seq<Change>, x: Entry, y: Entry)
    ensures Olds(pairs + [Change(x, y)]) == Olds(pairs) + multiset{x}
    ensures News(pairs + [Change(x, y)]) == News(pairs) + multiset{y}
    ensures RealChanges(pairs) && x.name == y.name && x.cs != y.cs ==> RealChanges(pairs + [Change(x, y)])
  {
    assert (pairs + [Change(x, y)])[..|pairs|] == pairs;
  }

  lemma StillApart(more: seq<Entry>, gone: seq<Entry>, k: nat)
    requires k < |more| && Apart(more, gone)
    ensures Apart(more[..k] + more[k + 1..], gone)
  {
  }

  lemma NowApart(more: seq<Entry>, gone: seq<Entry>, x: Entry)
    requires Apart(more, gone) && forall j :: 0 <= j < |more| ==> more[j].name != x.name
    ensures Apart(more, gone + [x])
  {
  }

  lemma NoCommonName(more: seq<Entry>, gone: seq<Entry>)
    requires Apart(more, gone)
    ensures forall name :: name in Names(more) ==> name !in Names(gone)
  {
    forall name | name in Names(more)
      ensures name !in Names(gone)
    {
      var i :| 0 <= i < |more| && Names(more)[i] == name;
      assert more[i] in more;
    }
  }

  lemma Shift(g: multiset<Entry>, o: multiset<Entry>, x: Entry)
    ensures g + o + multiset{x} == g + (o + multiset{x}) == (o + multiset{x}) + g
  {
  }

  lemma Swap(m: multiset<Entry>, n: multiset<Entry>, y: Entry)
    ensures m + multiset{y} + n == m + (n + multiset{y})
  {
  }

  lemma OnlyInFirst(count: map<Entry, int>, got: multiset<Entry>, a: seq<Entry>, b: seq<Entry>, x: Entry)
    requires Remaining(count, got, a, b) && At(count, x) > 0
    ensures multiset(a)[x] > multiset(b)[x]
  {
    assert Times(a, x) - Times(b, x) - got[x] > 0;
  }

  lemma InSecond(m: multiset<Entry>, n: multiset<Entry>, a: seq<Entry>, b: seq<Entry>, y: Entry)
    requires m + n == multiset(b) - multiset(a) && y in m
    ensures multiset(b)[y] > multiset(a)[y]
  {
    assert y in m + n;
  }
}
