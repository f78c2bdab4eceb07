/**
 The choice among the override variants of one variable: `getVarFlag` collects the variants
 whose override key is active into an insertion-ordered dictionary, then rewrites and consumes
 that dictionary until a pass over OVERRIDES changes nothing.
 */
module OverrideChoice {
  import opened Wrappers
  import opened Text

  /** One element `[name, key]` of an `overridedata` list. */
  datatype Entry = Entry(name: string, key: string)

  /** An item of the insertion-ordered dictionary `active`. */
  datatype Slot = Slot(key: string, name: string)

  type Table = seq<Slot>

  predicate Has(t: Table, k: string) {
    exists i :: 0 <= i < |t| && t[i].key == k
  }

  ghost predicate Distinct(t: Table) {
    forall i, j :: 0 <= i < j < |t| ==> t[i].key != t[j].key
  }

  function Keys(t: Table): (ks: seq<string>)
    ensures |ks| == |t|
    ensures forall i :: 0 <= i < |t| ==> ks[i] == t[i].key
  {
    seq(|t|, i requires 0 <= i < |t| => t[i].key)
  }

  function IndexOf(t: Table, k: string): (i: nat)
    requires Has(t, k)
    ensures i < |t| && t[i].key == k
    ensures forall j :: 0 <= j < i ==> t[j].key != k
  {
    if t[0].key == k then 0 else
      assert Has(t[1..], k) by {
        var j :| 0 <= j < |t| && t[j].key == k;
        assert t[1..][j - 1].key == k;
      }
      1 + IndexOf(t[1..], k)
  }

  function Get(t: Table, k: string): string
    requires Has(t, k)
  {
    t[IndexOf(t, k)].name
  }

  /** `t[k] = n`: an existing key keeps its place, a new one goes last. */
  function Put(t: Table, k: string, n: string): (r: Table)
    ensures Has(r, k)
    ensures forall j :: Has(t, j) ==> Has(r, j)
    ensures forall j :: Has(r, j) ==> j == k || Has(t, j)
    ensures Distinct(t) ==> Distinct(r)
  {
    if Has(t, k) then
      var i := IndexOf(t, k);
      var r := t[i := Slot(k, n)];
      assert r[i].key == k;
      assert forall j :: 0 <= j < |t| ==> r[j].key == t[j].key;
      r
    else
      var r := t + [Slot(k, n)];
      assert r[|t|].key == k;
      assert forall j :: 0 <= j < |t| ==> r[j] == t[j];
      r
  }

  /** `del t[k]` */
  function Del(t: Table, k: string): (r: Table)
    requires Has(t, k)
    ensures |r| == |t| - 1
    ensures Distinct(t) ==> Distinct(r) && !Has(r, k)
    ensures forall j :: j != k && Has(t, j) ==> Has(r, j)
    ensures forall j :: Has(r, j) ==> Has(t, j)
  {
    var i := IndexOf(t, k);
    CutKeepsOthers(t, i);
    CutAddsNothing(t, i);
    CutMayBeDistinct(t, i);
    t[..i] + t[i + 1..]
  }

  lemma CutSlots(t: Table, i: nat)
    requires i < |t|
    ensures var r := t[..i] + t[i + 1..];
            |r| == |t| - 1 && forall j :: 0 <= j < |r| ==> r[j] == t[if j < i then j else j + 1]
  {
  }

  lemma CutKeepsOthers(t: Table, i: nat)
    requires i < |t|
    ensures forall k :: k != t[i].key && Has(t, k) ==> Has(t[..i] + t[i + 1..], k)
  {
    var r := t[..i] + t[i + 1..];
    forall k | k != t[i].key && Has(t, k) ensures Has(r, k) {
      var j :| 0 <= j < |t| && t[j].key == k;
      WithoutAt(t, i);
      assert r[if j < i then j else j - 1].key == k;
    }
  }

  lemma CutAddsNothing(t: Table, i: nat)
    requires i < |t|
    ensures forall k :: Has(t[..i] + t[i + 1..], k) ==> Has(t, k)
  {
    var r := t[..i] + t[i + 1..];
    CutSlots(t, i);
    forall k | Has(r, k) ensures Has(t, k) {
      var j :| 0 <= j < |r| && r[j].key == k;
      assert t[if j < i then j else j + 1].key == k;
    }
  }

  lemma CutMayBeDistinct(t: Table, i: nat)
    requires i < |t|
    ensures Distinct(t) ==> Distinct(t[..i] + t[i + 1..]) && !Has(t[..i] + t[i + 1..], t[i].key)
  {
    CutSlots(t, i);
  }

  function TotalLength(t: Table): nat {
    if |t| == 0 then 0 else |t[0].key| + TotalLength(t[1..])
  }

  lemma {:induction false} TotalLengthSplit(a: Table, b: Table)
    ensures TotalLength(a + b) == TotalLength(a) + TotalLength(b)
  {
    if |a| == 0 {
      assert a + b == b;
    } else {
      TotalLengthSplit(a[1..], b);
      assert (a + b)[1..] == a[1..] + b;
    }
  }

  lemma DelLength(t: Table, k: string)
    requires Has(t, k)
    ensures TotalLength(Del(t, k)) == TotalLength(t) - |k|
  {
    hide IndexOf;
    var i := IndexOf(t, k);
    var a, b := t[..i], t[i + 1..];
    TotalLengthSplit(a, b);
    TotalLengthSplit(a, [t[i]] + b);
    assert t == a + ([t[i]] + b) && ([t[i]] + b)[1..] == b;
  }

  lemma PutLength(t: Table, k: string, n: string)
    ensures TotalLength(Put(t, k, n)) <= TotalLength(t) + |k|
  {
    if Has(t, k) {
      var i := IndexOf(t, k);
      var r := Put(t, k, n);
      TotalLengthSplit(t[..i], t[i..]);
      TotalLengthSplit(r[..i], r[i..]);
      assert t == t[..i] + t[i..] && r == r[..i] + r[i..];
      assert t[..i] == r[..i];
      assert t[i..][1..] == r[i..][1..];
    } else {
      TotalLengthSplit(t, [Slot(k, n)]);
      assert [Slot(k, n)][1..] == [];
    }
  }

  // ----- the specification of one choice -----

  predicate IsActive(key: string, overrides: seq<string>) {
    key in overrides || (':' in key && forall p :: p in Split(key, ':') ==> p in overrides)
  }

  /** The dictionary `active` after the first `for` loop. */
  function ActiveTable(entries: seq<Entry>, overrides: seq<string>): (t: Table)
    ensures Distinct(t)
  {
    if |entries| == 0 then []
    else
      var t := ActiveTable(entries[..|entries| - 1], overrides);
      var e := entries[|entries| - 1];
      if IsActive(e.key, overrides) then Put(t, e.key, e.name) else t
  }

  datatype Scan = Scan(table: Table, found: Option<string>, mod: bool)

  /** The body of the innermost loop, for key `a` of the snapshot and override `o`. */
  function Visit(s: Scan, a: string, o: string): (r: Scan)
    requires Has(s.table, a) && Distinct(s.table)
    ensures Distinct(r.table)
    ensures forall k :: k != a && Has(s.table, k) ==> Has(r.table, k)
    ensures TotalLength(r.table) <= TotalLength(s.table)
    ensures s.mod ==> r.mod
    ensures r.mod && !s.mod ==> TotalLength(r.table) < TotalLength(s.table)
  {
    DelLength(s.table, a);
    if EndsWith(a, ":" + o) then
      WithoutShrinks(a, ":" + o);
      PutLength(Del(s.table, a), Without(a, ":" + o), Get(s.table, a));
      Scan(Put(Del(s.table, a), Without(a, ":" + o), Get(s.table, a)), s.found, true)
    else if a == o then
      Scan(Del(s.table, a), Some(Get(s.table, a)), s.mod)
    else s
  }

  /** One round over a snapshot of the keys; no visited key is ever missing. */
  function VisitAll(s: Scan, keys: seq<string>, o: string): (r: Scan)
    requires Distinct(s.table)
    requires forall i, j :: 0 <= i < j < |keys| ==> keys[i] != keys[j]
    requires forall i :: 0 <= i < |keys| ==> Has(s.table, keys[i])
    ensures Distinct(r.table)
    ensures TotalLength(r.table) <= TotalLength(s.table)
    ensures s.mod ==> r.mod
    ensures r.mod && !s.mod ==> TotalLength(r.table) < TotalLength(s.table)
    decreases |keys|
  {
    if |keys| == 0 then s else VisitAll(Visit(s, keys[0], o), keys[1..], o)
  }

  /** One pass over OVERRIDES. */
  function Pass(s: Scan, overrides: seq<string>): (r: Scan)
    requires Distinct(s.table)
    ensures Distinct(r.table)
    ensures TotalLength(r.table) <= TotalLength(s.table)
    ensures s.mod ==> r.mod
    ensures r.mod && !s.mod ==> TotalLength(r.table) < TotalLength(s.table)
    decreases |overrides|
  {
    if |overrides| == 0 then s
    else
      assert forall k :: k in Keys(s.table) ==> Has(s.table, k);
      Pass(VisitAll(s, Keys(s.table), overrides[0]), overrides[1..])
  }

  /** `while mod`: terminates because every rewriting pass shortens the keys. */
  function PassUntilStable(t: Table, found: Option<string>, overrides: seq<string>): Option<string>
    requires Distinct(t)
    decreases TotalLength(t)
  {
    var r := Pass(Scan(t, found, false), overrides);
    if r.mod then PassUntilStable(r.table, r.found, overrides) else r.found
  }

  function Choose(entries: seq<Entry>, overrides: seq<string>): Option<string> {
    PassUntilStable(ActiveTable(entries, overrides), None, overrides)
  }

  /** The active entries, the last one for each key. */
  method CollectActive(entries: seq<Entry>, overrides: seq<string>) returns (active: Table)
    ensures active == ActiveTable(entries, overrides)
  {
    active := [];
    for i := 0 to |entries|
      invariant active == ActiveTable(entries[..i], overrides)
    {
      var e := entries[i];
      assert entries[..i + 1][..i] == entries[..i];
      if e.key in overrides {
        active := Put(active, e.key, e.name);
      } else if ':' in e.key {
        if forall p :: p in Split(e.key, ':') ==> p in overrides {
          active := Put(active, e.key, e.name);
        }
      }
    }
    assert entries[..|entries|] == entries;
  }

  /** The loops as the source runs them. */
  method SelectOverride(entries: seq<Entry>, overrides: seq<string>) returns (found: Option<string>)
    ensures found == Choose(entries, overrides)
  {
    hide ActiveTable, VisitAll, Has, Keys;
    var active := CollectActive(entries, overrides);
    found := None;
    var mod := true;
    while mod
      invariant Distinct(active)
      invariant Choose(entries, overrides) == if mod then PassUntilStable(active, found, overrides) else found
      decreases mod, TotalLength(active)
    {
      ghost var t0, found0 := active, found;
      mod := false;
      for i := 0 to |overrides|
        invariant Distinct(active)
        invariant Pass(Scan(active, found, mod), overrides[i..]) == Pass(Scan(t0, found0, false), overrides)
      {
        assert overrides[i..][0] == overrides[i] && overrides[i..][1..] == overrides[i + 1..];
        active, found, mod := TryOverride(active, found, mod, overrides[i]);
      }
    }
  }

  /** The innermost loop: one override against a snapshot of the keys. */
  method TryOverride(table: Table, found0: Option<string>, mod0: bool, o: string)
    returns (active: Table, found: Option<string>, mod: bool)
    requires Distinct(table)
    ensures Distinct(active)
    ensures forall k :: k in Keys(table) ==> Has(table, k)
    ensures Scan(active, found, mod) == VisitAll(Scan(table, found0, mod0), Keys(table), o)
  {
    hide Visit, Has, Distinct, VisitAll;
    active, found, mod := table, found0, mod0;
    var snapshot := Keys(active);
    KeysAreThere(table);
    for j := 0 to |snapshot|
      invariant Distinct(active) && forall k :: j <= k < |snapshot| ==> Has(active, snapshot[k])
      invariant VisitAll(Scan(active, found, mod), snapshot[j..], o) == VisitAll(Scan(table, found0, mod0), snapshot, o)
    {
      VisitNext(Scan(active, found, mod), snapshot, j, o);
      active, found, mod := VisitOne(active, found, mod, snapshot[j], o);
    }
    VisitNone(Scan(active, found, mod), snapshot[|snapshot|..], o);
  }

  lemma KeysAreThere(t: Table)
    requires Distinct(t)
    ensures forall k :: k in Keys(t) ==> Has(t, k)
    ensures forall i, j :: 0 <= i < j < |t| ==> Keys(t)[i] != Keys(t)[j]
    ensures forall i :: 0 <= i < |t| ==> Has(t, Keys(t)[i])
  {
  }

  lemma VisitNone(s: Scan, keys: seq<string>, o: string)
    requires Distinct(s.table) && keys == []
    ensures VisitAll(s, keys, o) == s
  {
  }

  lemma VisitNext(s: Scan, keys: seq<string>, j: nat, o: string)
    requires Distinct(s.table) && j < |keys|
    requires forall i, j :: 0 <= i < j < |keys| ==> keys[i] != keys[j]
    requires forall i :: j <= i < |keys| ==> Has(s.table, keys[i])
    ensures forall i :: j < i < |keys| ==> Has(Visit(s, keys[j], o).table, keys[i])
    ensures VisitAll(s, keys[j..], o) == VisitAll(Visit(s, keys[j], o), keys[j + 1..], o)
  {
    hide Visit, Has, Distinct;
    assert keys[j..][0] == keys[j] && keys[j..][1..] == keys[j + 1..];
  }

  /** The body of the innermost loop. */
  method VisitOne(table: Table, found0: Option<string>, mod0: bool, a: string, o: string)
    returns (active: Table, found: Option<string>, mod: bool)
    requires Distinct(table) && Has(table, a)
    ensures Scan(active, found, mod) == Visit(Scan(table, found0, mod0), a, o)
  {
    hide Del, Put, Get, EndsWith, Without, Has, Distinct;
    active, found, mod := table, found0, mod0;
    if EndsWith(a, ":" + o) {
      var t := Get(active, a);
      active := Del(active, a);
      active := Put(active, Without(a, ":" + o), t);
      mod := true;
    } else if a == o {
      found := Some(Get(active, a));
      active := Del(active, a);
    }
  }

  // ----- what the choice means when keys have a single part -----

  /** Position of the first occurrence, or -1. */
  function FirstAt(overrides: seq<string>, k: string): (i: int)
    ensures k in overrides <==> i >= 0
    ensures i < |overrides|
    ensures i >= 0 ==> overrides[i] == k && forall j :: 0 <= j < i ==> overrides[j] != k
  {
    if |overrides| == 0 then -1
    else if overrides[0] == k then 0
    else
      var i := FirstAt(overrides[1..], k);
      if i < 0 then -1 else i + 1
  }

  ghost predicate SinglePart(t: Table) {
    forall i :: 0 <= i < |t| ==> ':' !in t[i].key
  }

  lemma SuffixHasColon(a: string, o: string)
    requires EndsWith(a, ":" + o)
    ensures ':' in a
  {
    assert a[|a| - |":" + o|..][0] == (":" + o)[0];
  }

  lemma {:induction false} VisitOthers(s: Scan, keys: seq<string>, o: string)
    requires Distinct(s.table)
    requires forall i, j :: 0 <= i < j < |keys| ==> keys[i] != keys[j]
    requires forall i :: 0 <= i < |keys| ==> Has(s.table, keys[i]) && ':' !in keys[i] && keys[i] != o
    ensures VisitAll(s, keys, o) == s
    decreases |keys|
  {
    if |keys| > 0 {
      if EndsWith(keys[0], ":" + o) { SuffixHasColon(keys[0], o); }
      VisitOthers(s, keys[1..], o);
    }
  }

  ghost function Taken(s: Scan, o: string): Scan
    requires Distinct(s.table)
  {
    if Has(s.table, o) then Scan(Del(s.table, o), Some(Get(s.table, o)), s.mod) else s
  }

  /** Without compound keys, one round only takes the slot whose key is `o`. */
  lemma {:induction false} VisitSingle(s: Scan, keys: seq<string>, o: string)
    requires Distinct(s.table)
    requires forall i, j :: 0 <= i < j < |keys| ==> keys[i] != keys[j]
    requires forall i :: 0 <= i < |keys| ==> Has(s.table, keys[i]) && ':' !in keys[i]
    requires Has(s.table, o) ==> o in keys
    ensures VisitAll(s, keys, o) == Taken(s, o)
    decreases |keys|
  {
    if |keys| > 0 {
      if EndsWith(keys[0], ":" + o) { SuffixHasColon(keys[0], o); }
      if keys[0] == o {
        VisitOthers(Visit(s, o, o), keys[1..], o);
      } else {
        VisitSingle(s, keys[1..], o);
      }
    }
  }

  /** The key of slot `w` first occurs in `overrides`, no other key first occurs further right. */
  ghost predicate Rightmost(t: Table, overrides: seq<string>, w: int) {
    0 <= w < |t| && FirstAt(overrides, t[w].key) >= 0 &&
    forall j :: 0 <= j < |t| ==> FirstAt(overrides, t[j].key) <= FirstAt(overrides, t[w].key)
  }

  /** `w` is the slot that a pass finds, or -1 when it finds none. */
  ghost predicate Finds(s: Scan, overrides: seq<string>, r: Scan, w: int) {
    r.mod == s.mod &&
    if w == -1 then
      r.found == s.found && forall j :: 0 <= j < |s.table| ==> FirstAt(overrides, s.table[j].key) < 0
    else Rightmost(s.table, overrides, w) && r.found == Some(s.table[w].name)
  }

  lemma PassTakes(s: Scan, overrides: seq<string>)
    requires Distinct(s.table) && SinglePart(s.table) && |overrides| > 0
    ensures Pass(s, overrides) == Pass(Taken(s, overrides[0]), overrides[1..])
    ensures Distinct(Taken(s, overrides[0]).table)
  {
    var o, keys := overrides[0], Keys(s.table);
    assert forall k :: k in keys ==> Has(s.table, k) && ':' !in k;
    if Has(s.table, o) {
      assert keys[IndexOf(s.table, o)] == o;
    }
    VisitSingle(s, keys, o);
  }

  function Shifted(i: int): int { if i < 0 then -1 else i + 1 }

  /** Dropping the first override shifts every other position by one. */
  lemma FirstAtStep(overrides: seq<string>, k: string)
    requires |overrides| > 0 && k != overrides[0]
    ensures FirstAt(overrides, k) == Shifted(FirstAt(overrides[1..], k))
  {
  }

  lemma WithoutAt(t: Table, i: nat)
    requires i < |t|
    ensures var r := t[..i] + t[i + 1..];
            forall j :: 0 <= j < |t| && j != i ==> t[j] == r[if j < i then j else j - 1]
  {
  }

  lemma TakenStep(s: Scan, overrides: seq<string>, r: Scan, u: int) returns (w: int)
    requires Distinct(s.table) && |overrides| > 0
    requires Finds(Taken(s, overrides[0]), overrides[1..], r, u)
    ensures Finds(s, overrides, r, w)
  {
    hide FirstAt, Del, Finds;
    if Has(s.table, overrides[0]) {
      w := TakenHit(s, overrides, r, u);
    } else {
      w := u;
      forall j | 0 <= j < |s.table| ensures s.table[j].key != overrides[0] {}
      TakenMiss(s, overrides, r, u);
    }
  }

  lemma TakenMiss(s: Scan, overrides: seq<string>, r: Scan, u: int)
    requires |overrides| > 0 && forall j :: 0 <= j < |s.table| ==> s.table[j].key != overrides[0]
    requires Finds(s, overrides[1..], r, u)
    ensures Finds(s, overrides, r, u)
  {
    hide FirstAt;
    forall j | 0 <= j < |s.table|
      ensures FirstAt(overrides, s.table[j].key) == Shifted(FirstAt(overrides[1..], s.table[j].key))
    {
      FirstAtStep(overrides, s.table[j].key);
    }
  }

  lemma TakenTable(s: Scan, o: string) returns (d: nat)
    requires Distinct(s.table) && Has(s.table, o)
    ensures d < |s.table| && s.table[d].key == o
    ensures Taken(s, o) == Scan(s.table[..d] + s.table[d + 1..], Some(s.table[d].name), s.mod)
  {
    d := IndexOf(s.table, o);
  }

  lemma TakenHit(s: Scan, overrides: seq<string>, r: Scan, u: int) returns (w: int)
    requires Distinct(s.table) && |overrides| > 0 && Has(s.table, overrides[0])
    requires Finds(Taken(s, overrides[0]), overrides[1..], r, u)
    ensures Finds(s, overrides, r, w)
  {
    hide FirstAt, Taken, Has, Rightmost, Distinct;
    var d := TakenTable(s, overrides[0]);
    var t, rest := s.table, s.table[..d] + s.table[d + 1..];
    WithoutAt(t, d);
    w := if u == -1 then d else if u < d then u else u + 1;
    if u != -1 { RightmostBound(rest, overrides[1..], u); }
    PositionsWithout(t, rest, overrides, d, u, w);
  }

  lemma RightmostBound(t: Table, overrides: seq<string>, w: int)
    requires Rightmost(t, overrides, w)
    ensures 0 <= w < |t|
  {
  }

  /** The slot of the first override comes last; the others keep their order. */
  lemma PositionsWithout(t: Table, rest: Table, overrides: seq<string>, d: nat, u: int, w: int)
    requires Distinct(t) && |overrides| > 0 && d < |t| == |rest| + 1 && t[d].key == overrides[0]
    requires forall j :: 0 <= j < |t| && j != d ==> t[j] == rest[if j < d then j else j - 1]
    requires -1 <= u < |rest| && w == if u == -1 then d else if u < d then u else u + 1
    requires if u == -1 then forall j :: 0 <= j < |rest| ==> FirstAt(overrides[1..], rest[j].key) < 0
             else Rightmost(rest, overrides[1..], u)
    ensures Rightmost(t, overrides, w)
  {
    hide FirstAt;
    FirstIsFirst(overrides);
    assert u != -1 ==> w != d && t[w] == rest[u];
    if u != -1 { FirstAtStep(overrides, t[w].key); }
    forall j | 0 <= j < |t| && j != d
      ensures FirstAt(overrides, t[j].key) == Shifted(FirstAt(overrides[1..], rest[if j < d then j else j - 1].key))
    {
      FirstAtStep(overrides, t[j].key);
    }
  }

  lemma FirstIsFirst(overrides: seq<string>)
    requires |overrides| > 0
    ensures FirstAt(overrides, overrides[0]) == 0
  {
  }

  lemma TakenSinglePart(s: Scan, o: string)
    requires Distinct(s.table) && SinglePart(s.table)
    ensures SinglePart(Taken(s, o).table)
  {
    if Has(s.table, o) {
      var d := IndexOf(s.table, o);
      assert Taken(s, o).table == s.table[..d] + s.table[d + 1..];
    }
  }

  lemma {:induction false} PassSingle(s: Scan, overrides: seq<string>) returns (w: int)
    requires Distinct(s.table) && SinglePart(s.table)
    ensures Finds(s, overrides, Pass(s, overrides), w)
    decreases |overrides|
  {
    if |overrides| == 0 {
      w := -1;
    } else {
      PassTakes(s, overrides);
      TakenSinglePart(s, overrides[0]);
      var u := PassSingle(Taken(s, overrides[0]), overrides[1..]);
      w := TakenStep(s, overrides, Pass(s, overrides), u);
    }
  }

  /** Entry `i` is active and the last one with its key. */
  ghost predicate LastActive(entries: seq<Entry>, overrides: seq<string>, i: int) {
    0 <= i < |entries| && IsActive(entries[i].key, overrides) &&
    forall j :: i < j < |entries| ==> entries[j].key != entries[i].key
  }

  ghost function SlotOf(e: Entry): Slot { Slot(e.key, e.name) }

  /** The table holds, for each active key, the name of the last entry with that key. */
  lemma {:induction false} ActiveTableIsLast(entries: seq<Entry>, overrides: seq<string>)
    ensures forall e :: e in entries && IsActive(e.key, overrides) ==> Has(ActiveTable(entries, overrides), e.key)
    ensures forall s :: s in ActiveTable(entries, overrides) ==>
      exists i :: LastActive(entries, overrides, i) && s == SlotOf(entries[i])
  {
    if |entries| > 0 {
      var n := |entries| - 1;
      var front, e := entries[..n], entries[n];
      ActiveTableIsLast(front, overrides);
      var t := ActiveTable(front, overrides);
      var r := ActiveTable(entries, overrides);
      forall s | s in r
        ensures exists i :: LastActive(entries, overrides, i) && s == SlotOf(entries[i])
      {
        if IsActive(e.key, overrides) { PutSlots(t, e.key, e.name, s); }
        if IsActive(e.key, overrides) && s.key == e.key {
          assert LastActive(entries, overrides, n);
        } else {
          var i :| LastActive(front, overrides, i) && s == SlotOf(front[i]);
          StillLast(entries, overrides, i);
        }
      }
    }
  }

  lemma PutSlots(t: Table, k: string, n: string, s: Slot)
    requires Distinct(t) && s in Put(t, k, n)
    ensures s == Slot(k, n) || (s in t && s.key != k)
  {
    var r := Put(t, k, n);
    var i :| 0 <= i < |r| && r[i] == s;
    if s.key == k { assert r[if Has(t, k) then IndexOf(t, k) else |t|] == Slot(k, n); }
  }

  lemma StillLast(entries: seq<Entry>, overrides: seq<string>, i: int)
    requires |entries| > 0 && LastActive(entries[..|entries| - 1], overrides, i)
    requires IsActive(entries[|entries| - 1].key, overrides) ==> entries[|entries| - 1].key != entries[i].key
    ensures LastActive(entries, overrides, i)
  {
    hide IsActive;
  }

  /**
   With single-part keys a variant is chosen exactly when one is active, and the chosen one is the
   last entry for the key whose first occurrence in OVERRIDES is rightmost.
   */
  lemma RightmostOverrideWins(entries: seq<Entry>, overrides: seq<string>)
    requires forall e :: e in entries && IsActive(e.key, overrides) ==> ':' !in e.key
    ensures Choose(entries, overrides).None? <==> forall e :: e in entries ==> e.key !in overrides
    ensures Choose(entries, overrides).Some? ==>
      exists i :: LastActive(entries, overrides, i) &&
        Choose(entries, overrides) == Some(entries[i].name) &&
        forall e :: e in entries ==> FirstAt(overrides, e.key) <= FirstAt(overrides, entries[i].key)
  {
    var t := ActiveTable(entries, overrides);
    ActiveTableIsLast(entries, overrides);
    forall k | 0 <= k < |t|
      ensures ':' !in t[k].key && t[k].key in overrides
    {
      assert t[k] in t;
      var i :| LastActive(entries, overrides, i) && t[k] == SlotOf(entries[i]);
      assert entries[i] in entries;
    }
    var w := PassSingle(Scan(t, None, false), overrides);
    forall e | e in entries && e.key in overrides
      ensures w >= 0 && FirstAt(overrides, e.key) <= FirstAt(overrides, t[w].key)
    {
      assert IsActive(e.key, overrides) && Has(t, e.key);
      assert t[IndexOf(t, e.key)].key == e.key;
    }
    if w >= 0 {
      assert t[w] in t;
      var i :| LastActive(entries, overrides, i) && t[w] == SlotOf(entries[i]);
      assert entries[i] in entries && entries[i].key in overrides;
    }
  }
}
