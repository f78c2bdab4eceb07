/** The choice among the recipe files that provide something. */
module Providers {
  import opened Wrappers
  import opened Sorting
  import Text

  datatype Version = Version(pe: string, pv: string, pr: string)

  /** `pkg_fn`, `bbfile_priority`, `pkg_dp` and `pkg_pepvpr` of one file. */
  datatype Recipe = Recipe(pn: string, priority: int, dp: int, ver: Version)

  type Recipes = map<string, Recipe>

  predicate Cached(recs: Recipes, files: seq<string>) { forall f <- files :: f in recs }

  // ----- sortPriorities -----

  /** The files of one priority and preference, in their order. */
  function Pick(recs: Recipes, files: seq<string>, p: int, d: int): seq<string>
    requires Cached(recs, files)
  {
    if |files| == 0 then []
    else
      var f := files[|files| - 1];
      Pick(recs, files[..|files| - 1], p, d) + if recs[f].priority == p && recs[f].dp == d then [f] else []
  }

  lemma {:induction false} PickAppend(recs: Recipes, a: seq<string>, b: seq<string>, p: int, d: int)
    requires Cached(recs, a) && Cached(recs, b)
    ensures Pick(recs, a + b, p, d) == Pick(recs, a, p, d) + Pick(recs, b, p, d)
    decreases |b|
  {
    if |b| == 0 {
      assert a + b == a;
    } else {
      assert (a + b)[..|a + b| - 1] == a + b[..|b| - 1];
      PickAppend(recs, a, b[..|b| - 1], p, d);
    }
  }

  lemma {:induction false} PickMembers(recs: Recipes, files: seq<string>, p: int, d: int)
    requires Cached(recs, files)
    ensures forall f :: f in Pick(recs, files, p, d) <==> f in files && recs[f].priority == p && recs[f].dp == d
    decreases |files|
  {
    if |files| > 0 {
      assert files == files[..|files| - 1] + [files[|files| - 1]];
      PickMembers(recs, files[..|files| - 1], p, d);
    }
  }

  /** Picking from files that are all alike gives all of them or none. */
  lemma {:induction false} PickAlike(recs: Recipes, files: seq<string>, p: int, d: int, q: int, e: int)
    requires Cached(recs, files) && forall f <- files :: recs[f].priority == p && recs[f].dp == d
    ensures Pick(recs, files, q, e) == if p == q && d == e then files else []
    decreases |files|
  {
    if |files| > 0 {
      assert files == files[..|files| - 1] + [files[|files| - 1]];
      PickAlike(recs, files[..|files| - 1], p, d, q, e);
    }
  }

  lemma {:induction false} PickCounts(recs: Recipes, files: seq<string>, f: string)
    requires Cached(recs, files) && f in recs
    ensures multiset(Pick(recs, files, recs[f].priority, recs[f].dp))[f] == multiset(files)[f]
    decreases |files|
  {
    if |files| > 0 {
      assert files == files[..|files| - 1] + [files[|files| - 1]];
      PickCounts(recs, files[..|files| - 1], f);
    }
  }

  function Flatten(groups: seq<seq<string>>): seq<string> {
    if |groups| == 0 then [] else groups[0] + Flatten(groups[1..])
  }

  /** The same files at each priority and preference, in the same order. */
  ghost predicate Rearranged(recs: Recipes, a: seq<string>, b: seq<string>)
    requires Cached(recs, b)
  {
    Cached(recs, a) && forall p, d :: Pick(recs, a, p, d) == Pick(recs, b, p, d)
  }

  lemma RearrangedIsPermutation(recs: Recipes, a: seq<string>, b: seq<string>)
    requires Cached(recs, b) && Rearranged(recs, a, b)
    ensures multiset(a) == multiset(b)
  {
    forall f ensures multiset(a)[f] == multiset(b)[f] {
      if f in recs {
        PickCounts(recs, a, f);
        PickCounts(recs, b, f);
      } else {
        assert f !in a && f !in b;
      }
    }
  }

  /** Files of one priority, by rising preference. */
  ghost predicate Group(recs: Recipes, group: seq<string>, p: int) {
    && group != [] && Cached(recs, group)
    && (forall f <- group :: recs[f].priority == p)
    && forall i, j :: 0 <= i < j < |group| ==> recs[group[i]].dp <= recs[group[j]].dp
  }

  /** Groups of falling priority. */
  ghost predicate Grouped(recs: Recipes, groups: seq<seq<string>>, pris: seq<int>) {
    && |groups| == |pris| && Rising(pris)
    && forall i :: 0 <= i < |groups| ==> Group(recs, groups[i], pris[|pris| - 1 - i])
  }

  type Table = map<int, map<int, seq<string>>>

  function Cell(table: Table, p: int, d: int): seq<string> {
    if p in table && d in table[p] then table[p][d] else []
  }

  /** `priorities` after the given files. */
  ghost predicate Tabled(recs: Recipes, table: Table, files: seq<string>) {
    && Cached(recs, files)
    && (forall p, d :: Cell(table, p, d) == Pick(recs, files, p, d))
    && (forall p <- table.Keys :: table[p] != map[])
    && (forall p <- table.Keys, d <- table[p].Keys :: table[p][d] != [])
  }

  method Tabulate(recs: Recipes, files: seq<string>) returns (table: Table)
    requires Cached(recs, files)
    ensures Tabled(recs, table, files)
  {
    table := map[];
    for i := 0 to |files|
      invariant Tabled(recs, table, files[..i])
    {
      var f := files[i];
      var p, d := recs[f].priority, recs[f].dp;
      ghost var was := table;
      if p !in table {
        table := table[p := map[]];
      }
      if d !in table[p] {
        table := table[p := table[p][d := []]];
      }
      table := table[p := table[p][d := table[p][d] + [f]]];
      assert table[p] == (if p in was then was[p] else map[])[d := Cell(was, p, d) + [f]];
      assert table == was[p := (if p in was then was[p] else map[])[d := Cell(was, p, d) + [f]]];
      TabledNext(recs, was, table, files, i);
    }
    assert files[..|files|] == files;
  }

  lemma TabledNext(recs: Recipes, was: Table, table: Table, files: seq<string>, i: nat)
    requires i < |files| && Cached(recs, files) && Tabled(recs, was, files[..i])
    requires var (f, p, d) := (files[i], recs[files[i]].priority, recs[files[i]].dp);
             table == was[p := (if p in was then was[p] else map[])[d := Cell(was, p, d) + [f]]]
    ensures Tabled(recs, table, files[..i + 1])
  {
    hide Pick, Cell;
    var f := files[i];
    var p0, d0 := recs[f].priority, recs[f].dp;
    CellsNext(was, table, p0, d0, f);
    RowsNext(was, table, p0, d0, f);
    forall p, d ensures Cell(table, p, d) == Pick(recs, files[..i + 1], p, d) {
      assert Cell(was, p, d) == Pick(recs, files[..i], p, d);
      PickNext(recs, files, i, p, d);
    }
    assert forall g <- files[..i + 1] :: g in files;
  }

  lemma PickNext(recs: Recipes, files: seq<string>, i: nat, p: int, d: int)
    requires i < |files| && Cached(recs, files)
    ensures var r := recs[files[i]];
            Pick(recs, files[..i + 1], p, d)
            == Pick(recs, files[..i], p, d) + if r.priority == p && r.dp == d then [files[i]] else []
  {
    assert files[..i + 1][..i] == files[..i];
  }

  lemma CellsNext(was: Table, table: Table, p0: int, d0: int, f: string)
    requires table == was[p0 := (if p0 in was then was[p0] else map[])[d0 := Cell(was, p0, d0) + [f]]]
    ensures forall p, d :: Cell(table, p, d) == Cell(was, p, d) + if p == p0 && d == d0 then [f] else []
  {
  }

  lemma RowsNext(was: Table, table: Table, p0: int, d0: int, f: string)
    requires table == was[p0 := (if p0 in was then was[p0] else map[])[d0 := Cell(was, p0, d0) + [f]]]
    requires forall p <- was.Keys :: was[p] != map[] && forall d <- was[p].Keys :: was[p][d] != []
    ensures forall p <- table.Keys :: table[p] != map[] && forall d <- table[p].Keys :: table[p][d] != []
  {
    assert d0 in table[p0];
  }

  /** One inner list: the preferences of a priority in rising order. */
  method Preferences(recs: Recipes, ghost files: seq<string>, table: Table, p: int) returns (group: seq<string>)
    requires Tabled(recs, table, files) && p in table
    ensures Group(recs, group, p)
    ensures forall q, d :: Pick(recs, group, q, d) == if q == p then Cell(table, p, d) else []
  {
    hide Pick, Tabled, Cell, Group, PartOf, PicksPart;
    TabledMeans(recs, table, files, p);
    var prefs := Ascending(table[p].Keys);
    group := [];
    NoPart(recs, table, p, prefs);
    for j := 0 to |prefs|
      invariant PartOf(recs, group, p, prefs[..j]) && PicksPart(recs, table, group, p, prefs[..j])
      invariant j > 0 ==> group != []
    {
      var more := table[p][prefs[j]];
      assert prefs[j] in prefs && prefs[..j + 1] == prefs[..j] + [prefs[j]];
      PickMembers(recs, files, p, prefs[j]);
      AppendMembers(recs, group, more, p, prefs[..j], prefs[j]);
      AppendPicks(recs, table, group, more, p, prefs[..j], prefs[j]);
      group := group + more;
    }
    assert prefs[..|prefs|] == prefs;
    PartIsGroup(recs, table, group, p, prefs);
  }

  /** Files of one priority and some preferences, by rising preference. */
  ghost predicate PartOf(recs: Recipes, group: seq<string>, p: int, prefs: seq<int>) {
    && Cached(recs, group)
    && (forall f <- group :: recs[f].priority == p && recs[f].dp in prefs)
    && forall i, j :: 0 <= i < j < |group| ==> recs[group[i]].dp <= recs[group[j]].dp
  }

  /** And all the files of those, in their order. */
  ghost predicate PicksPart(recs: Recipes, table: Table, group: seq<string>, p: int, prefs: seq<int>) {
    && Cached(recs, group)
    && forall q, d :: Pick(recs, group, q, d) == if q == p && d in prefs then Cell(table, p, d) else []
  }

  lemma NoPart(recs: Recipes, table: Table, p: int, prefs: seq<int>)
    ensures PartOf(recs, [], p, prefs[..0]) && PicksPart(recs, table, [], p, prefs[..0])
  {
  }

  lemma AppendMembers(recs: Recipes, group: seq<string>, more: seq<string>, p: int, prefs: seq<int>, d: int)
    requires PartOf(recs, group, p, prefs) && Cached(recs, more) && forall e <- prefs :: e < d
    requires forall f <- more :: recs[f].priority == p && recs[f].dp == d
    ensures PartOf(recs, group + more, p, prefs + [d])
  {
    var all := group + more;
    forall f <- all ensures f in recs && recs[f].priority == p && recs[f].dp in prefs + [d] {
      assert f in group || f in more;
    }
    forall i, j | 0 <= i < j < |all| ensures recs[all[i]].dp <= recs[all[j]].dp {
      assert all[i] in group || all[i] in more;
      assert if j < |group| then all[j] == group[j] else all[j] in more;
    }
  }

  lemma AppendPicks(
      recs: Recipes, table: Table, group: seq<string>, more: seq<string>, p: int, prefs: seq<int>, d: int)
    requires PicksPart(recs, table, group, p, prefs) && Cached(recs, more) && d !in prefs
    requires (forall f <- more :: recs[f].priority == p && recs[f].dp == d) && more == Cell(table, p, d)
    ensures PicksPart(recs, table, group + more, p, prefs + [d])
  {
    hide Pick, Cell;
    forall q, e
      ensures Pick(recs, group + more, q, e) == if q == p && e in prefs + [d] then Cell(table, p, e) else []
    {
      PickAppend(recs, group, more, q, e);
      PickAlike(recs, more, p, d, q, e);
    }
  }

  lemma PartIsGroup(recs: Recipes, table: Table, group: seq<string>, p: int, prefs: seq<int>)
    requires group != [] && PartOf(recs, group, p, prefs) && PicksPart(recs, table, group, p, prefs)
    requires forall d | d !in prefs :: Cell(table, p, d) == []
    ensures Group(recs, group, p)
    ensures forall q, d :: Pick(recs, group, q, d) == if q == p then Cell(table, p, d) else []
  {
    hide Pick, Cell;
  }

  lemma TabledMeans(recs: Recipes, table: Table, files: seq<string>, p: int)
    requires Tabled(recs, table, files) && p in table
    ensures table[p].Keys != {} && Cached(recs, files)
    ensures forall d <- table[p].Keys ::
              table[p][d] == Cell(table, p, d) && table[p][d] == Pick(recs, files, p, d) && table[p][d] != []
    ensures forall d | d !in table[p] :: Cell(table, p, d) == []
  {
    hide Pick;
    assert table[p] != map[];
  }

  /**
   `sortPriorities`: the files in groups of strictly falling priority, each by rising preference, and
   alike ones in the order they came.
   */
  method SortPriorities(recs: Recipes, files: seq<string>) returns (tmp_pn: seq<seq<string>>, ghost pris: seq<int>)
    requires Cached(recs, files)
    ensures Grouped(recs, tmp_pn, pris)
    ensures Rearranged(recs, Flatten(tmp_pn), files)
    ensures multiset(Flatten(tmp_pn)) == multiset(files)
  {
    hide Pick, Group, Grouped, Tabled, Cell, Flatten, Holding, Rearranged;
    var table := Tabulate(recs, files);
    var order := Ascending(table.Keys);
    tmp_pn := [];
    NoGroups(recs, table);
    for i := 0 to |order|
      invariant Grouped(recs, tmp_pn, order[..i]) && Holding(recs, table, Flatten(tmp_pn), order[..i])
    {
      var pri := order[i];
      assert pri in order && order[..i + 1] == order[..i] + [pri];
      var tmp_pref := Preferences(recs, files, table, pri);
      AddGroup(recs, table, tmp_pref, tmp_pn, order[..i], pri);
      tmp_pn := [tmp_pref] + tmp_pn;
    }
    assert order[..|order|] == order;
    pris := order;
    HoldingAll(recs, table, files, Flatten(tmp_pn), order);
    RearrangedIsPermutation(recs, Flatten(tmp_pn), files);
  }

  /** The list holds the files of the given priorities. */
  ghost predicate Holding(recs: Recipes, table: Table, files: seq<string>, pris: seq<int>) {
    Cached(recs, files) && forall p, d :: Pick(recs, files, p, d) == if p in pris then Cell(table, p, d) else []
  }

  lemma HoldingAll(recs: Recipes, table: Table, files: seq<string>, all: seq<string>, order: seq<int>)
    requires Tabled(recs, table, files) && Holding(recs, table, all, order) && forall p :: p in order <==> p in table
    ensures Rearranged(recs, all, files)
  {
    hide Pick;
  }

  lemma NoGroups(recs: Recipes, table: Table)
    ensures Grouped(recs, [], []) && Holding(recs, table, Flatten([]), [])
  {
  }

  lemma GroupOnTop(recs: Recipes, groups: seq<seq<string>>, pris: seq<int>, group: seq<string>, p: int)
    requires Grouped(recs, groups, pris) && Group(recs, group, p) && Rising(pris + [p])
    ensures Grouped(recs, [group] + groups, pris + [p])
  {
    hide Group;
  }

  lemma AddGroup(
      recs: Recipes, table: Table, group: seq<string>, groups: seq<seq<string>>, pris: seq<int>, pri: int)
    requires Holding(recs, table, Flatten(groups), pris) && pri !in pris && Group(recs, group, pri)
    requires forall q, d :: Pick(recs, group, q, d) == if q == pri then Cell(table, pri, d) else []
    requires Grouped(recs, groups, pris) && Rising(pris + [pri])
    ensures Flatten([group] + groups) == group + Flatten(groups)
    ensures Holding(recs, table, Flatten([group] + groups), pris + [pri])
    ensures Grouped(recs, [group] + groups, pris + [pri])
  {
    hide Pick, Cell, Grouped;
    GroupOnTop(recs, groups, pris, group, pri);
    assert ([group] + groups)[1..] == groups;
    forall p, d ensures Pick(recs, group + Flatten(groups), p, d) ==
      if p in pris + [pri] then Cell(table, p, d) else [] {
      PickAppend(recs, group, Flatten(groups), p, d);
    }
  }

  // ----- wanted versions -----

  /** `cfgData.getVar` */
  type Config = string -> Option<string>

  predicate Falsy(v: Option<string>) { v.None? || v.value == "" }

  /** `versionVariableMatch` */
  function VersionVariable(cfg: Config, keyword: string, pn: string): Option<string> {
    var v1 := cfg(keyword + "_VERSION:pn-" + pn);
    var v2 := if Falsy(v1) then cfg(keyword + "_VERSION_" + pn) else v1;
    if Falsy(v2) then cfg(keyword + "_VERSION") else v2
  }

  predicate IsDigit(c: char) { '0' <= c <= '9' }

  function DigitsEnd(s: string): (i: nat)
    ensures i <= |s|
  {
    if |s| == 0 || !IsDigit(s[0]) then 0 else 1 + DigitsEnd(s[1..])
  }

  /** The match of `(\d+:)*(.*)(_.*)*`: the last epoch, and all the rest of the line, so never a revision. */
  function ParseWanted(s: string, epoch: Option<string>): (Option<string>, string)
    decreases |s|
  {
    var i := DigitsEnd(s);
    if 0 < i < |s| && s[i] == ':' then ParseWanted(s[i + 1..], Some(s[..i]))
    else (epoch, s[..Text.FindOrEnd(s, '\n')])
  }

  lemma {:induction false} NoEpoch(s: string, epoch: Option<string>)
    requires ':' !in s && '\n' !in s
    ensures ParseWanted(s, epoch) == (epoch, s)
  {
    var i := DigitsEnd(s);
    if 0 < i < |s| { assert s[i] in s; }
    var j := Text.FindOrEnd(s, '\n');
    assert j == |s|;
    assert s[..|s|] == s;
  }

  /** A wanted `version_revision` is compared as a whole with the version, whatever the recipe's revision. */
  lemma RevisionIsNotSplit(v: Version, pv: string, pr: string)
    requires forall c <- pv + "_" + pr :: c != ':' && c != '\n' && c != '%'
    ensures var (epoch, wanted) := ParseWanted(pv + "_" + pr, None);
      VersionMatch(v, epoch, wanted) <==> v.pv == pv + "_" + pr
  {
    var s := pv + "_" + pr;
    NoEpoch(s, None);
    assert s[|s| - 1] in s;
  }

  /** `preferredVersionMatch` without a wanted revision. */
  predicate VersionMatch(v: Version, epoch: Option<string>, wanted: string) {
    && (epoch.None? || v.pe == epoch.value)
    && (wanted == v.pv
        || (|wanted| > 0 && wanted[|wanted| - 1] == '%' && Text.StartsWith(v.pv, wanted[..|wanted| - 1])))
  }

  function RequiredVersion(cfg: Config, pn: string): Option<string> { VersionVariable(cfg, "REQUIRED", pn) }

  /** The version asked for; a required one wins over a preferred one. */
  function Wanted(cfg: Config, pn: string): Option<string> {
    if RequiredVersion(cfg, pn).Some? then RequiredVersion(cfg, pn) else VersionVariable(cfg, "PREFERRED", pn)
  }

  predicate Matches(cfg: Config, pn: string, r: Recipe) {
    var w := Wanted(cfg, pn);
    !Falsy(w) && var (epoch, wanted) := ParseWanted(w.value, None); VersionMatch(r.ver, epoch, wanted)
  }

  /** The first file that matches. */
  function FindMatch(recs: Recipes, cfg: Config, pn: string, files: seq<string>): (f: Option<string>)
    requires Cached(recs, files)
    ensures f.None? ==> NoMatch(recs, cfg, pn, files)
    ensures f.Some? ==> IsFirstMatch(recs, cfg, pn, files, f.value)
  {
    if |files| == 0 then None
    else if Matches(cfg, pn, recs[files[0]]) then Some(files[0])
    else
      assert files == [files[0]] + files[1..];
      var f := FindMatch(recs, cfg, pn, files[1..]);
      assert f.Some? ==> IsFirstMatch(recs, cfg, pn, files, f.value) by {
        if f.Some? { MatchesLater(recs, cfg, pn, files, f.value); }
      }
      f
  }

  predicate IsFirstMatch(recs: Recipes, cfg: Config, pn: string, files: seq<string>, f: string)
    requires Cached(recs, files)
  {
    exists k :: 0 <= k < |files| && files[k] == f && Matches(cfg, pn, recs[f]) &&
      forall l :: 0 <= l < k ==> !Matches(cfg, pn, recs[files[l]])
  }

  lemma MatchesLater(recs: Recipes, cfg: Config, pn: string, files: seq<string>, f: string)
    requires Cached(recs, files) && |files| > 0 && !Matches(cfg, pn, recs[files[0]]) && Cached(recs, files[1..])
    requires IsFirstMatch(recs, cfg, pn, files[1..], f)
    ensures IsFirstMatch(recs, cfg, pn, files, f)
  {
    hide Matches;
    var k :| 0 <= k < |files| - 1 && files[1..][k] == f && Matches(cfg, pn, recs[f]) &&
      forall l :: 0 <= l < k ==> !Matches(cfg, pn, recs[files[1..][l]]);
    assert forall l :: 0 < l < k + 1 ==> files[l] == files[1..][l - 1];
    assert files[k + 1] == f;
  }

  lemma {:induction false} FindMatchAppend(recs: Recipes, cfg: Config, pn: string, a: seq<string>, b: seq<string>)
    requires Cached(recs, a) && Cached(recs, b)
    ensures FindMatch(recs, cfg, pn, a + b)
         == if FindMatch(recs, cfg, pn, a).Some? then FindMatch(recs, cfg, pn, a) else FindMatch(recs, cfg, pn, b)
  {
    hide Matches;
    if |a| == 0 {
      assert a + b == b;
    } else {
      assert (a + b)[1..] == a[1..] + b;
      FindMatchAppend(recs, cfg, pn, a[1..], b);
    }
  }

  ghost predicate NoMatch(recs: Recipes, cfg: Config, pn: string, files: seq<string>)
    requires Cached(recs, files)
  {
    forall f <- files :: !Matches(cfg, pn, recs[f])
  }

  /** What a preferred file is: it matches, at the highest priority that does, and the lowest preference there. */
  ghost predicate Preferred(recs: Recipes, cfg: Config, pn: string, files: seq<string>, f: string)
    requires Cached(recs, files)
  {
    && f in files && Matches(cfg, pn, recs[f])
    && forall g <- files | Matches(cfg, pn, recs[g]) ::
         recs[g].priority < recs[f].priority || (recs[g].priority == recs[f].priority && recs[f].dp <= recs[g].dp)
  }

  /** Higher priority first, then lower preference. */
  predicate Before(a: Recipe, b: Recipe) {
    a.priority > b.priority || (a.priority == b.priority && a.dp <= b.dp)
  }

  lemma {:induction false} FlattenFalls(recs: Recipes, groups: seq<seq<string>>, pris: seq<int>)
    requires Grouped(recs, groups, pris)
    ensures Cached(recs, Flatten(groups))
    ensures forall f <- Flatten(groups) :: recs[f].priority in pris
    ensures forall i, j :: 0 <= i < j < |Flatten(groups)| ==> Before(recs[Flatten(groups)[i]], recs[Flatten(groups)[j]])
    decreases |groups|
  {
    if |groups| > 0 {
      var rest, n := groups[1..], |pris| - 1;
      assert Group(recs, groups[0], pris[n]);
      RestIsGrouped(recs, groups, pris);
      FlattenFalls(recs, rest, pris[..n]);
      forall f <- Flatten(rest) ensures recs[f].priority < pris[n] {
        var k :| 0 <= k < n && pris[..n][k] == recs[f].priority;
      }
    }
  }

  lemma FirstMatchIsPreferred(recs: Recipes, cfg: Config, pn: string, groups: seq<seq<string>>, pris: seq<int>,
      f: string)
    requires Grouped(recs, groups, pris) && Cached(recs, Flatten(groups))
    requires FindMatch(recs, cfg, pn, Flatten(groups)) == Some(f)
    ensures Preferred(recs, cfg, pn, Flatten(groups), f)
  {
    hide Matches, Grouped, Flatten;
    FlattenFalls(recs, groups, pris);
    var all := Flatten(groups);
    var k :| 0 <= k < |all| && all[k] == f && forall l :: 0 <= l < k ==> !Matches(cfg, pn, recs[all[l]]);
    forall g <- all | Matches(cfg, pn, recs[g])
      ensures recs[g].priority < recs[f].priority || (recs[g].priority == recs[f].priority && recs[f].dp <= recs[g].dp)
    {
      var l :| 0 <= l < |all| && all[l] == g;
      assert l == k || k < l;
    }
  }

  lemma FlattenFrom(groups: seq<seq<string>>, i: nat)
    requires i < |groups|
    ensures Flatten(groups[i..]) == groups[i] + Flatten(groups[i + 1..])
  {
    assert groups[i..][1..] == groups[i + 1..];
  }

  lemma CachedParts(recs: Recipes, a: seq<string>, b: seq<string>)
    requires Cached(recs, a + b)
    ensures Cached(recs, a) && Cached(recs, b)
  {
    assert forall f <- b :: f in a + b;
  }

  lemma {:induction false} NothingAsked(recs: Recipes, cfg: Config, pn: string, files: seq<string>)
    requires Cached(recs, files) && Falsy(Wanted(cfg, pn))
    ensures FindMatch(recs, cfg, pn, files) == None
  {
  }

  /** The inner loop, over one file set. */
  method InFileSet(recs: Recipes, cfg: Config, pn: string, file_set: seq<string>, epoch: Option<string>, wanted: string)
    returns (file: Option<string>)
    requires Cached(recs, file_set)
    requires !Falsy(Wanted(cfg, pn)) && ParseWanted(Wanted(cfg, pn).value, None) == (epoch, wanted)
    ensures file == FindMatch(recs, cfg, pn, file_set)
  {
    hide ParseWanted, VersionMatch;
    file := None;
    for j := 0 to |file_set|
      invariant file.None? && FindMatch(recs, cfg, pn, file_set) == FindMatch(recs, cfg, pn, file_set[j..])
    {
      assert file_set[j..][1..] == file_set[j + 1..];
      if VersionMatch(recs[file_set[j]].ver, epoch, wanted) {
        file := Some(file_set[j]);
        return;
      }
    }
  }

  /** `findPreferredProvider` */
  method FindPreferredProvider(recs: Recipes, cfg: Config, pn: string, groups: seq<seq<string>>)
    returns (ver: Option<Version>, file: Option<string>, required: bool)
    requires Cached(recs, Flatten(groups))
    ensures file == FindMatch(recs, cfg, pn, Flatten(groups))
    ensures required <==> RequiredVersion(cfg, pn).Some?
    ensures ver == if file.Some? && file.value in recs then Some(recs[file.value].ver) else None
  {
    hide Matches, FindMatch, VersionMatch, ParseWanted, VersionVariable;
    var required_v, preferred_v := RequiredVersion(cfg, pn), VersionVariable(cfg, "PREFERRED", pn);
    ver, file, required := None, None, required_v.Some?;
    if required_v.Some? {
      preferred_v := required_v;
    }
    if Falsy(preferred_v) {
      NothingAsked(recs, cfg, pn, Flatten(groups));
      return;
    }
    var (epoch, wanted) := ParseWanted(preferred_v.value, None);
    for i := 0 to |groups|
      invariant Cached(recs, Flatten(groups[i..])) && ver.None? && file.None?
      invariant FindMatch(recs, cfg, pn, Flatten(groups)) == FindMatch(recs, cfg, pn, Flatten(groups[i..]))
    {
      FlattenFrom(groups, i);
      CachedParts(recs, groups[i], Flatten(groups[i + 1..]));
      FindMatchAppend(recs, cfg, pn, groups[i], Flatten(groups[i + 1..]));
      file := InFileSet(recs, cfg, pn, groups[i], epoch, wanted);
      if file.Some? {
        ver := Some(recs[file.value].ver);
        return;
      }
    }
  }

  // ----- the latest version -----

  /** `vercmp`, of which only the order is known. */
  type Cmp = (Version, Version) -> int

  ghost predicate IsVercmp(cmp: Cmp) {
    && (forall a, b :: cmp(a, b) < 0 <==> cmp(b, a) > 0)
    && (forall a, b, c :: cmp(a, b) <= 0 && cmp(b, c) <= 0 ==> cmp(a, c) <= 0)
  }

  predicate NoBetter(cmp: Cmp, a: Recipe, b: Recipe) {
    a.dp < b.dp || (a.dp == b.dp && cmp(a.ver, b.ver) <= 0)
  }

  ghost predicate Latest(recs: Recipes, cmp: Cmp, files: seq<string>, f: string)
    requires Cached(recs, files)
  {
    f in files && forall g <- files :: NoBetter(cmp, recs[g], recs[f])
  }

  /** `findLatestProvider`: the greatest preference, and the greatest version at it. */
  method FindLatestProvider(recs: Recipes, cmp: Cmp, file_set: seq<string>)
    returns (latest: Option<Version>, latest_f: Option<string>)
    requires Cached(recs, file_set) && IsVercmp(cmp)
    ensures latest_f.Some? <==> file_set != []
    ensures latest_f.Some? ==> Latest(recs, cmp, file_set, latest_f.value) && latest == Some(recs[latest_f.value].ver)
    ensures latest_f.None? ==> latest.None?
  {
    hide IsVercmp;
    latest, latest_f := None, None;
    var latest_p := 0;
    for i := 0 to |file_set|
      invariant latest_f.Some? <==> i > 0
      invariant latest.Some? <==> i > 0
      invariant i > 0 ==> Latest(recs, cmp, file_set[..i], latest_f.value)
      invariant i > 0 ==> latest == Some(recs[latest_f.value].ver) && latest_p == recs[latest_f.value].dp
    {
      var file_name := file_set[i];
      var ver, dp := recs[file_name].ver, recs[file_name].dp;
      LatestNext(recs, cmp, file_set, i, if i == 0 then file_name else latest_f.value);
      if latest.None? || (latest_p == dp && cmp(latest.value, ver) < 0) || dp > latest_p {
        latest, latest_f, latest_p := Some(ver), Some(file_name), dp;
      }
    }
    assert file_set[..|file_set|] == file_set;
  }

  lemma LatestNext(recs: Recipes, cmp: Cmp, files: seq<string>, i: nat, f: string)
    requires Cached(recs, files) && IsVercmp(cmp) && i < |files| && f in files
    requires i > 0 ==> Latest(recs, cmp, files[..i], f)
    requires i == 0 ==> f == files[0]
    ensures var (old_, new_) := (recs[f], recs[files[i]]);
            if i == 0 || (old_.dp == new_.dp && cmp(old_.ver, new_.ver) < 0) || new_.dp > old_.dp
            then Latest(recs, cmp, files[..i + 1], files[i])
            else Latest(recs, cmp, files[..i + 1], f)
  {
    assert files[..i + 1] == files[..i] + [files[i]];
    var new_ := recs[files[i]];
    assert cmp(new_.ver, new_.ver) == 0;
  }

  // ----- findBestProvider -----

  /** At the highest priority of all, the greatest preference and then the greatest version. */
  ghost predicate Best(recs: Recipes, cmp: Cmp, files: seq<string>, f: string)
    requires Cached(recs, files)
  {
    f in files && forall g <- files ::
      recs[g].priority < recs[f].priority || (recs[g].priority == recs[f].priority && NoBetter(cmp, recs[g], recs[f]))
  }

  /** All the files of the highest priority, and no others. */
  ghost predicate Top(recs: Recipes, files: seq<string>, top: seq<string>)
    requires Cached(recs, files)
  {
    && top != [] && Cached(recs, top) && (forall f <- top :: f in files)
    && forall f <- top, g <- files ::
         (g in top && recs[g].priority == recs[f].priority) || recs[g].priority < recs[f].priority
  }

  lemma TopHasBest(recs: Recipes, cmp: Cmp, files: seq<string>, top: seq<string>, f: string)
    requires Cached(recs, files) && Top(recs, files, top) && Latest(recs, cmp, top, f)
    ensures Best(recs, cmp, files, f)
  {
  }

  lemma TopOf(recs: Recipes, files: seq<string>, groups: seq<seq<string>>, pris: seq<int>)
    requires Cached(recs, files) && Grouped(recs, groups, pris) && multiset(Flatten(groups)) == multiset(files)
    requires groups != []
    ensures Top(recs, files, groups[0])
  {
    SameMembers(Flatten(groups), files);
    var rest, n := groups[1..], |pris| - 1;
    assert Group(recs, groups[0], pris[n]);
    RestIsGrouped(recs, groups, pris);
    FlattenFalls(recs, rest, pris[..n]);
    assert forall f <- groups[0] :: f in Flatten(groups);
    forall f <- groups[0], g <- files
      ensures (g in groups[0] && recs[g].priority == recs[f].priority) || recs[g].priority < recs[f].priority
    {
      assert g in groups[0] + Flatten(rest);
      if g !in groups[0] {
        var k :| 0 <= k < n && pris[..n][k] == recs[g].priority;
      }
    }
  }

  lemma RestIsGrouped(recs: Recipes, groups: seq<seq<string>>, pris: seq<int>)
    requires Grouped(recs, groups, pris) && |groups| > 0
    ensures Grouped(recs, groups[1..], pris[..|pris| - 1])
  {
    hide Group;
    var rest, n := groups[1..], |pris| - 1;
    forall i | 0 <= i < |rest| ensures Group(recs, rest[i], pris[..n][n - 1 - i]) {
      assert Group(recs, groups[i + 1], pris[|pris| - 1 - (i + 1)]);
    }
  }

  /** What is chosen for a name: the preferred file if some file matches, the best one otherwise. */
  ghost predicate Chosen(recs: Recipes, cfg: Config, cmp: Cmp, pn: string, files: seq<string>, f: string)
    requires Cached(recs, files)
  {
    if NoMatch(recs, cfg, pn, files) then Best(recs, cmp, files, f) else Preferred(recs, cfg, pn, files, f)
  }

  /** `findBestProvider`; IndexError without any file. */
  method FindBestProvider(recs: Recipes, cfg: Config, cmp: Cmp, pn: string, files: seq<string>)
    returns (r: Result<(Option<Version>, Option<string>, Option<Version>, Option<string>, bool)>)
    requires Cached(recs, files) && IsVercmp(cmp)
    ensures r.Ok? <==> files != []
    ensures r.Ok? ==>
              var (latest, latest_f, preferred_ver, preferred_file, required) := r.value;
              && latest_f.Some? && Best(recs, cmp, files, latest_f.value) && latest == Some(recs[latest_f.value].ver)
              && (required <==> RequiredVersion(cfg, pn).Some?)
              && (preferred_file.None? <==> required && NoMatch(recs, cfg, pn, files))
              && (preferred_file.Some? ==> Chosen(recs, cfg, cmp, pn, files, preferred_file.value))
              && preferred_ver == if preferred_file.None? then None else Some(recs[preferred_file.value].ver)
  {
    hide Matches, FindMatch, Grouped, Rearranged, Flatten, Latest, Best, Preferred, NoMatch;
    var sortpkg_pn, pris := SortPriorities(recs, files);
    GroupsMean(recs, files, sortpkg_pn, pris);
    var preferred_ver, preferred_file, required := FindPreferredProvider(recs, cfg, pn, sortpkg_pn);
    if sortpkg_pn == [] {
      return Raised;
    }
    var latest, latest_f := FindLatestProvider(recs, cmp, sortpkg_pn[0]);
    TopOf(recs, files, sortpkg_pn, pris);
    TopHasBest(recs, cmp, files, sortpkg_pn[0], latest_f.value);
    PreferredOrNone(recs, cfg, pn, files, sortpkg_pn, pris);
    if !required && preferred_file.None? {
      preferred_file, preferred_ver := latest_f, latest;
    }
    BestIsMember(recs, cmp, files, latest_f.value);
    r := Ok((latest, latest_f, preferred_ver, preferred_file, required));
  }

  lemma BestIsMember(recs: Recipes, cmp: Cmp, files: seq<string>, f: string)
    requires Cached(recs, files) && Best(recs, cmp, files, f)
    ensures f in recs
  {
  }

  lemma GroupsMean(recs: Recipes, files: seq<string>, groups: seq<seq<string>>, pris: seq<int>)
    requires Cached(recs, files) && Grouped(recs, groups, pris) && multiset(Flatten(groups)) == multiset(files)
    ensures groups == [] <==> files == []
    ensures groups != [] ==> groups[0] != [] && Cached(recs, groups[0])
    ensures Cached(recs, Flatten(groups))
  {
    SameMembers(Flatten(groups), files);
    if groups != [] {
      assert Group(recs, groups[0], pris[|pris| - 1]);
      assert groups[0][0] in Flatten(groups);
    }
  }

  lemma PreferredOrNone(
      recs: Recipes, cfg: Config, pn: string, files: seq<string>, groups: seq<seq<string>>, pris: seq<int>)
    requires Cached(recs, files) && Grouped(recs, groups, pris) && multiset(Flatten(groups)) == multiset(files)
    ensures Cached(recs, Flatten(groups))
    ensures var f := FindMatch(recs, cfg, pn, Flatten(groups));
            if f.None? then NoMatch(recs, cfg, pn, files)
            else Preferred(recs, cfg, pn, files, f.value) && !NoMatch(recs, cfg, pn, files)
  {
    hide Grouped, Flatten, Matches;
    GroupsMean(recs, files, groups, pris);
    SameMembers(Flatten(groups), files);
    var f := FindMatch(recs, cfg, pn, Flatten(groups));
    if f.Some? { FirstMatchIsPreferred(recs, cfg, pn, groups, pris, f.value); }
  }

  // ----- _filterProviders -----

  /** The files of one recipe name. */
  function Named(recs: Recipes, files: seq<string>, pn: string): (named: seq<string>)
    requires Cached(recs, files)
    ensures forall f :: f in named <==> f in files && recs[f].pn == pn
  {
    if |files| == 0 then []
    else
      var f := files[|files| - 1];
      assert files == files[..|files| - 1] + [f];
      Named(recs, files[..|files| - 1], pn) + if recs[f].pn == pn then [f] else []
  }

  /** Some version of the name is required and no file has it. */
  ghost predicate Unmet(recs: Recipes, cfg: Config, files: seq<string>, pn: string)
    requires Cached(recs, files)
  {
    RequiredVersion(cfg, pn).Some? && NoMatch(recs, cfg, pn, Named(recs, files, pn))
  }

  /** `pkg_pn`, the files by name. */
  method Collate(recs: Recipes, files: seq<string>) returns (pkg_pn: map<string, seq<string>>)
    requires Cached(recs, files)
    ensures forall pn <- pkg_pn.Keys :: pkg_pn[pn] == Named(recs, files, pn) && pkg_pn[pn] != []
    ensures forall f <- files :: recs[f].pn in pkg_pn
  {
    hide Named;
    pkg_pn := map[];
    for i := 0 to |files|
      invariant forall pn <- pkg_pn.Keys :: pkg_pn[pn] == Named(recs, files[..i], pn) && pkg_pn[pn] != []
      invariant forall f <- files[..i] :: recs[f].pn in pkg_pn
    {
      var p := files[i];
      var pn := recs[p].pn;
      NamedNext(recs, files, i);
      if pn !in pkg_pn {
        NoneNamed(recs, files[..i], pn);
        pkg_pn := pkg_pn[pn := []];
      }
      pkg_pn := pkg_pn[pn := pkg_pn[pn] + [p]];
    }
    assert files[..|files|] == files;
  }

  lemma NamedNext(recs: Recipes, files: seq<string>, i: nat)
    requires Cached(recs, files) && i < |files|
    ensures files[..i + 1] == files[..i] + [files[i]]
    ensures forall pn :: Named(recs, files[..i + 1], pn)
                      == Named(recs, files[..i], pn) + if recs[files[i]].pn == pn then [files[i]] else []
  {
    assert files[..i + 1][..i] == files[..i];
  }

  lemma NoneNamed(recs: Recipes, files: seq<string>, pn: string)
    requires Cached(recs, files) && forall f <- files :: recs[f].pn != pn
    ensures Named(recs, files, pn) == []
  {
    HasFirst(Named(recs, files, pn));
  }

  /** Each listed file is the one held for its name, and every held file is listed. */
  ghost predicate Lists(recs: Recipes, eligible: seq<string>, preferred: map<string, Option<string>>) {
    && (forall i, j :: 0 <= i < j < |eligible| ==> eligible[i] != eligible[j])
    && (forall e <- eligible :: e in recs && recs[e].pn in preferred && preferred[recs[e].pn] == Some(e))
    && (forall pn <- preferred.Keys :: preferred[pn].Some? ==> preferred[pn].value in eligible)
  }

  lemma ListOne(recs: Recipes, eligible: seq<string>, preferred: map<string, Option<string>>, pn: string, f: string)
    requires Lists(recs, eligible, preferred) && f in recs && recs[f].pn == pn
    requires pn in preferred ==> preferred[pn].None?
    ensures Lists(recs, eligible + [f], preferred[pn := Some(f)])
  {
  }

  lemma ListNone(recs: Recipes, eligible: seq<string>, preferred: map<string, Option<string>>, pn: string)
    requires Lists(recs, eligible, preferred) && pn !in preferred
    ensures Lists(recs, eligible, preferred[pn := None])
  {
  }

  /** The first loop has dealt with a name: its file is the preferred one, or there is none and none is required. */
  ghost predicate Asked(recs: Recipes, cfg: Config, files: seq<string>, pn: string, f: Option<string>)
    requires Cached(recs, files)
  {
    match f
    case Some(f) => Preferred(recs, cfg, pn, Named(recs, files, pn), f) &&
      !NoMatch(recs, cfg, pn, Named(recs, files, pn))
    case None => NoMatch(recs, cfg, pn, Named(recs, files, pn)) && !Unmet(recs, cfg, files, pn)
  }

  ghost predicate AllAsked(
      recs: Recipes, cfg: Config, files: seq<string>, names: seq<string>, preferred: map<string, Option<string>>)
    requires Cached(recs, files)
  {
    forall pn :: (pn in names <==> pn in preferred) && (pn in names ==> Asked(recs, cfg, files, pn, preferred[pn]))
  }

  /** One round: the preferred file of a name, and its first group. */
  method Consider(recs: Recipes, cfg: Config, ghost files: seq<string>, pn: string, named: seq<string>)
    returns (f: Option<string>, required: bool, top: seq<string>)
    requires Cached(recs, files) && named == Named(recs, files, pn) && named != []
    ensures Unmet(recs, cfg, files, pn) <==> required && f.None?
    ensures !(required && f.None?) ==> Asked(recs, cfg, files, pn, f)
    ensures f.Some? ==> f.value in recs && recs[f.value].pn == pn
    ensures Top(recs, named, top)
  {
    hide Asked, FindMatch, Grouped, Flatten, Preferred, NoMatch, Unmet, Top, RequiredVersion, Rearranged, Matches;
    var groups, pris := SortPriorities(recs, named);
    GroupsMean(recs, named, groups, pris);
    PreferredOrNone(recs, cfg, pn, named, groups, pris);
    TopOf(recs, named, groups, pris);
    var _, file, r := FindPreferredProvider(recs, cfg, pn, groups);
    AskedNow(recs, cfg, files, pn, file, r);
    f, required, top := file, r, groups[0];
  }

  ghost predicate Tops(recs: Recipes, files: seq<string>, tops: map<string, seq<string>>)
    requires Cached(recs, files)
  {
    forall pn <- tops.Keys :: Top(recs, Named(recs, files, pn), tops[pn])
  }

  lemma OneMoreAsked(
      recs: Recipes, cfg: Config, files: seq<string>, names: seq<string>, i: nat,
      preferred: map<string, Option<string>>,
      f: Option<string>)
    requires Cached(recs, files) && i < |names| && AllAsked(recs, cfg, files, names[..i], preferred)
    requires Asked(recs, cfg, files, names[i], f) && Increasing(names)
    ensures names[i] !in preferred && AllAsked(recs, cfg, files, names[..i + 1], preferred[names[i] := f])
  {
    hide Asked;
    NotBefore(names, i);
    assert names[..i + 1] == names[..i] + [names[i]];
  }

  /** First the required and preferred versions; it stops at a required one that is not there. */
  method AddPreferred(recs: Recipes, cfg: Config, files: seq<string>, pkg_pn: map<string, seq<string>>,
      names: seq<string>)
    returns (eligible: seq<string>, preferred: map<string, Option<string>>, tops: map<string, seq<string>>,
      stop: nat)
    requires Cached(recs, files) && Increasing(names) && (forall pn <- names :: pn in pkg_pn)
    requires forall pn <- pkg_pn.Keys :: pkg_pn[pn] == Named(recs, files, pn) && pkg_pn[pn] != []
    ensures Lists(recs, eligible, preferred) && Tops(recs, files, tops) && stop <= |names|
    ensures AllAsked(recs, cfg, files, names[..stop], preferred)
    ensures stop < |names| ==> Unmet(recs, cfg, files, names[stop])
    ensures stop == |names| ==> forall pn <- names :: pn in tops
  {
    hide Asked, Preferred, NoMatch, Unmet, Lists, Top, AllAsked;
    eligible, preferred, tops, stop := [], map[], map[], 0;
    ListsNothing(recs);
    NoneAskedYet(recs, cfg, files);
    for i := 0 to |names|
      invariant Lists(recs, eligible, preferred) && AllAsked(recs, cfg, files, names[..i], preferred)
      invariant Tops(recs, files, tops) && stop == i && forall pn <- names[..i] :: pn in tops
    {
      var pn := names[i];
      var f, required, top := Consider(recs, cfg, files, pn, pkg_pn[pn]);
      tops := tops[pn := top];
      if required && f.None? {
        return;
      }
      OneMoreAsked(recs, cfg, files, names, i, preferred, f);
      if f.Some? {
        ListOne(recs, eligible, preferred, pn, f.value);
        eligible := eligible + [f.value];
      } else {
        ListNone(recs, eligible, preferred, pn);
      }
      preferred := preferred[pn := f];
      stop := stop + 1;
    }
    assert names[..|names|] == names;
  }

  lemma NoneAskedYet(recs: Recipes, cfg: Config, files: seq<string>)
    requires Cached(recs, files)
    ensures forall names: seq<string> :: AllAsked(recs, cfg, files, names[..0], map[])
  {
  }

  lemma NotBefore(names: seq<string>, i: nat)
    requires i < |names| && Increasing(names)
    ensures names[i] !in names[..i]
  {
    if names[i] in names[..i] {
      var k :| 0 <= k < i && names[k] == names[i];
      LessIsTotal(names[i], names[i]);
    }
  }

  lemma ListsNothing(recs: Recipes)
    ensures Lists(recs, [], map[])
  {
  }

  lemma AskedNow(recs: Recipes, cfg: Config, files: seq<string>, pn: string, f: Option<string>, required: bool)
    requires Cached(recs, files) && (required <==> RequiredVersion(cfg, pn).Some?)
    requires if f.None? then NoMatch(recs, cfg, pn, Named(recs, files, pn))
             else
               && Preferred(recs, cfg, pn, Named(recs, files, pn), f.value)
               && !NoMatch(recs, cfg, pn, Named(recs, files, pn))
    ensures Unmet(recs, cfg, files, pn) <==> required && f.None?
    ensures !(required && f.None?) ==> Asked(recs, cfg, files, pn, f)
    ensures f.Some? ==> f.value in recs && recs[f.value].pn == pn
  {
    hide NoMatch, RequiredVersion, Matches;
  }

  /** Every name has its choice. */
  ghost predicate AllChosen(
      recs: Recipes, cfg: Config, cmp: Cmp, files: seq<string>, names: seq<string>,
      preferred: map<string, Option<string>>)
    requires Cached(recs, files)
  {
    forall pn <- names ::
      pn in preferred && preferred[pn].Some? && Chosen(recs, cfg, cmp, pn, Named(recs, files, pn), preferred[pn].value)
  }

  /** Then the latest version of every name that has none yet. */
  method AddLatest(
      recs: Recipes, cfg: Config, cmp: Cmp, ghost files: seq<string>, names: seq<string>,
      tops: map<string, seq<string>>,
      eligible0: seq<string>, preferred0: map<string, Option<string>>)
    returns (eligible: seq<string>, preferred: map<string, Option<string>>)
    requires Cached(recs, files) && Increasing(names) && IsVercmp(cmp)
    requires Lists(recs, eligible0, preferred0) && AllAsked(recs, cfg, files, names, preferred0)
    requires Tops(recs, files, tops) && forall pn <- names :: pn in tops
    ensures Lists(recs, eligible, preferred) && AllChosen(recs, cfg, cmp, files, names, preferred)
    ensures forall pn :: pn in preferred <==> pn in names
  {
    hide Lists, Chosen, Latest, Top, Tops, IsVercmp, Asked, AllAsked, AllChosen;
    eligible, preferred := eligible0, preferred0;
    AskedKeys(recs, cfg, files, names, preferred);
    assert AllChosen(recs, cfg, cmp, files, names[..0], preferred) by { NoneChosen(recs, cfg, cmp, files, preferred); }
    for i := 0 to |names|
      invariant Lists(recs, eligible, preferred) && AllChosen(recs, cfg, cmp, files, names[..i], preferred)
      invariant forall pn :: pn in preferred <==> pn in names
      invariant forall pn <- names :: pn !in names[..i] ==> preferred[pn] == preferred0[pn]
    {
      var pn := names[i];
      NotBefore(names, i);
      assert names[..i + 1] == names[..i] + [pn];
      TopIsCached(recs, files, tops, pn);
      var f := preferred[pn];
      if f.None? {
        var _, latest_f := FindLatestProvider(recs, cmp, tops[pn]);
        f := latest_f;
        ChosenIfLatest(recs, cfg, cmp, files, pn, tops[pn], f.value, names, preferred0);
        ListOne(recs, eligible, preferred, pn, f.value);
        eligible := eligible + [f.value];
      } else {
        ChosenIfAsked(recs, cfg, cmp, files, pn, names, preferred0);
      }
      OneMoreChosen(recs, cfg, cmp, files, names, i, preferred, f.value);
      assert f == preferred[pn] ==> preferred[pn := f] == preferred;
      preferred := preferred[pn := f];
    }
    assert names[..|names|] == names;
  }

  lemma AskedKeys(recs: Recipes, cfg: Config, files: seq<string>, names: seq<string>, preferred: map<string,
      Option<string>>)
    requires Cached(recs, files) && AllAsked(recs, cfg, files, names, preferred)
    ensures forall pn :: pn in preferred <==> pn in names
  {
  }

  lemma NoneChosen(recs: Recipes, cfg: Config, cmp: Cmp, files: seq<string>, preferred: map<string, Option<string>>)
    requires Cached(recs, files)
    ensures AllChosen(recs, cfg, cmp, files, [], preferred)
  {
  }

  lemma TopIsCached(recs: Recipes, files: seq<string>, tops: map<string, seq<string>>, pn: string)
    requires Cached(recs, files) && Tops(recs, files, tops) && pn in tops
    ensures tops[pn] != [] && Cached(recs, tops[pn]) && Top(recs, Named(recs, files, pn), tops[pn])
  {
  }

  lemma ChosenIfLatest(
      recs: Recipes, cfg: Config, cmp: Cmp, files: seq<string>, pn: string, top: seq<string>, f: string,
      names: seq<string>, preferred: map<string, Option<string>>)
    requires Cached(recs, files) && Top(recs, Named(recs, files, pn), top) && Latest(recs, cmp, top, f)
    requires AllAsked(recs, cfg, files, names, preferred) && pn in names && preferred[pn].None?
    ensures Chosen(recs, cfg, cmp, pn, Named(recs, files, pn), f) && f in recs && recs[f].pn == pn
  {
    hide Top, Latest, NoMatch, Preferred, Unmet;
    assert Asked(recs, cfg, files, pn, preferred[pn]);
    TopHasBest(recs, cmp, Named(recs, files, pn), top, f);
  }

  lemma ChosenIfAsked(
      recs: Recipes, cfg: Config, cmp: Cmp, files: seq<string>, pn: string, names: seq<string>,
      preferred: map<string, Option<string>>)
    requires Cached(recs, files) && AllAsked(recs, cfg, files, names, preferred) && pn in names && preferred[pn].Some?
    ensures Chosen(recs, cfg, cmp, pn, Named(recs, files, pn), preferred[pn].value)
  {
    hide NoMatch, Preferred, Unmet;
    assert Asked(recs, cfg, files, pn, preferred[pn]);
  }

  lemma OneMoreChosen(
      recs: Recipes, cfg: Config, cmp: Cmp, files: seq<string>, names: seq<string>, i: nat,
      preferred: map<string, Option<string>>, f: string)
    requires Cached(recs, files) && i < |names| && AllChosen(recs, cfg, cmp, files, names[..i], preferred)
    requires Chosen(recs, cfg, cmp, names[i], Named(recs, files, names[i]), f) && Increasing(names)
    ensures AllChosen(recs, cfg, cmp, files, names[..i + 1], preferred[names[i] := Some(f)])
  {
    hide Chosen;
    NotBefore(names, i);
    assert names[..i + 1] == names[..i] + [names[i]];
  }

  // ----- the result -----

  /** One file for each name among the providers, the chosen one. */
  ghost predicate OnePerName(recs: Recipes, cfg: Config, cmp: Cmp, files: seq<string>, eligible: seq<string>)
    requires Cached(recs, files)
  {
    && (forall e <- eligible :: e in files && Chosen(recs, cfg, cmp, recs[e].pn, Named(recs, files, recs[e].pn), e))
    && (forall e :: multiset(eligible)[e] <= 1)
    && (forall a <- eligible, b <- eligible :: a in recs && b in recs && (recs[a].pn == recs[b].pn ==> a == b))
    && (forall f <- files :: exists e <- eligible :: e in recs && recs[e].pn == recs[f].pn)
  }

  lemma ListedIsOnePerName(
      recs: Recipes, cfg: Config, cmp: Cmp, files: seq<string>, names: seq<string>, eligible: seq<string>,
      preferred: map<string, Option<string>>)
    requires Cached(recs, files) && Lists(recs, eligible, preferred)
    requires AllChosen(recs, cfg, cmp, files, names, preferred)
    requires (forall pn :: pn in preferred <==> pn in names) && forall f <- files :: recs[f].pn in names
    ensures OnePerName(recs, cfg, cmp, files, eligible)
  {
    DistinctCounts(eligible);
    forall e <- eligible
      ensures e in files && Chosen(recs, cfg, cmp, recs[e].pn, Named(recs, files, recs[e].pn), e)
    {
      ChosenIsMember(recs, cfg, cmp, recs[e].pn, Named(recs, files, recs[e].pn), e);
    }
    forall f <- files ensures exists e <- eligible :: e in recs && recs[e].pn == recs[f].pn {
      var pn := recs[f].pn;
      var e := preferred[pn].value;
      ChosenIsMember(recs, cfg, cmp, pn, Named(recs, files, pn), e);
      assert e in eligible;
    }
  }

  lemma {:induction false} DistinctCounts(xs: seq<string>)
    requires forall i, j :: 0 <= i < j < |xs| ==> xs[i] != xs[j]
    ensures forall x :: multiset(xs)[x] <= 1
    decreases |xs|
  {
    if |xs| > 0 {
      var n := |xs| - 1;
      assert xs == xs[..n] + [xs[n]];
      DistinctCounts(xs[..n]);
      assert xs[n] !in xs[..n];
    }
  }

  lemma SamePerName(recs: Recipes, cfg: Config, cmp: Cmp, files: seq<string>, a: seq<string>, b: seq<string>)
    requires Cached(recs, files) && OnePerName(recs, cfg, cmp, files, a) && multiset(a) == multiset(b)
    ensures OnePerName(recs, cfg, cmp, files, b)
  {
    hide Chosen;
    SameMembers(a, b);
  }

  lemma ChosenIsMember(recs: Recipes, cfg: Config, cmp: Cmp, pn: string, files: seq<string>, f: string)
    requires Cached(recs, files) && Chosen(recs, cfg, cmp, pn, files, f)
    ensures f in files
  {
  }

  /** `eligible.remove(f); eligible = [f] + eligible` */
  function ToFront(xs: seq<string>, f: string): (r: seq<string>)
    requires f in xs
    ensures multiset(r) == multiset(xs) && |r| == |xs| && r[0] == f
  {
    [f] + Removed(xs, f)
  }

  function Removed(xs: seq<string>, f: string): (r: seq<string>)
    requires f in xs
    ensures multiset(r) + multiset{f} == multiset(xs) && |r| == |xs| - 1
  {
    assert xs == [xs[0]] + xs[1..];
    if xs[0] == f then xs[1..] else [xs[0]] + Removed(xs[1..], f)
  }

  function NamesOf(recs: Recipes, files: seq<string>): seq<string>
    requires Cached(recs, files)
  {
    Sorted(set f | f in files :: recs[f].pn)
  }

  /** The names are considered in order up to the first unmet one, and only preferred files are listed. */
  ghost predicate Stopped(recs: Recipes, cfg: Config, files: seq<string>, stop: nat, eligible: seq<string>)
    requires Cached(recs, files)
  {
    var names := NamesOf(recs, files);
    && stop < |names| && Unmet(recs, cfg, files, names[stop])
    && (forall pn <- names[..stop] :: !Unmet(recs, cfg, files, pn))
    && (forall e <- eligible ::
          e in files && recs[e].pn in names[..stop] &&
          Preferred(recs, cfg, recs[e].pn, Named(recs, files, recs[e].pn), e))
    && (forall pn <- names[..stop] ::
          NoMatch(recs, cfg, pn, Named(recs, files, pn)) || exists e <- eligible :: e in recs && recs[e].pn == pn)
  }

  ghost predicate AllMet(recs: Recipes, cfg: Config, files: seq<string>)
    requires Cached(recs, files)
  {
    forall f <- files :: !Unmet(recs, cfg, files, recs[f].pn)
  }

  lemma AskedIsMet(
      recs: Recipes, cfg: Config, files: seq<string>, names: seq<string>, preferred: map<string, Option<string>>)
    requires Cached(recs, files) && AllAsked(recs, cfg, files, names, preferred)
    ensures forall pn <- names :: !Unmet(recs, cfg, files, pn)
  {
    hide Matches, Preferred;
    forall pn <- names ensures !Unmet(recs, cfg, files, pn) { assert Asked(recs, cfg, files, pn, preferred[pn]); }
  }

  lemma AllNamesMet(recs: Recipes, cfg: Config, files: seq<string>, preferred: map<string, Option<string>>)
    requires Cached(recs, files) && AllAsked(recs, cfg, files, NamesOf(recs, files), preferred)
    ensures AllMet(recs, cfg, files) && forall f <- files :: recs[f].pn in NamesOf(recs, files)
  {
    hide Unmet, AllAsked;
    AskedIsMet(recs, cfg, files, NamesOf(recs, files), preferred);
  }

  lemma ListedIsStopped(
      recs: Recipes, cfg: Config, files: seq<string>, stop: nat, eligible: seq<string>,
      preferred: map<string, Option<string>>)
    requires Cached(recs, files) && stop < |NamesOf(recs, files)| && Unmet(recs, cfg, files, NamesOf(recs, files)[stop])
    requires AllAsked(recs, cfg, files, NamesOf(recs, files)[..stop], preferred) && Lists(recs, eligible, preferred)
    ensures Stopped(recs, cfg, files, stop, eligible)
  {
    hide Unmet, Matches, NoMatch;
    var names := NamesOf(recs, files);
    AskedIsMet(recs, cfg, files, names[..stop], preferred);
    forall e <- eligible
      ensures e in files && recs[e].pn in names[..stop]
      ensures e in files && Preferred(recs, cfg, recs[e].pn, Named(recs, files, recs[e].pn), e)
    {
      assert Asked(recs, cfg, files, recs[e].pn, preferred[recs[e].pn]);
    }
    forall pn <- names[..stop]
      ensures NoMatch(recs, cfg, pn, Named(recs, files, pn)) || exists e <- eligible :: e in recs && recs[e].pn == pn
    {
      assert Asked(recs, cfg, files, pn, preferred[pn]);
      if preferred[pn].Some? { assert preferred[pn].value in eligible; }
    }
  }

  /** What is promised of the list of eligible files. */
  ghost predicate IsEligible(
      recs: Recipes, cfg: Config, cmp: Cmp, files: seq<string>, item: string, stop: nat, eligible: seq<string>)
    requires Cached(recs, files)
  {
    if AllMet(recs, cfg, files) then
      && OnePerName(recs, cfg, cmp, files, eligible)
      && ((exists f <- files :: recs[f].pn == item)
          ==> eligible != [] && eligible[0] in recs && recs[eligible[0]].pn == item)
    else Stopped(recs, cfg, files, stop, eligible)
  }

  /**
   `_filterProviders`, which sorts the caller's list. With every required version met it gives one file
   for each name, the item's own name first; otherwise what was listed before the first unmet name.
   */
  method EligibleProviders(recs: Recipes, cfg: Config, cmp: Cmp, providers: seq<string>, item: string)
    returns (eligible: seq<string>, files: seq<string>, ghost stop: nat)
    requires Cached(recs, providers) && IsVercmp(cmp)
    ensures files == SortBy(AtMost, providers) && Cached(recs, files)
    ensures IsEligible(recs, cfg, cmp, files, item, stop, eligible)
  {
    hide Asked, AllAsked, AllChosen, Chosen, Unmet, Lists, Tops, Stopped, OnePerName, IsVercmp, AllMet, SortBy, NamesOf,
         Named, Less;
    files := SortBy(AtMost, providers);
    SameMembers(files, providers);
    var pkg_pn := Collate(recs, files);
    var names := Sorted(pkg_pn.Keys);
    KeysAreNames(recs, files, pkg_pn);
    var listing, preferred, tops, reached := AddPreferred(recs, cfg, files, pkg_pn, names);
    eligible, stop := listing, reached;
    if reached < |names| {
      UnmetIsName(recs, cfg, files, stop);
      ListedIsStopped(recs, cfg, files, stop, eligible, preferred);
      return;
    }
    assert names[..stop] == names;
    AllNamesMet(recs, cfg, files, preferred);
    eligible, preferred := AddLatest(recs, cfg, cmp, files, names, tops, eligible, preferred);
    ListedIsOnePerName(recs, cfg, cmp, files, names, eligible, preferred);
    ghost var listed := eligible;
    if item in names {
      ChoiceHasName(recs, cfg, cmp, files, names, preferred, item);
      HeldIsListed(recs, listed, preferred, item);
    }
    eligible := ItemFirst(recs, files, item, eligible, preferred);
    SamePerName(recs, cfg, cmp, files, listed, eligible);
  }

  /** The last loop. */
  method ItemFirst(
      recs: Recipes, files: seq<string>, item: string, eligible0: seq<string>, preferred: map<string, Option<string>>)
    returns (eligible: seq<string>)
    requires Cached(recs, files)
    requires (exists f <- files :: recs[f].pn == item)
          ==> item in preferred && preferred[item].Some? && preferred[item].value in eligible0
    ensures multiset(eligible) == multiset(eligible0)
    ensures (exists f <- files :: recs[f].pn == item)
         ==> eligible != [] && item in preferred && preferred[item] == Some(eligible[0])
  {
    eligible := eligible0;
    for i := 0 to |files|
      invariant multiset(eligible) == multiset(eligible0)
      invariant (exists f <- files[..i] :: recs[f].pn == item)
             ==> eligible != [] && item in preferred && preferred[item] == Some(eligible[0])
    {
      var p := files[i];
      assert files[..i + 1] == files[..i] + [p] && p in files;
      if recs[p].pn == item {
        SameMembers(eligible, eligible0);
        var fn := preferred[item].value;
        if fn in eligible {
          eligible := ToFront(eligible, fn);
        }
      }
    }
    assert files[..|files|] == files;
  }

  lemma KeysAreNames(recs: Recipes, files: seq<string>, pkg_pn: map<string, seq<string>>)
    requires Cached(recs, files)
    requires forall pn <- pkg_pn.Keys :: pkg_pn[pn] == Named(recs, files, pn) && pkg_pn[pn] != []
    requires forall f <- files :: recs[f].pn in pkg_pn
    ensures Sorted(pkg_pn.Keys) == NamesOf(recs, files)
  {
    forall pn <- pkg_pn.Keys ensures exists f <- files :: recs[f].pn == pn {
      assert pkg_pn[pn][0] in Named(recs, files, pn);
    }
    assert pkg_pn.Keys == set f | f in files :: recs[f].pn;
  }

  lemma UnmetIsName(recs: Recipes, cfg: Config, files: seq<string>, stop: nat)
    requires Cached(recs, files) && stop < |NamesOf(recs, files)| && Unmet(recs, cfg, files, NamesOf(recs, files)[stop])
    ensures !AllMet(recs, cfg, files)
  {
    hide Unmet;
    var pn := NamesOf(recs, files)[stop];
    assert pn in NamesOf(recs, files);
    var f :| f in files && recs[f].pn == pn;
  }

  lemma HeldIsListed(recs: Recipes, eligible: seq<string>, preferred: map<string, Option<string>>, pn: string)
    requires Lists(recs, eligible, preferred) && pn in preferred
    ensures preferred[pn].Some? ==> preferred[pn].value in eligible
  {
  }

  lemma ChoiceHasName(
      recs: Recipes, cfg: Config, cmp: Cmp, files: seq<string>, names: seq<string>,
      preferred: map<string, Option<string>>, pn: string)
    requires Cached(recs, files) && AllChosen(recs, cfg, cmp, files, names, preferred) && pn in names
    ensures pn in preferred && preferred[pn].Some? && preferred[pn].value in recs && recs[preferred[pn].value].pn == pn
  {
    hide Chosen;
    ChosenIsMember(recs, cfg, cmp, pn, Named(recs, files, pn), preferred[pn].value);
  }

  // ----- filterProviders and filterProvidersRunTime -----

  lemma EligibleAreCached(recs: Recipes, cfg: Config, cmp: Cmp, files: seq<string>, item: string, stop: nat,
      eligible: seq<string>)
    requires Cached(recs, files) && IsEligible(recs, cfg, cmp, files, item, stop, eligible)
    ensures Cached(recs, eligible)
  {
    hide Chosen, Preferred, Unmet;
  }

  /** Some listed file has that name. */
  predicate HasName(recs: Recipes, files: seq<string>, pn: string)
    requires Cached(recs, files)
  {
    exists f <- files :: recs[f].pn == pn
  }

  /** The first file of that name moves to the front. */
  method PreferName(recs: Recipes, listed: seq<string>, pn: string) returns (eligible: seq<string>, found: bool)
    requires Cached(recs, listed)
    ensures multiset(eligible) == multiset(listed)
    ensures found <==> HasName(recs, listed, pn)
    ensures found ==> eligible != [] && eligible[0] in recs && recs[eligible[0]].pn == pn
    ensures !found ==> eligible == listed
  {
    eligible, found := listed, false;
    for i := 0 to |listed|
      invariant eligible == listed && !found && !HasName(recs, listed[..i], pn)
    {
      var p := listed[i];
      assert listed[..i + 1] == listed[..i] + [p] && p in listed;
      if recs[p].pn == pn {
        eligible, found := ToFront(eligible, p), true;
        return;
      }
    }
    assert listed[..|listed|] == listed;
  }

  /** A PREFERRED_PROVIDER of something that an eligible recipe provides names this file's recipe. */
  ghost predicate Inferred(
      recs: Recipes, cfg: Config, pnProvides: map<string, seq<string>>, listed: seq<string>, f: string)
    requires Cached(recs, listed)
  {
    f in listed && exists e <- listed :: NamesIt(cfg, Provided(pnProvides, recs[e].pn), recs[f].pn)
  }

  /** `pn_provides`, a dictionary with the empty list for what is missing. */
  function Provided(pnProvides: map<string, seq<string>>, pn: string): seq<string> {
    if pn in pnProvides then pnProvides[pn] else []
  }

  predicate NamesIt(cfg: Config, provided: seq<string>, pn: string) {
    exists x <- provided :: cfg("PREFERRED_PROVIDER_" + x) == Some(pn)
  }

  function Reverse(xs: seq<string>): seq<string> {
    if |xs| == 0 then [] else [xs[|xs| - 1]] + Reverse(xs[..|xs| - 1])
  }

  /** `pns`: the last listed file of each name. */
  function FileMap(recs: Recipes, listed: seq<string>): map<string, string>
    requires Cached(recs, listed)
  {
    if |listed| == 0 then map[]
    else
      var f := listed[|listed| - 1];
      FileMap(recs, listed[..|listed| - 1])[recs[f].pn := f]
  }

  /** The first preference for a listed recipe that was not found before. */
  function Hit(cfg: Config, provided: seq<string>, pns: map<string, string>, found: seq<string>): Option<string> {
    if |provided| == 0 then None
    else
      var pn := cfg("PREFERRED_PROVIDER_" + provided[0]);
      if pn.Some? && pn.value in pns && pns[pn.value] !in found then Some(pns[pn.value])
      else Hit(cfg, provided[1..], pns, found)
  }

  /** The files inferred from what `files` provide, on top of `found`. */
  function FoundOver(recs: Recipes, cfg: Config, pnProvides: map<string, seq<string>>, pns: map<string, string>,
                     files: seq<string>, found: seq<string>): seq<string>
    requires Cached(recs, files)
  {
    if |files| == 0 then found
    else
      match Hit(cfg, Provided(pnProvides, recs[files[0]].pn), pns, found)
      case None => FoundOver(recs, cfg, pnProvides, pns, files[1..], found)
      case Some(f) => FoundOver(recs, cfg, pnProvides, pns, files[1..], found + [f])
  }

  /**
   The files that the loop gets to see. The first file found leaves the list that is being walked: if the
   walk has passed it already, the next file is skipped, otherwise it is skipped itself.
   */
  function Walked(recs: Recipes, cfg: Config, pnProvides: map<string, seq<string>>, pns: map<string, string>,
                  before: seq<string>, files: seq<string>): (w: seq<string>)
    requires Cached(recs, files)
    ensures Cached(recs, w)
    decreases |files|
  {
    if |files| == 0 then []
    else
      match Hit(cfg, Provided(pnProvides, recs[files[0]].pn), pns, [])
      case None => [files[0]] + Walked(recs, cfg, pnProvides, pns, before + [files[0]], files[1..])
      case Some(f) => [files[0]] + Skipping(before + [files[0]], files[1..], f)
  }

  function Skipping(before: seq<string>, after: seq<string>, f: string): (r: seq<string>)
    ensures forall x <- r :: x in after
  {
    if f !in before && f in after then RemovedMembers(after, f); Removed(after, f)
    else if f in before && |after| > 0 then after[1..] else after
  }

  /** At most one file is not looked at. */
  lemma {:induction false} OneSkipped(recs: Recipes, cfg: Config, pnProvides: map<string, seq<string>>,
                                      pns: map<string, string>, before: seq<string>, files: seq<string>)
    requires Cached(recs, files)
    ensures var w := Walked(recs, cfg, pnProvides, pns, before, files);
            multiset(w) <= multiset(files) && |files| - 1 <= |w|
    decreases |files|
  {
    hide Hit, Provided, Skipping;
    if |files| > 0 {
      assert files == [files[0]] + files[1..];
      match Hit(cfg, Provided(pnProvides, recs[files[0]].pn), pns, [])
      case None => OneSkipped(recs, cfg, pnProvides, pns, before + [files[0]], files[1..]);
      case Some(f) => SkippingSize(before + [files[0]], files[1..], f);
    }
  }

  lemma {:induction false} HitIsFile(cfg: Config, provided: seq<string>, pns: map<string, string>, found: seq<string>)
    ensures Hit(cfg, provided, pns, found).Some? ==> Hit(cfg, provided, pns, found).value in pns.Values
  {
    if |provided| > 0 { HitIsFile(cfg, provided[1..], pns, found); }
  }

  /** The walk sees every file exactly when no file but the last one names a preferred recipe. */
  lemma {:induction false} NothingSkipped(recs: Recipes, cfg: Config, pnProvides: map<string, seq<string>>,
                                          pns: map<string, string>, before: seq<string>, files: seq<string>)
    requires Cached(recs, files) && forall f <- pns.Values :: f in before + files
    ensures Walked(recs, cfg, pnProvides, pns, before, files) == files <==>
            forall i :: 0 <= i < |files| - 1 ==> Hit(cfg, Provided(pnProvides, recs[files[i]].pn), pns, []).None?
    decreases |files|
  {
    hide Hit, Provided, Removed;
    if |files| > 0 {
      var hit := Hit(cfg, Provided(pnProvides, recs[files[0]].pn), pns, []);
      HitIsFile(cfg, Provided(pnProvides, recs[files[0]].pn), pns, []);
      assert files == [files[0]] + files[1..];
      assert before + files == (before + [files[0]]) + files[1..];
      if hit.None? {
        NothingSkipped(recs, cfg, pnProvides, pns, before + [files[0]], files[1..]);
        var w := Walked(recs, cfg, pnProvides, pns, before + [files[0]], files[1..]);
        assert ([files[0]] + w)[1..] == w;
      } else {
        SkipsOne(before + [files[0]], files[1..], hit.value);
      }
    }
  }

  lemma SkipsOne(before: seq<string>, after: seq<string>, f: string)
    requires f in before + after
    ensures |Skipping(before, after, f)| == if |after| == 0 then 0 else |after| - 1
  {
    hide Removed;
  }

  lemma SkippingSize(before: seq<string>, after: seq<string>, f: string)
    ensures var r := Skipping(before, after, f); multiset(r) <= multiset(after) && |after| - 1 <= |r|
  {
    hide Removed;
    if |after| > 0 { assert after == [after[0]] + after[1..]; }
  }

  lemma RemovedHead(xs: seq<string>, f: string)
    requires f in xs
    ensures xs[0] == f ==> Removed(xs, f) == xs[1..]
    ensures xs[0] != f ==> f in xs[1..] && Removed(xs, f) == [xs[0]] + Removed(xs[1..], f)
  {
  }

  lemma {:induction false} RemovedEarly(walk: seq<string>, f: string, i: nat)
    requires i <= |walk| && f in walk[..i]
    ensures Removed(walk, f)[i - 1..] == walk[i..]
    decreases i
  {
    hide Removed;
    RemovedHead(walk, f);
    if walk[0] != f {
      assert walk[..i] == [walk[0]] + walk[1..][..i - 1];
      RemovedEarly(walk[1..], f, i - 1);
    }
  }

  lemma {:induction false} RemovedLate(walk: seq<string>, f: string, i: nat)
    requires i <= |walk| && f !in walk[..i] && f in walk
    ensures f in walk[i..] && i <= |walk| - 1 && Removed(walk, f)[i..] == Removed(walk[i..], f)
    decreases i
  {
    hide Removed;
    if i == 0 {
      assert walk[0..] == walk && Removed(walk, f)[0..] == Removed(walk, f);
    } else {
      RemovedHead(walk, f);
      assert walk[..i] == [walk[0]] + walk[1..][..i - 1];
      assert walk[1..][i - 1..] == walk[i..];
      RemovedLate(walk[1..], f, i - 1);
      assert Removed(walk, f)[i..] == Removed(walk[1..], f)[i - 1..];
    }
  }

  /** What is left of the walk once the first file found has been taken out. */
  lemma RemovedTail(walk: seq<string>, f: string, i: nat)
    requires f in walk && i <= |walk|
    ensures (if i < |walk| then Removed(walk, f)[i..] else []) == Skipping(walk[..i], walk[i..], f)
  {
    hide Removed;
    if f in walk[..i] {
      RemovedEarly(walk, f, i);
      if i < |walk| { assert Removed(walk, f)[i..] == Removed(walk, f)[i - 1..][1..]; }
    } else {
      RemovedLate(walk, f, i);
    }
  }

  /** Two recipes, each preferred for what it provides itself: only the first is found. */
  lemma SecondIsSkipped()
    returns (recs: Recipes, cfg: Config, pnProvides: map<string, seq<string>>, listed: seq<string>)
    ensures Cached(recs, listed) && |listed| == 2
    ensures forall f <- listed :: Inferred(recs, cfg, pnProvides, listed, f)
    ensures var pns := FileMap(recs, listed);
            FoundOver(recs, cfg, pnProvides, pns, Walked(recs, cfg, pnProvides, pns, [], listed), []) == [listed[0]]
  {
    var ver := Version("0", "1", "r0");
    recs := map["a.bb" := Recipe("a", 0, 0, ver), "b.bb" := Recipe("b", 0, 0, ver)];
    pnProvides := map["a" := ["x"], "b" := ["y"]];
    listed := ["a.bb", "b.bb"];
    cfg := name => if name == "PREFERRED_PROVIDER_x" then Some("a")
      else if name == "PREFERRED_PROVIDER_y" then Some("b") else None;
    var pns := map["a" := "a.bb", "b" := "b.bb"];
    assert listed[..1] == ["a.bb"] && listed[..1][..0] == [] && listed[1..] == ["b.bb"] && listed[1..][1..] == [];
    assert "PREFERRED_PROVIDER_" + "x" == "PREFERRED_PROVIDER_x" &&
      "PREFERRED_PROVIDER_" + "y" == "PREFERRED_PROVIDER_y";
    assert "x" in ["x"] && "y" in ["y"];
    assert NamesIt(cfg, ["x"], "a") && NamesIt(cfg, ["y"], "b");
    assert Hit(cfg, ["x"], pns, []) == Some("a.bb");
    assert Skipping(["a.bb"], ["b.bb"], "a.bb") == [];
    assert [] + ["a.bb"] == ["a.bb"];
  }

  class DataCache {
    const recs: Recipes
    const pnProvides: map<string, seq<string>>
    var preferred: map<string, string>

    constructor (recs: Recipes, pnProvides: map<string, seq<string>>)
      ensures this.recs == recs && this.pnProvides == pnProvides && preferred == map[]
    {
      this.recs, this.pnProvides, preferred := recs, pnProvides, map[];
    }

    /**
     `filterProviders`: a permutation of the eligible files, with the preferred recipe's file in front. A
     preference for the item is remembered for later calls.
     */
    method FilterProviders(cfg: Config, cmp: Cmp, providers: seq<string>, item: string)
      returns (eligible: seq<string>, foundUnique: bool, files: seq<string>, ghost listed: seq<string>, ghost stop: nat)
      requires Cached(recs, providers) && IsVercmp(cmp)
      modifies this
      ensures files == SortBy(AtMost, providers) && Cached(recs, files)
      ensures IsEligible(recs, cfg, cmp, files, item, stop, listed) && Cached(recs, listed)
      ensures preferred == if Falsy(cfg("PREFERRED_PROVIDER_" + item)) then old(preferred)
                           else old(preferred)[item := cfg("PREFERRED_PROVIDER_" + item).value]
      ensures multiset(eligible) == multiset(listed)
      ensures foundUnique <==> item in preferred && HasName(recs, listed, preferred[item])
      ensures foundUnique ==> eligible != [] && eligible[0] in recs && recs[eligible[0]].pn == preferred[item]
      ensures !foundUnique ==> eligible == listed
    {
      hide IsEligible, IsVercmp, SortBy;
      eligible, files, stop := EligibleProviders(recs, cfg, cmp, providers, item);
      listed := eligible;
      EligibleAreCached(recs, cfg, cmp, files, item, stop, listed);
      var prefervar := cfg("PREFERRED_PROVIDER_" + item);
      if !Falsy(prefervar) {
        preferred := preferred[item := prefervar.value];
      }
      foundUnique := false;
      if item in preferred {
        eligible, foundUnique := PreferName(recs, eligible, preferred[item]);
      }
    }

    /**
     `filterProvidersRunTime`: a permutation as well. A preferred runtime provider comes first; otherwise
     the files inferred from PREFERRED_PROVIDER entries come first, the last one found in front.
     */
    method FilterProvidersRunTime(cfg: Config, cmp: Cmp, providers: seq<string>, item: string)
      returns (eligible: seq<string>, numberPreferred: nat, files: seq<string>,
               ghost listed: seq<string>, ghost stop: nat)
      requires Cached(recs, providers) && IsVercmp(cmp)
      ensures files == SortBy(AtMost, providers) && Cached(recs, files)
      ensures IsEligible(recs, cfg, cmp, files, item, stop, listed) && Cached(recs, listed)
      ensures multiset(eligible) == multiset(listed) && numberPreferred <= |eligible|
      ensures var r := cfg("PREFERRED_RPROVIDER_" + item);
              if !Falsy(r) && HasName(recs, listed, r.value)
              then numberPreferred == 1 && eligible[0] in recs && recs[eligible[0]].pn == r.value
              else (forall f <- eligible[..numberPreferred] :: Inferred(recs, cfg, pnProvides, listed, f))
                   && eligible[..numberPreferred] == Reverse(FoundAmong(cfg, listed))
                   && (numberPreferred == 0 ==> eligible == listed)
                   && (numberPreferred == 0 <==> forall f <- listed :: !Inferred(recs, cfg, pnProvides, listed, f))
    {
      hide IsEligible, IsVercmp, SortBy, Inferred;
      eligible, files, stop := EligibleProviders(recs, cfg, cmp, providers, item);
      listed := eligible;
      EligibleAreCached(recs, cfg, cmp, files, item, stop, listed);
      var prefervar, foundUnique := cfg("PREFERRED_RPROVIDER_" + item), false;
      if !Falsy(prefervar) {
        eligible, foundUnique := PreferName(recs, eligible, prefervar.value);
        numberPreferred := 1;
      }
      if !foundUnique {
        eligible, numberPreferred := Infer(cfg, eligible);
      }
    }

    /** The files that the search through what the eligible recipes provide finds, in its order. */
    function FoundAmong(cfg: Config, listed: seq<string>): seq<string>
      requires Cached(recs, listed)
    {
      var pns := FileMap(recs, listed);
      FoundOver(recs, cfg, pnProvides, pns, Walked(recs, cfg, pnProvides, pns, [], listed), [])
    }

    /** The search through what the eligible recipes provide. */
    method Infer(cfg: Config, listed: seq<string>) returns (eligible: seq<string>, n: nat)
      requires Cached(recs, listed)
      ensures multiset(eligible) == multiset(listed) && n <= |eligible|
      ensures forall f <- eligible[..n] :: Inferred(recs, cfg, pnProvides, listed, f)
      ensures eligible[..n] == Reverse(FoundAmong(cfg, listed))
      ensures n == 0 ==> eligible == listed
      ensures n == 0 <==> forall f <- listed :: !Inferred(recs, cfg, pnProvides, listed, f)
    {
      hide Inferred, Provided, Removed, NamesIt, Hit, FileMap, Walking, FoundAmong;
      var pns := FilesOf(recs, listed);
      var found: seq<string> := [];
      // `walk` is the list object the loop runs over; the first removal takes a file out of it as well.
      var walk, i := listed, 0;
      eligible := listed;
      WalkBegins(cfg, listed, pns);
      while i < |walk|
        invariant Walking(cfg, listed, pns, walk, i, eligible, found)
        decreases |walk| - i
      {
        WalkIsListed(cfg, listed, pns, walk, i, eligible, found);
        var pref := PreferredAmong(cfg, Provided(pnProvides, recs[walk[i]].pn), pns, found);
        i := i + 1;
        if pref.Some? {
          WalkFinds(cfg, listed, pns, walk, i - 1, eligible, found, pref.value);
          if found == [] {
            walk := Removed(walk, pref.value);
          }
          eligible := ToFront(eligible, pref.value);
          found := found + [pref.value];
        } else {
          WalkGoesOn(cfg, listed, pns, walk, i - 1, eligible, found);
        }
      }
      WalkEnds(cfg, listed, pns, walk, i, eligible, found);
      n := |found|;
    }

    /** What the walk keeps. */
    ghost predicate Walking(cfg: Config, listed: seq<string>, pns: map<string, string>,
                            walk: seq<string>, i: nat, eligible: seq<string>, found: seq<string>)
      requires Cached(recs, listed)
    {
      && (forall f <- walk :: f in listed)
      && multiset(eligible) == multiset(listed) && |found| <= |eligible| && eligible[..|found|] == Reverse(found)
      && (forall f <- found :: f in listed && Inferred(recs, cfg, pnProvides, listed, f))
      && i <= |walk| + 1 && (i == |walk| + 1 ==> found != [])
      && FoundOver(recs, cfg, pnProvides, pns, Ahead(cfg, pns, walk, i, found), found) == FoundAmong(cfg, listed)
      && (found == [] ==>
            i <= |listed| && walk == listed && eligible == listed && NoneInferred(cfg, listed, listed[..i]))
    }

    lemma WalkBegins(cfg: Config, listed: seq<string>, pns: map<string, string>)
      requires Cached(recs, listed) && pns == FileMap(recs, listed)
      ensures Walking(cfg, listed, pns, listed, 0, listed, [])
    {
      hide Inferred, Provided, NamesIt, FoundOver, Walked, FileMap;
      NoneYet(cfg, listed);
      assert listed[0..] == listed && listed[..0] == [];
    }

    lemma WalkIsListed(cfg: Config, listed: seq<string>, pns: map<string, string>,
                       walk: seq<string>, i: nat, eligible: seq<string>, found: seq<string>)
      requires Cached(recs, listed) && Walking(cfg, listed, pns, walk, i, eligible, found)
      ensures Cached(recs, walk) && Cached(recs, eligible)
      ensures forall f :: f in eligible <==> f in listed
    {
      hide Inferred, Reverse, FoundOver, Ahead, FoundAmong, NoneInferred;
      SameMembers(eligible, listed);
    }

    lemma WalkGoesOn(cfg: Config, listed: seq<string>, pns: map<string, string>,
                     walk: seq<string>, i: nat, eligible: seq<string>, found: seq<string>)
      requires Cached(recs, listed) && Walking(cfg, listed, pns, walk, i, eligible, found) && i < |walk|
      requires Cached(recs, walk) && Hit(cfg, Provided(pnProvides, recs[walk[i]].pn), pns, found).None?
      requires forall f <- listed :: recs[f].pn in pns
      requires forall pn <- pns.Keys :: pns[pn] !in found ==> !NamesIt(cfg, Provided(pnProvides, recs[walk[i]].pn), pn)
      ensures Walking(cfg, listed, pns, walk, i + 1, eligible, found)
    {
      hide Inferred, Provided, NamesIt, Hit, FoundOver, FoundAmong, Ahead, Reverse, NoneInferred;
      WalkStep(cfg, pns, walk, i, found);
      if found == [] { StillNone(cfg, listed, i, pns); }
    }

    lemma WalkFinds(cfg: Config, listed: seq<string>, pns: map<string, string>,
                    walk: seq<string>, i: nat, eligible: seq<string>, found: seq<string>, f: string)
      requires Cached(recs, listed) && Walking(cfg, listed, pns, walk, i, eligible, found) && i < |walk|
      requires Cached(recs, walk) && Hit(cfg, Provided(pnProvides, recs[walk[i]].pn), pns, found) == Some(f)
      requires f !in found && f in listed && recs[f].pn in pns
      requires NamesIt(cfg, Provided(pnProvides, recs[walk[i]].pn), recs[f].pn)
      ensures f in eligible && (found == [] ==> f in walk)
      ensures var walk' := if found == [] then Removed(walk, f) else walk;
              Walking(cfg, listed, pns, walk', i + 1, ToFront(eligible, f), found + [f])
    {
      hide Inferred, Provided, NamesIt, Hit, FoundOver, FoundAmong, Reverse, Removed, NoneInferred, Ahead;
      IsInferred(cfg, listed, walk[i], pns, f);
      SameMembers(eligible, listed);
      MoreFound(eligible, found, f);
      FoundAhead(cfg, pns, walk, i, found, f);
    }

    lemma FoundAhead(cfg: Config, pns: map<string, string>, walk: seq<string>, i: nat, found: seq<string>, f: string)
      requires Cached(recs, walk) && i < |walk| && (found == [] ==> f in walk)
      requires Hit(cfg, Provided(pnProvides, recs[walk[i]].pn), pns, found) == Some(f)
      ensures var walk' := if found == [] then Removed(walk, f) else walk;
              && (forall g <- walk' :: g in walk) && Cached(recs, walk') && i <= |walk'|
              && FoundOver(recs, cfg, pnProvides, pns, Ahead(cfg, pns, walk', i + 1, found + [f]), found + [f])
                 == FoundOver(recs, cfg, pnProvides, pns, Ahead(cfg, pns, walk, i, found), found)
    {
      hide Provided, Hit, FoundOver, Removed, Skipping, Walked;
      WalkStep(cfg, pns, walk, i, found);
      if found == [] {
        RemovedTail(walk, f, i + 1);
        RemovedMembers(walk, f);
      }
    }

    lemma WalkEnds(cfg: Config, listed: seq<string>, pns: map<string, string>,
                   walk: seq<string>, i: nat, eligible: seq<string>, found: seq<string>)
      requires Cached(recs, listed) && Walking(cfg, listed, pns, walk, i, eligible, found) && i >= |walk|
      ensures multiset(eligible) == multiset(listed) && |found| <= |eligible|
      ensures forall f <- eligible[..|found|] :: Inferred(recs, cfg, pnProvides, listed, f)
      ensures eligible[..|found|] == Reverse(FoundAmong(cfg, listed))
      ensures found == [] ==> eligible == listed
      ensures found == [] <==> forall f <- listed :: !Inferred(recs, cfg, pnProvides, listed, f)
    {
      hide Inferred, FoundAmong, Reverse;
      NothingAhead(cfg, pns, walk, i, found);
      ReverseMembers(found);
      if found == [] {
        assert listed[..|listed|] == listed;
        NoneAtAll(cfg, listed);
      } else {
        assert found[0] in found;
      }
    }

    /** The files that the walk has yet to look at. */
    ghost function Ahead(cfg: Config, pns: map<string, string>, walk: seq<string>, i: nat,
        found: seq<string>): seq<string>
      requires Cached(recs, walk) && i <= |walk| + 1
    {
      if i > |walk| then [] else if found == [] then
        Walked(recs, cfg, pnProvides, pns, walk[..i], walk[i..]) else walk[i..]
    }

    lemma NothingAhead(cfg: Config, pns: map<string, string>, walk: seq<string>, i: nat, found: seq<string>)
      requires Cached(recs, walk) && |walk| <= i <= |walk| + 1
      ensures FoundOver(recs, cfg, pnProvides, pns, Ahead(cfg, pns, walk, i, found), found) == found
    {
    }

    lemma WalkStep(cfg: Config, pns: map<string, string>, walk: seq<string>, i: nat, found: seq<string>)
      requires Cached(recs, walk) && i < |walk|
      ensures var hit := Hit(cfg, Provided(pnProvides, recs[walk[i]].pn), pns, found);
              FoundOver(recs, cfg, pnProvides, pns, Ahead(cfg, pns, walk, i, found), found)
              == match hit
                 case None => FoundOver(recs, cfg, pnProvides, pns, Ahead(cfg, pns, walk, i + 1, found), found)
                 case Some(f) => FoundOver(recs, cfg, pnProvides, pns,
                   if found == [] then Skipping(walk[..i + 1], walk[i + 1..], f) else walk[i + 1..], found + [f])
    {
      hide Hit, Provided, Skipping;
      assert walk[i..][0] == walk[i] && walk[i..][1..] == walk[i + 1..] && walk[..i] + [walk[i]] == walk[..i + 1];
    }

    /** No recipe of `some` provides anything with a preference for a listed one. */
    ghost predicate NoneInferred(cfg: Config, listed: seq<string>, some: seq<string>)
      requires Cached(recs, listed) && Cached(recs, some)
    {
      forall e <- some, f <- listed :: !NamesIt(cfg, Provided(pnProvides, recs[e].pn), recs[f].pn)
    }

    lemma NoneYet(cfg: Config, listed: seq<string>)
      requires Cached(recs, listed)
      ensures NoneInferred(cfg, listed, listed[..0]) && Reverse([]) == []
    {
    }

    lemma StillNone(cfg: Config, listed: seq<string>, i: nat, pns: map<string, string>)
      requires Cached(recs, listed) && i < |listed| && NoneInferred(cfg, listed, listed[..i])
      requires forall f <- listed :: recs[f].pn in pns
      requires forall pn <- pns.Keys :: !NamesIt(cfg, Provided(pnProvides, recs[listed[i]].pn), pn)
      ensures NoneInferred(cfg, listed, listed[..i + 1])
    {
      hide NamesIt, Provided;
      assert listed[..i + 1] == listed[..i] + [listed[i]];
    }

    lemma NoneAtAll(cfg: Config, listed: seq<string>)
      requires Cached(recs, listed) && NoneInferred(cfg, listed, listed)
      ensures forall f <- listed :: !Inferred(recs, cfg, pnProvides, listed, f)
    {
      hide NamesIt, Provided;
    }

    lemma IsInferred(cfg: Config, listed: seq<string>, e: string, pns: map<string, string>, f: string)
      requires Cached(recs, listed) && e in listed && f in listed && recs[f].pn in pns
      requires NamesIt(cfg, Provided(pnProvides, recs[e].pn), recs[f].pn)
      ensures Inferred(recs, cfg, pnProvides, listed, f)
    {
    }
  }

  /** `pns` */
  method FilesOf(recs: Recipes, listed: seq<string>) returns (pns: map<string, string>)
    requires Cached(recs, listed)
    ensures pns == FileMap(recs, listed)
    ensures forall f <- listed :: recs[f].pn in pns
    ensures forall pn <- pns.Keys :: pns[pn] in listed && recs[pns[pn]].pn == pn
  {
    pns := map[];
    for i := 0 to |listed|
      invariant pns == FileMap(recs, listed[..i])
      invariant forall f <- listed[..i] :: recs[f].pn in pns
      invariant forall pn <- pns.Keys :: pns[pn] in listed && recs[pns[pn]].pn == pn
    {
      assert listed[..i + 1] == listed[..i] + [listed[i]] && listed[..i + 1][..i] == listed[..i];
      pns := pns[recs[listed[i]].pn := listed[i]];
    }
    assert listed[..|listed|] == listed;
  }

  /** The inner loop: the first preference for a listed recipe that was not found before. */
  method PreferredAmong(cfg: Config, provided: seq<string>, pns: map<string, string>, found: seq<string>)
    returns (pref: Option<string>)
    ensures pref == Hit(cfg, provided, pns, found)
    ensures pref.Some? ==>
      pref.value !in found && exists pn :: pn in pns && pns[pn] == pref.value && NamesIt(cfg, provided, pn)
    ensures pref.None? ==> forall pn <- pns.Keys :: pns[pn] !in found ==> !NamesIt(cfg, provided, pn)
  {
    pref := None;
    for i := 0 to |provided|
      invariant pref.None? && forall pn <- pns.Keys :: pns[pn] !in found ==> !NamesIt(cfg, provided[..i], pn)
      invariant Hit(cfg, provided[i..], pns, found) == Hit(cfg, provided, pns, found)
    {
      assert provided[i..][0] == provided[i] && provided[i..][1..] == provided[i + 1..];
      assert provided[..i + 1] == provided[..i] + [provided[i]] && provided[i] in provided;
      var prefervar := cfg("PREFERRED_PROVIDER_" + provided[i]);
      if prefervar.Some? && prefervar.value in pns && pns[prefervar.value] !in found {
        assert NamesIt(cfg, provided, prefervar.value);
        return Some(pns[prefervar.value]);
      }
    }
    assert provided[..|provided|] == provided;
  }

  lemma {:induction false} RemovedKeeps(xs: seq<string>, f: string, k: nat)
    requires f in xs && k <= |xs| && f !in xs[..k]
    ensures k < |xs| && Removed(xs, f)[..k] == xs[..k]
    decreases k
  {
    if k > 0 {
      assert xs[0] == xs[..k][0] && xs[..k][1..] == xs[1..][..k - 1];
      RemovedKeeps(xs[1..], f, k - 1);
    }
  }

  lemma RemovedMembers(xs: seq<string>, f: string)
    requires f in xs
    ensures forall x <- Removed(xs, f) :: x in xs
  {
    hide Removed;
    forall x <- Removed(xs, f) ensures x in xs {
      assert x in multiset(Removed(xs, f));
      assert x in multiset(xs);
    }
  }

  lemma {:induction false} ReverseMembers(xs: seq<string>)
    ensures forall x :: x in Reverse(xs) <==> x in xs
    decreases |xs|
  {
    if |xs| > 0 {
      assert xs == xs[..|xs| - 1] + [xs[|xs| - 1]];
      ReverseMembers(xs[..|xs| - 1]);
    }
  }

  lemma MoreFound(eligible: seq<string>, found: seq<string>, f: string)
    requires |found| <= |eligible| && eligible[..|found|] == Reverse(found) && f in eligible && f !in found
    ensures |found| + 1 <= |eligible| && ToFront(eligible, f)[..|found| + 1] == Reverse(found + [f])
  {
    hide Removed, Reverse;
    ReverseMembers(found);
    RemovedKeeps(eligible, f, |found|);
    ReverseSnoc(found, f);
    OneLonger(f, Removed(eligible, f), |found|);
  }

  lemma ReverseSnoc(xs: seq<string>, f: string)
    ensures Reverse(xs + [f]) == [f] + Reverse(xs)
  {
    assert (xs + [f])[..|xs|] == xs;
  }

  lemma OneLonger(f: string, xs: seq<string>, k: nat)
    requires k <= |xs|
    ensures ([f] + xs)[..k + 1] == [f] + xs[..k]
  {
  }
}