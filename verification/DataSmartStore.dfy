/**
 The layered datastore. Dictionaries and lists are heap objects, so that what a copy shares with
 the store it was copied from is visible; every lookup goes through the expansion cache.
 */
module DataSmartStore {
  import opened Wrappers
  import opened Text
  import opened OverrideChoice
  import opened DataModel
  import opened StoreUpdates

  /** The list behind `:append`, `:prepend` or `:remove`. */
  class ItemList {
    var items: seq<Item>

    constructor (items: seq<Item>)
      ensures this.items == items
    {
      this.items := items;
    }

    method Append(it: Item)
      modifies this
      ensures items == old(items) + [it]
    {
      items := items + [it];
    }
  }

  /** A list of the override index. */
  class EntryList {
    var entries: seq<Entry>

    constructor (entries: seq<Entry>)
      ensures this.entries == entries
    {
      this.entries := entries;
    }

    method Append(e: Entry)
      modifies this
      ensures entries == old(entries) + [e]
    {
      entries := entries + [e];
    }

    /** `list.remove`, where an absent element is ignored by the caller. */
    method Remove(e: Entry)
      modifies this
      ensures entries == RemoveFirst(old(entries), e)
    {
      hide RemoveFirst;
      var i := 0;
      while i < |entries|
        invariant 0 <= i <= |entries| && entries == old(entries)
        invariant RemoveFirst(entries, e) == entries[..i] + RemoveFirst(entries[i..], e)
      {
        RemoveFrom(entries, i, e);
        if entries[i] == e {
          entries := entries[..i] + entries[i + 1..];
          return;
        }
        i := i + 1;
      }
      RemoveNothing(e);
      assert entries[..i] == entries && entries[i..] == [] && entries + [] == entries;
    }

    static lemma RemoveFrom(l: seq<Entry>, i: nat, e: Entry)
      requires i < |l|
      ensures l[i] == e ==> RemoveFirst(l[i..], e) == l[i + 1..]
      ensures l[i] != e ==> l[..i] + RemoveFirst(l[i..], e) == l[..i + 1] + RemoveFirst(l[i + 1..], e)
    {
      assert l[i..][1..] == l[i + 1..] && l[..i + 1] == l[..i] + [l[i]];
    }

    static lemma RemoveNothing(e: Entry)
      ensures RemoveFirst([], e) == []
    {
    }
  }

  /** The dictionary of one variable. */
  class FlagDict {
    var text: map<string, string>
    var lists: map<Keyword, ItemList>

    constructor (text: map<string, string>, lists: map<Keyword, ItemList>)
      ensures this.text == text && this.lists == lists
    {
      this.text, this.lists := text, lists;
    }

    method Set(text: map<string, string>, lists: map<Keyword, ItemList>, ghost d: VarData)
      requires text == d.text && lists.Keys == d.lists.Keys && forall k :: k in lists ==> lists[k].items == d.lists[k]
      modifies this
      ensures this.text == text && this.lists == lists && Shows(d)
    {
      this.text, this.lists := text, lists;
    }

    ghost predicate Inside(S: set<object>)
      reads this
    {
      this in S && forall l :: l in lists.Values ==> l in S
    }

    /** The dictionary and its lists represent `d`. */
    ghost predicate Shows(d: VarData)
      reads this, lists.Values
    {
      text == d.text && lists.Keys == d.lists.Keys && forall k :: k in lists ==> lists[k].items == d.lists[k]
    }
  }

  /** `DataSmart.dict`: the variables of one level, with the parent level under `_data`. */
  class Layer {
    var vars: map<Name, FlagDict>
    const data: Layer?
    ghost const below: seq<Layer>

    constructor (parent: Layer?)
      ensures data == parent && vars == map[] && Linked()
    {
      data := parent;
      vars := map[];
      below := if parent == null then [] else [parent] + parent.below;
    }

    ghost predicate Linked() {
      below == if data == null then [] else [data] + data.below
    }

    ghost predicate Shows(m: VarMap, S: set<object>)
      reads S
    {
      && this in S && vars.Keys == m.Keys
      && forall v :: v in vars ==> vars[v] in S && vars[v].Inside(S) && vars[v].Shows(m[v])
    }

    lemma AllShow(m: VarMap, S: set<object>)
      requires Shows(m, S)
      ensures this in S && vars.Keys == m.Keys
      ensures forall v :: v in vars ==> vars[v] in S && vars[v].Inside(S) && vars[v].Shows(m[v])
    {
      hide FlagDict.Shows, FlagDict.Inside;
    }

    /** With one more dictionary. */
    lemma NowShows(m: VarMap, v: Name, value: VarData, was: map<Name, FlagDict>, d: FlagDict, S: set<object>)
      requires this in S && vars == was[v := d] && was.Keys == m.Keys && d.Inside(S + {d}) && d.Shows(value)
      requires forall w :: w in was ==> was[w] in S && was[w].Inside(S) && was[w].Shows(m[w])
      ensures Shows(m[v := value], S + {d})
    {
      hide FlagDict.Shows;
    }

    lemma ShowsIn(m: VarMap, S: set<object>, S': set<object>)
      requires Shows(m, S) && S <= S'
      ensures Shows(m, S')
    {
      hide FlagDict.Shows;
    }
  }

  lemma WithDataParts(st: Store, v: Name, d: VarData)
    requires |st.chain| > 0
    ensures WithData(st, v, d).chain[0] == st.chain[0][v := d] && WithData(st, v, d).over == st.over
    ensures forall i :: 1 <= i < |st.chain| ==> WithData(st, v, d).chain[i] == st.chain[i]
  {
  }

  lemma WrittenParts(st: Store, v: Name, x: string)
    requires |st.chain| > 0 && v in st.chain[0]
    ensures Written(st, v, x) ==
      WithData(st.(over := if ':' in v then AddEntries(st.over, v, Places(v)) else st.over), v,
        st.chain[0][v].(text := st.chain[0][v].text[CONTENT := x]))
  {
  }

  lemma WithDataTwice(st: Store, v: Name, d: VarData, d': VarData)
    requires |st.chain| > 0
    ensures WithData(WithData(st, v, d), v, d') == WithData(st, v, d')
  {
    assert st.chain[0][v := d][v := d'] == st.chain[0][v := d'];
  }

  lemma UnderClean(st: Store)
    requires Clean(st)
    ensures Clean(Store([map[]] + st.chain, st.over))
  {
    forall m | m in [map[]] + st.chain
      ensures CleanMap(m)
    {
      if m != map[] { assert m in st.chain; }
    }
  }

  class DataSmart {
    const dict: Layer
    var overridedata: map<Name, EntryList>
    var expandCache: map<Key, Parse>
    var overrides: Option<seq<string>>
    var overridesset: set<string>
    var overridevars: set<Name>
    var inoverride: bool
    /** The recursion limit for one chain of lookups. */
    const limit: nat

    /** The variables read for each cache entry. */
    ghost var seen: map<Key, set<Name>>
    /** Every dictionary and list that this store can reach, and those it got from its parent. */
    ghost var repr: set<object>
    ghost var shared: set<object>

    /** The store as a value. */
    ghost var contents: Store

    /** The levels below, none of which this store may change. */
    ghost predicate ParentsShow(cs: seq<VarMap>)
      reads this`shared, shared
    {
      |cs| == |dict.below| &&
      forall i :: 0 <= i < |cs| ==> dict.below[i].Linked() && dict.below[i].Shows(cs[i], shared)
    }

    /** The dictionaries of the top level are this store's own, one for each variable. */
    ghost predicate TopAlone()
      reads this`shared, dict
    {
      && dict !in shared
      && (forall v :: v in dict.vars ==> dict.vars[v] !in shared)
      && (forall v, w :: v in dict.vars && w in dict.vars && v != w ==> dict.vars[v] != dict.vars[w])
    }

    ghost predicate IndexShows(over: map<Name, seq<Entry>>)
      reads this`overridedata, overridedata.Values
    {
      overridedata.Keys == over.Keys && forall s :: s in overridedata ==> overridedata[s].entries == over[s]
    }

    /** Each list of the index belongs to one name. */
    ghost predicate IndexAlone()
      reads this`overridedata
    {
      forall s, t :: s in overridedata && t in overridedata && s != t ==> overridedata[s] != overridedata[t]
    }

    /** Every list of the index is new or was there before under the same name. */
    twostate predicate IndexKept()
      reads this`overridedata
    {
      forall s :: s in overridedata ==>
        fresh(overridedata[s]) || (s in old(overridedata) && overridedata[s] == old(overridedata)[s])
    }

    /** How the heap represents `contents`; what the store owns is apart from what it shares. */
    ghost predicate Shape()
      reads this`overridedata, this`repr, this`shared, this`contents, repr
    {
      && this !in repr && shared <= repr
      && (forall l :: l in overridedata.Values ==> l in repr)
      && |contents.chain| > 0 && dict.Linked() && dict.Shows(contents.chain[0], repr)
      && ParentsShow(contents.chain[1..]) && TopAlone() && IndexShows(contents.over) && IndexAlone()
    }

    ghost predicate Valid()
      reads this`overridedata, this`repr, this`shared, this`contents, repr
      reads this`overrides, this`overridesset, this`inoverride, this`expandCache, this`seen
    {
      && this !in repr && Shape()
      && (overrides.Some? ==> overridesset == set o | o in overrides.value)
      && (inoverride ==> overrides.Some?)
      && seen.Keys == expandCache.Keys
    }

    /** The memo table agrees with plain evaluation, which is defined for stores without `:remove` on variants. */
    ghost predicate Coherent()
      reads this`contents, this`overrides, this`expandCache, this`seen
    {
      Clean(contents) && CacheOk(contents, overrides, expandCache, seen)
    }

    /** The override list in force, or the one that `need_overrides` would settle on. */
    ghost function Goal(): Option<seq<string>>
      reads this`contents, this`overrides
    {
      if overrides.Some? then overrides else Settled(contents, limit)
    }

    /** What lookups that read R, and may have failed, do to the memo table and the overrides. */
    twostate predicate Evolved(ok: bool, R: set<Name>, own: set<Name>)
      reads this`contents, this`overrides, this`expandCache, this`seen, this`inoverride
    {
      && Later(old(overrides), overrides)
      && (ok ==> inoverride == old(inoverride))
      && (ok && old(Coherent()) ==> Coherent())
      && (ok && old(Coherent()) && old(overrides).None? && overrides.Some? ==> Stable(contents, overrides.value))
      && (ok && old(Coherent()) && old(Goal()).Some? ==> Goal() == old(Goal()))
      && (ok && old(overrides).Some? ==> Grew(old(expandCache), old(seen), expandCache, seen, R, own))
    }

    ghost function Pending(): nat
      reads this`overrides
    {
      if overrides.None? then 1 else 0
    }

    constructor (limit: nat)
      ensures Valid() && Coherent() && !inoverride && fresh(repr)
      ensures contents == Store([map[]], map[])
      ensures this.limit == limit && overrides.None? && overridevars == {"OVERRIDES", "FILE"} && shared == {}
    {
      dict := new Layer(null);
      this.limit := limit;
      overridedata, expandCache, seen := map[], map[], map[];
      overrides, overridesset, inoverride := None, {}, false;
      overridevars := {"OVERRIDES", "FILE"};
      new;
      repr, shared := {dict}, {};
      contents := Store([map[]], map[]);
    }

    constructor Under(parent: DataSmart)
      requires parent.Valid()
      ensures Valid() && (Clean(parent.contents) ==> Coherent()) && !inoverride && fresh(dict) && dict.vars == map[]
      ensures shared == parent.repr && repr == shared + {dict}
      ensures contents == Store([map[]] + parent.contents.chain, parent.contents.over)
    {
      hide Find, Clean, Shape, LevelsShow;
      parent.AsParent();
      parent.SharedPart();
      dict := new Layer(parent.dict);
      limit := parent.limit;
      overridedata, expandCache, seen := parent.overridedata, map[], map[];
      overrides, overridesset, inoverride := None, {}, false;
      overridevars := parent.overridevars;
      new;
      repr, shared := parent.repr + {dict}, parent.repr;
      contents := Store([map[]] + parent.contents.chain, parent.contents.over);
      if Clean(parent.contents) { UnderClean(parent.contents); }
      CacheOkEmpty(contents, None);
      assert contents.chain[1..] == parent.contents.chain;
      EmptyTop(parent);
    }

    /** How the levels of a store look from a copy of it. */
    ghost predicate LevelsShow()
      reads this`repr, this`contents, repr
    {
      && |contents.chain| == 1 + |dict.below| && dict.Linked()
      && forall i :: 0 <= i < |contents.chain| ==>
          var l := ([dict] + dict.below)[i]; l.Linked() && l.Shows(contents.chain[i], repr)
    }

    lemma AsParent()
      requires Shape()
      ensures LevelsShow()
    {
      forall i | 0 < i < |contents.chain|
        ensures var l := ([dict] + dict.below)[i]; l.Linked() && l.Shows(contents.chain[i], repr)
      {
        assert contents.chain[i] == contents.chain[1..][i - 1];
        assert dict.below[i - 1].Shows(contents.chain[i], shared);
      }
    }

    lemma SharedPart()
      requires Shape()
      ensures shared <= repr && this !in repr && dict in repr
    {
    }

    lemma EmptyTop(parent: DataSmart)
      requires dict.vars == map[] && dict.Linked() && dict.data == parent.dict && dict !in shared && parent.Shape()
      requires shared == parent.repr && repr == shared + {dict} && overridedata == parent.overridedata
      requires contents == Store([map[]] + parent.contents.chain, parent.contents.over)
      requires parent.LevelsShow() && this !in repr
      ensures Shape()
    {
      assert contents.chain[1..] == parent.contents.chain;
    }

    // ----- lookups -----

    method FindVar(v: Name) returns (f: FlagDict?)
      requires Shape()
      ensures f == null <==> Find(contents.chain, v).None?
      ensures f != null ==> f.Inside(repr) && f.Shows(Find(contents.chain, v).value)
      ensures v in dict.vars ==> f == dict.vars[v]
    {
      hide Shape, FlagDict.Shows, FlagDict.Inside, Find;
      AsParent();
      var dest: Layer? := dict;
      ghost var i := 0;
      assert contents.chain[0..] == contents.chain;
      while dest != null
        invariant 0 <= i <= |contents.chain|
        invariant Find(contents.chain, v) == Find(contents.chain[i..], v)
        invariant i > 0 ==> v !in dict.vars
        invariant if dest == null then i == |contents.chain|
          else i < |contents.chain| && dest == ([dict] + dict.below)[i]
        decreases |contents.chain| - i
      {
        Linkage(dest, i);
        FindBelow(contents.chain, i, v);
        dest.AllShow(contents.chain[i], repr);
        if v in dest.vars {
          return dest.vars[v];
        }
        dest := dest.data;
        i := i + 1;
      }
      assert contents.chain[i..] == [];
      FindNowhere(v);
      f := null;
    }

    static lemma FindNowhere(v: Name)
      ensures Find([], v) == None
    {
    }

    method SetOverrides(list: seq<string>, inside: bool)
      requires Valid()
      modifies this`overrides, this`overridesset, this`inoverride
      ensures Valid() && overrides == Some(list) && inoverride == inside
    {
      hide Clean, Shape;
      overrides, overridesset, inoverride := Some(list), (set o | o in list), inside;
    }

    /** One round of `need_overrides`, up to the comparison. */
    method OverridesRound() returns (r: Result<seq<string>>)
      requires Valid() && !inoverride
      requires overrides.Some? ==>
        Content(OVERRIDES) in expandCache && overrides.value == OverrideList(expandCache[Content(OVERRIDES)].value)
      modifies this`expandCache, this`seen, this`overrides, this`overridesset, this`inoverride
      ensures Valid()
      ensures r.Ok? ==> overrides.Some? && !inoverride && Content(OVERRIDES) in expandCache
      ensures r.Ok? ==> r.value == OverrideList(expandCache[Content(OVERRIDES)].value)
      ensures r.Ok? && Clean(contents) ==>
        Coherent() && Next(contents, overrides.value, r.value) && Seeded(expandCache, seen)
      ensures r.Ok? && old(overrides).Some? ==> overrides == old(overrides)
      ensures r.Ok? && old(overrides).None? && old(Coherent()) ==> Next(contents, [], overrides.value)
      ensures old(overrides).Some? && Clean(contents) && NextAt(contents, old(overrides).value, limit).Some? ==> r.Ok?
      ensures old(overrides).None? && old(Coherent()) && NextAt(contents, [], limit).Some? ==>
        NextAt(contents, NextAt(contents, [], limit).value, limit).Some? ==> r.Ok?
      decreases 0, limit, 1, 0
    {
      hide Eval, OverrideList, Clean, Shape, Seeded, Grew;
      // Lookups come back here recursively, so dummy values are set up first.
      SetOverrides([], true);
      ghost var fromUnknown := old(overrides).None? && old(Coherent());
      if fromUnknown {
        CacheOkLater(contents, overrides, expandCache, seen);
      }
      var first, _ := GetVarFlag(Content(OVERRIDES), limit);
      if first.Raised? {
        return Raised;
      }
      if fromUnknown {
        assert EvalsTo(contents, [], Content(OVERRIDES), first.value, seen[Content(OVERRIDES)]);
        assert Next(contents, [], OverrideList(first.value.value));
        if NextAt(contents, [], limit).Some? {
          NextAtIsNext(contents, [], limit, OverrideList(first.value.value));
        }
      }
      SetOverrides(OverrideList(first.value.value), false);
      expandCache, seen := map[], map[];
      assert Clean(contents) ==> Coherent();
      var second, _ := GetVarFlag(Content(OVERRIDES), limit);
      if second.Raised? {
        return Raised;
      }
      r := Ok(OverrideList(second.value.value));
      assert Clean(contents) ==>
        EvalsTo(contents, overrides.value, Content(OVERRIDES), second.value, seen[Content(OVERRIDES)]);
      SeededAfter(expandCache, seen);
    }

    method NeedOverrides() returns (r: Result<()>)
      requires Valid()
      modifies this`expandCache, this`seen, this`overrides, this`overridesset, this`inoverride
      ensures Valid() && Evolved(r.Ok?, {}, {})
      ensures old(overrides).Some? ==>
        && r.Ok? && overrides == old(overrides)
        && expandCache == old(expandCache) && seen == old(seen)
      ensures r.Ok? ==> overrides.Some? && inoverride == old(inoverride)
      ensures old(Coherent()) && r.Ok? ==> Coherent()
      ensures r.Ok? && old(overrides).None? && Clean(contents) ==> Coherent() && Seeded(expandCache, seen)
      ensures old(Coherent()) && old(Goal()).Some? ==> r.Ok? && overrides == old(Goal())
      decreases Pending(), 0, 0, 0
    {
      hide Eval, NextAt, Settled, OverrideList, Clean, Next, Progress, Stable, Shape, CacheOk, Seeded;
      if overrides.Some? {
        return Ok(());
      }
      // The guard on `inoverride` never fires: it is only set while there is a list.
      assert !inoverride;
      ghost var coherent, goal := Coherent(), Goal();
      if coherent && goal.Some? { SettledContinues(contents, limit); }
      var count := 0;
      while count < 5
        invariant 0 <= count <= 5
        invariant Valid() && !inoverride
        invariant count == 0 ==> overrides.None? && (coherent ==> Coherent())
        invariant count > 0 ==>
          && overrides.Some? && Content(OVERRIDES) in expandCache
          && overrides.value == OverrideList(expandCache[Content(OVERRIDES)].value)
        invariant count > 0 && coherent ==> Progress(contents, limit, count, overrides.value, goal)
        decreases 5 - count
      {
        if count > 0 && coherent && goal.Some? {
          ProgressContinues(contents, limit, count, overrides.value, goal);
        }
        var newoverrides := OverridesRound();
        if newoverrides.Raised? {
          return Raised;
        }
        if coherent {
          if count == 0 { ProgressStart(contents, limit, overrides.value); }
          ProgressStep(contents, limit, count, overrides.value, goal, newoverrides.value);
        }
        if newoverrides.value == overrides.value {
          return Ok(());
        }
        SetOverrides(newoverrides.value, false);
        count := count + 1;
      }
      if coherent && goal.Some? { ProgressContinues(contents, limit, count, overrides.value, goal); }
      r := Raised;
    }

    /** `getVarFlag` with `expand` or `retparser`: the memo if there is one, else a new one. */
    method GetVarFlag(k: Key, depth: nat) returns (r: Result<Parse>, ghost R: set<Name>)
      requires Valid()
      modifies this`expandCache, this`seen, this`overrides, this`overridesset, this`inoverride
      ensures Valid() && Evolved(r.Ok?, R, if k.Content? then {} else {k.v})
      ensures k in old(expandCache) ==>
        && r == Ok(old(expandCache)[k]) && overrides == old(overrides)
        && expandCache == old(expandCache) && seen == old(seen)
      ensures r.Ok? ==> k in expandCache && expandCache[k] == r.value && seen[k] == R
      ensures old(Coherent()) && old(Goal()).Some? && Eval(contents, old(Goal()).value, k, depth).Done? ==> r.Ok?
      decreases Pending(), depth, 0, 0
    {
      hide Shape, Clean, CacheOk, SoundIn, Settled, Stable, Grew, RawIn, ExpandOptIn, TrimIn, Raw, ExpandOpt, Trim;
      R := {};
      if k in expandCache {
        GrewHit(expandCache, seen, k);
        return Ok(expandCache[k]), seen[k];
      }
      if depth == 0 {
        return Raised, {};
      }
      var parser: Parse;
      match k {
        case Flag(v, flag) =>
          var local := FindVar(v);
          var value := if local != null && flag in local.text then Some(local.text[flag]) else None;
          var full, R1 := ExpandOptional(k.Text(), value, depth - 1);
          if full.Raised? {
            return Raised, {};
          }
          parser, R := Parse(value, full.value), {v} + R1;
          if old(Coherent()) { EvalFlagIn(contents, overrides, v, flag, full.value, R1); }
          if old(overrides).Some? { GrewWith(old(expandCache), old(seen), expandCache, seen, R1, {}, v); }
        case Content(v) =>
          var p, R1 := EvaluateContent(v, depth);
          if p.Raised? {
            return Raised, {};
          }
          parser, R := p.value, R1;
      }
      if old(overrides).Some? { GrewInto(old(expandCache), old(seen), expandCache, seen, k, parser, R); }
      if old(Coherent()) { CacheOkInto(contents, overrides, expandCache, seen, k, parser, R); }
      expandCache, seen := expandCache[k := parser], seen[k := R];
      r := Ok(parser);
    }

    /** A value that has no memo: raw value, expansion, `:remove`. */
    method EvaluateContent(v: Name, depth: nat) returns (r: Result<Parse>, ghost R: set<Name>)
      requires Valid() && depth > 0
      modifies this`expandCache, this`seen, this`overrides, this`overridesset, this`inoverride
      ensures Valid() && Evolved(r.Ok?, R, {v})
      ensures old(Coherent()) && r.Ok? ==> SoundIn(contents, overrides, Content(v), r.value, R)
      ensures old(Coherent()) && old(Goal()).Some? && Eval(contents, old(Goal()).value, Content(v), depth).Done? ==>
        r.Ok?
      decreases Pending(), depth - 1, 6, 0
    {
      hide Shape, Clean, CacheOk, SoundIn, Settled, Stable, Grew, RawIn, ExpandOptIn, TrimIn, Raw, ExpandOpt, Trim;
      ghost var goal := Goal();
      ghost var toGoal := Coherent() && goal.Some?;
      var raw, R0 := RawValue(v, depth - 1);
      if raw.Raised? {
        return Raised, {};
      }
      ghost var ov0, c1, s1 := overrides, expandCache, seen;
      if toGoal { RawAgrees(contents, ov0, goal.value, v, depth - 1, raw.value, R0); }
      var full, R1 := ExpandOptional(v, raw.value, depth - 1);
      if full.Raised? {
        return Raised, {};
      }
      ghost var ov1, c2, s2 := overrides, expandCache, seen;
      if toGoal { ExpandOptAgrees(contents, ov1, goal.value, v, raw.value, depth - 1, full.value, R1); }
      var value, R2 := TrimValue(v, full.value, depth - 1);
      if value.Raised? {
        return Raised, {};
      }
      r, R := Ok(Parse(raw.value, value.value)), {v} + R0 + R1 + R2;
      if old(Coherent()) {
        EvalContentIn(contents, ov0, ov1, overrides, v, raw.value, R0, full.value, R1, value.value, R2);
      }
      if old(overrides).Some? {
        assert {v} + {} == {v} && {v} + (R0 + R1 + R2) == R;
        GrewThen(old(expandCache), old(seen), c1, s1, c2, s2, R0, {v}, R1, {});
        GrewThen(old(expandCache), old(seen), c2, s2, expandCache, seen, R0 + R1, {v}, R2, {});
        GrewWith(old(expandCache), old(seen), expandCache, seen, R0 + R1 + R2, {v}, v);
      }
    }

    /** The `:append` loop; `local` is the dictionary of `v`. */
    method ApplyAppends(local: FlagDict?, v: Name, value: Option<string>) returns (r: Result<Option<string>>)
      requires Valid()
      requires if local == null then Find(contents.chain, v).None? else
        Find(contents.chain, v).Some? && local.Inside(repr) && local.Shows(Find(contents.chain, v).value)
      modifies this`expandCache, this`seen, this`overrides, this`overridesset, this`inoverride
      ensures Valid() && Evolved(r.Ok?, {}, {})
      ensures r.Ok? ==> forall O :: Within(overrides, O) ==> r.value == Appended(ListOf(contents, v, Append), O, value)
      ensures old(Coherent()) && old(Goal()).Some? ==> r.Ok?
      ensures HasNoLists(contents, v) ==> r == Ok(value)
      decreases Pending(), 0, 1, 0
    {
      hide Shape, Clean, CacheOk, Settled, Stable, Grew, Find, Applies;
      if local == null || Append !in local.lists {
        GrewNot(expandCache, seen);
        return Ok(value);
      }
      var ready := NeedOverrides();
      if ready.Raised? {
        return Raised;
      }
      var items, out := local.lists[Append].items, value;
      assert items == ListOf(contents, v, Append);
      for i := 0 to |items|
        invariant out == Appended(items[..i], overrides.value, value)
      {
        assert items[..i + 1][..i] == items[..i];
        if Applies(items[i], overrides.value) {
          out := Some(out.GetOr("") + items[i].text);
        }
      }
      assert items[..|items|] == items;
      r := Ok(out);
    }

    /** The `:prepend` loop. */
    method ApplyPrepends(local: FlagDict?, v: Name, value: Option<string>) returns (r: Result<Option<string>>)
      requires Valid()
      requires if local == null then Find(contents.chain, v).None? else
        Find(contents.chain, v).Some? && local.Inside(repr) && local.Shows(Find(contents.chain, v).value)
      modifies this`expandCache, this`seen, this`overrides, this`overridesset, this`inoverride
      ensures Valid() && Evolved(r.Ok?, {}, {})
      ensures r.Ok? ==> forall O :: Within(overrides, O) ==>
        r.value == Prepended(ListOf(contents, v, Prepend), O, value)
      ensures old(Coherent()) && old(Goal()).Some? ==> r.Ok?
      ensures HasNoLists(contents, v) ==> r == Ok(value)
      decreases Pending(), 0, 1, 0
    {
      hide Shape, Clean, CacheOk, Settled, Stable, Grew, Find, Applies;
      if local == null || Prepend !in local.lists {
        GrewNot(expandCache, seen);
        return Ok(value);
      }
      var ready := NeedOverrides();
      if ready.Raised? {
        return Raised;
      }
      var items, out := local.lists[Prepend].items, value;
      assert items == ListOf(contents, v, Prepend);
      for i := 0 to |items|
        invariant out == Prepended(items[..i], overrides.value, value)
      {
        assert items[..i + 1][..i] == items[..i];
        if Applies(items[i], overrides.value) {
          out := Some(items[i].text + out.GetOr(""));
        }
      }
      assert items[..|items|] == items;
      r := Ok(out);
    }

    /** The value of the chosen override variant, if one is chosen. */
    method ChosenVariant(v: Name, depth: nat) returns (r: Result<Option<Parse>>, ghost R: set<Name>, ghost m: Name)
      requires Valid()
      modifies this`expandCache, this`seen, this`overrides, this`overridesset, this`inoverride
      ensures Valid() && Evolved(r.Ok?, R, {})
      ensures r.Ok? && r.value.None? ==> R == {} && forall O :: Within(overrides, O) ==> Selected(contents, O, v).None?
      ensures v !in contents.over ==> r == Ok(None)
      ensures r.Ok? && r.value.Some? ==> overrides.Some? && Selected(contents, overrides.value, v) == Some(m)
      ensures r.Ok? && r.value.Some? && old(Coherent()) ==> SoundIn(contents, overrides, Content(m), r.value.value, R)
      ensures old(Coherent()) && old(Goal()).Some? && Raw(contents, old(Goal()).value, v, depth).Done? ==> r.Ok?
      decreases Pending(), depth, 5, 0
    {
      hide Shape, Clean, Settled, Stable, Grew, Eval, SoundIn, Assembled, Find, Choose;
      m := v;
      if v !in overridedata {
        GrewNot(expandCache, seen);
        OverIndex();
        return Ok(None), {}, v;
      }
      OverIndex();
      var ready := NeedOverrides();
      if ready.Raised? {
        return Raised, {}, v;
      }
      var found := SelectOverride(overridedata[v].entries, overrides.value);
      if found.None? {
        return Ok(None), {}, v;
      }
      ghost var c1, s1 := expandCache, seen;
      var variant, R1 := GetVarFlag(Content(found.value), depth);
      if variant.Raised? {
        return Raised, {}, v;
      }
      r, R, m := Ok(Some(variant.value)), R1, found.value;
    }

    lemma OverIndex()
      requires Shape()
      ensures contents.over.Keys == overridedata.Keys
      ensures forall s :: s in overridedata ==> contents.over[s] == overridedata[s].entries
    {
    }

    /** The unexpanded value: a chosen variant or the content, then appends and prepends. */
    method RawValue(v: Name, depth: nat) returns (r: Result<Option<string>>, ghost R: set<Name>)
      requires Valid()
      modifies this`expandCache, this`seen, this`overrides, this`overridesset, this`inoverride
      ensures Valid() && Evolved(r.Ok?, R, {v})
      ensures old(Coherent()) && r.Ok? ==> RawIn(contents, overrides, v, r.value, R)
      ensures old(Coherent()) && old(Goal()).Some? && Raw(contents, old(Goal()).value, v, depth).Done? ==> r.Ok?
      ensures v !in contents.over && HasNoLists(contents, v) ==> r == Ok(LocalFlag(contents, Content(v)))
      decreases Pending(), depth, 5, 1
    {
      hide Shape, Clean, CacheOk, Settled, Stable, Grew, Eval, SoundIn, Raw, Find, Selected, RawIn, Appended, Prepended;
      var local := FindVar(v);
      var chosen, R1, m := ChosenVariant(v, depth);
      if chosen.Raised? {
        return Raised, {};
      }
      ghost var c1, s1 := expandCache, seen;
      var value := BaseValue(local, v, if chosen.value.Some? then chosen.value.value.unexpanded else None);
      r := ApplyDelayed(local, v, value);
      R := {v} + R1;
      if r.Raised? {
        return Raised, {};
      }
      if old(Coherent()) { RawFrom(v, chosen.value, m, R1, r.value); }
      if old(overrides).Some? {
        ghost var no: set<Name> := {};
        assert R1 + no == R1 && no + no == no;
        GrewThen(old(expandCache), old(seen), c1, s1, expandCache, seen, R1, no, no, no);
        GrewWith(old(expandCache), old(seen), expandCache, seen, R1, {}, v);
      }
      assert {v} + {} == {v};
    }

    /** Content or default, unless a variant gave a value. */
    method BaseValue(local: FlagDict?, v: Name, chosen: Option<string>) returns (value: Option<string>)
      requires if local == null then Find(contents.chain, v).None? else
        Find(contents.chain, v).Some? && local.Shows(Find(contents.chain, v).value)
      ensures value == if chosen.None? then LocalFlag(contents, Content(v)) else chosen
    {
      value := chosen;
      if local != null && value.None? {
        if CONTENT in local.text {
          value := Some(local.text[CONTENT]);
        } else if DEFAULT in local.text {
          value := Some(local.text[DEFAULT]);
        }
      }
    }

    /** The `:append` and `:prepend` loops. */
    method ApplyDelayed(local: FlagDict?, v: Name, base: Option<string>) returns (r: Result<Option<string>>)
      requires Valid()
      requires if local == null then Find(contents.chain, v).None? else
        Find(contents.chain, v).Some? && local.Inside(repr) && local.Shows(Find(contents.chain, v).value)
      modifies this`expandCache, this`seen, this`overrides, this`overridesset, this`inoverride
      ensures Valid() && Evolved(r.Ok?, {}, {})
      ensures r.Ok? ==> forall O :: Within(overrides, O) ==>
        r.value == Prepended(ListOf(contents, v, Prepend), O, Appended(ListOf(contents, v, Append), O, base))
      ensures old(Coherent()) && old(Goal()).Some? ==> r.Ok?
      ensures HasNoLists(contents, v) ==> r == Ok(base)
      decreases Pending(), 0, 1, 1
    {
      hide Shape, Clean, CacheOk, Settled, Stable, Grew, Eval, Find, Appended, Prepended, ListOf;
      var appended := ApplyAppends(local, v, base);
      if appended.Raised? {
        return Raised;
      }
      ghost var ov1, c1, s1 := overrides, expandCache, seen;
      r := ApplyPrepends(local, v, appended.value);
      if r.Raised? {
        return Raised;
      }
      forall O | Within(overrides, O)
        ensures Within(ov1, O)
      {
      }
      if old(overrides).Some? {
        ghost var no: set<Name> := {};
        assert no + no == no;
        GrewThen(old(expandCache), old(seen), c1, s1, expandCache, seen, no, no, no, no);
      }
    }

    lemma RawFrom(v: Name, chosen: Option<Parse>, m: Name, R: set<Name>, raw: Option<string>)
      requires chosen.None? ==> R == {} && forall O :: Within(overrides, O) ==> Selected(contents, O, v).None?
      requires chosen.Some? ==>
        overrides.Some? && Selected(contents, overrides.value, v) == Some(m) &&
        SoundIn(contents, overrides, Content(m), chosen.value, R)
      requires var c := if chosen.Some? then chosen.value.unexpanded else None;
        var base := if c.None? then LocalFlag(contents, Content(v)) else c;
        forall O :: Within(overrides, O) ==>
          raw == Prepended(ListOf(contents, v, Prepend), O, Appended(ListOf(contents, v, Append), O, base))
      ensures RawIn(contents, overrides, v, raw, {v} + R)
    {
      hide Find, Selected, SoundIn, Appended, Prepended, RawIn;
      ghost var c := if chosen.Some? then chosen.value.unexpanded else None;
      forall O | Within(overrides, O)
        ensures raw == Assembled(contents, O, v, c)
      {
      }
      if chosen.Some? {
        assert Within(overrides, overrides.value);
        RawChosenIn(contents, overrides, v, m, chosen.value, R, raw);
      } else {
        RawLocalIn(contents, overrides, v, raw);
        assert {v} + R == {v};
      }
    }

    method ExpandOptional(who: string, s: Option<string>, depth: nat)
      returns (r: Result<Option<string>>, ghost R: set<Name>)
      requires Valid()
      modifies this`expandCache, this`seen, this`overrides, this`overridesset, this`inoverride
      ensures Valid() && Evolved(r.Ok?, R, {})
      ensures old(Coherent()) && r.Ok? ==> ExpandOptIn(contents, overrides, who, s, r.value, R)
      ensures old(Coherent()) && old(Goal()).Some? && ExpandOpt(contents, old(Goal()).value, who, s, depth).Done? ==>
        r.Ok?
      decreases Pending(), depth, 3, 0
    {
      hide Shape, Clean, CacheOk, Settled, Stable, Grew, Expand, ExpandIn, ExpandsTo;
      if s.None? {
        // Something that is not text is returned as it is.
        GrewNot(expandCache, seen);
        return Ok(None), {};
      }
      var text, _, R1, _ := ExpandWithRefs(who, s.value, depth);
      if text.Raised? {
        return Raised, {};
      }
      r, R := Ok(Some(text.value)), R1;
      if old(Coherent()) { ExpandOptFrom(contents, overrides, who, s.value, text.value, R1); }
    }

    /** `expandWithRefs`, with the references it met: those of every text on the way. */
    method ExpandWithRefs(who: string, s: string, depth: nat)
      returns (r: Result<string>, refs: set<Name>, ghost R: set<Name>, ghost texts: seq<string>)
      requires Valid()
      modifies this`expandCache, this`seen, this`overrides, this`overridesset, this`inoverride
      ensures Valid() && Evolved(r.Ok?, R, {})
      ensures texts != [] && texts[0] == s && (old(Coherent()) && r.Ok? ==> Rounds(contents, overrides, who, texts))
      ensures r.Ok? ==> r.value == texts[|texts| - 1] && refs == AllRefs(texts[..|texts| - 1])
      ensures r.Ok? && HasMark(r.value) ==> |texts| > 1 && texts[|texts| - 2] == r.value
      ensures r.Ok? && HasMark(s) ==> |texts| > 1
      ensures old(Coherent()) && r.Ok? ==> ExpandIn(contents, overrides, who, s, r.value, R)
      ensures old(Coherent()) && old(Goal()).Some? && Expand(contents, old(Goal()).value, who, s, depth).Done? ==> r.Ok?
      decreases Pending(), depth, 2, 0
    {
      hide Shape, Clean, CacheOk, Settled, Stable, Grew, Sub, SubIn, ExpandIn, Leads, Tokens, RefNames, HasMark,
           AllRefs, Rounds;
      ghost var goal := Goal();
      ghost var toGoal := Coherent() && goal.Some? && Expand(contents, goal.value, who, s, depth).Done?;
      var text, budget: nat := s, depth;
      refs, R, texts := {}, {}, [s];
      GrewNot(expandCache, seen);
      LeadsStart(contents, overrides, who, s);
      RoundsStart(contents, overrides, who, s);
      while HasMark(text)
        invariant budget <= depth
        invariant Valid() && Evolved(true, R, {})
        invariant texts != [] && texts[0] == s && texts[|texts| - 1] == text && refs == AllRefs(texts[..|texts| - 1])
        invariant |texts| == 1 ==> text == s
        invariant old(Coherent()) ==>
          Leads(contents, overrides, who, s, text, R) && Rounds(contents, overrides, who, texts)
        invariant toGoal ==> Expand(contents, goal.value, who, text, budget).Done?
        decreases budget
      {
        if budget == 0 {
          return Raised, {}, {}, texts;
        }
        ghost var ov, c1, s1 := overrides, expandCache, seen;
        var sub, names, R1 := Substitute(who, Tokens(text), budget - 1);
        if sub.Raised? {
          return Raised, {}, {}, texts;
        }
        AllRefsOn(texts);
        refs := refs + names;
        if old(Coherent()) { RoundsOn(contents, ov, overrides, who, texts, sub.value, R1); }
        assert (texts + [sub.value])[..|texts|] == texts;
        texts := texts + [sub.value];
        if toGoal { SubAgrees(contents, overrides, goal.value, who, Tokens(text), budget - 1, sub.value, R1); }
        if old(overrides).Some? {
          ghost var no: set<Name> := {};
          assert no + no == no;
          GrewThen(old(expandCache), old(seen), c1, s1, expandCache, seen, R, no, R1, no);
        }
        if sub.value == text {
          if old(Coherent()) { LeadsToFixed(contents, ov, overrides, who, s, text, R, R1); }
          return Ok(text), refs, R + R1, texts;
        }
        if old(Coherent()) { LeadsOn(contents, ov, overrides, who, s, text, R, sub.value, R1); }
        text, budget, R := sub.value, budget - 1, R + R1;
      }
      if old(Coherent()) { LeadsToPlain(contents, overrides, who, s, text, R); }
      r := Ok(text);
    }

    /** One round of substitution, reference by reference (`var_sub`). */
    method Substitute(who: string, ts: seq<Token>, depth: nat)
      returns (r: Result<string>, refs: set<Name>, ghost R: set<Name>)
      requires Valid()
      modifies this`expandCache, this`seen, this`overrides, this`overridesset, this`inoverride
      ensures Valid() && Evolved(r.Ok?, R, {})
      ensures r.Ok? ==> refs == RefNames(ts)
      ensures old(Coherent()) && r.Ok? ==> SubIn(contents, overrides, who, ts, r.value, R)
      ensures old(Coherent()) && old(Goal()).Some? && Sub(contents, old(Goal()).value, who, ts, depth).Done? ==> r.Ok?
      decreases Pending(), depth, 1, |ts|
    {
      hide Shape, Clean, Settled, Stable, Grew, Eval, SubIn, SoundIn;
      if |ts| == 0 {
        GrewNot(expandCache, seen);
        SubNilIn(contents, overrides, who);
        return Ok(""), {}, {};
      }
      match ts[0] {
        case Lit(c) =>
          var rest, names, R1 := Substitute(who, ts[1..], depth);
          if rest.Raised? {
            return Raised, {}, {};
          }
          r, refs, R := Ok([c] + rest.value), names, R1;
          if old(Coherent()) { SubLitIn(contents, overrides, who, ts, rest.value, R1); }
        case Ref(k) =>
          if k == who {
            return Raised, {}, {};
          }
          var p, R0 := GetVarFlag(Content(k), depth);
          if p.Raised? {
            return Raised, {}, {};
          }
          ghost var ov, c1, s1 := overrides, expandCache, seen;
          var rest, names, R1 := Substitute(who, ts[1..], depth);
          if rest.Raised? {
            return Raised, {}, {};
          }
          r, refs, R := Ok(p.value.value.GetOr(Spelled(ts[0])) + rest.value), {k} + names, R0 + R1;
          if old(Coherent()) { SubRefIn(contents, ov, overrides, who, ts, p.value, R0, rest.value, R1); }
          if old(overrides).Some? {
            ghost var no: set<Name> := {};
            assert no + no == no;
            GrewThen(old(expandCache), old(seen), c1, s1, expandCache, seen, R0, no, R1, no);
          }
      }
    }

    /** The `:remove` part of `getVarFlag`. */
    method TrimValue(v: Name, s: Option<string>, depth: nat) returns (r: Result<Option<string>>, ghost R: set<Name>)
      requires Valid()
      modifies this`expandCache, this`seen, this`overrides, this`overridesset, this`inoverride
      ensures Valid() && Evolved(r.Ok?, R, {})
      ensures old(Coherent()) && r.Ok? ==> TrimIn(contents, overrides, v, s, r.value, R)
      ensures old(Coherent()) && old(Goal()).Some? && Trim(contents, old(Goal()).value, v, s, depth).Done? ==> r.Ok?
      decreases Pending(), depth, 4, 1
    {
      hide Shape, Clean, CacheOk, Settled, Stable, Grew, BadWordsIn, BadWords, TrimIn, Find, DropWords;
      GrewNot(expandCache, seen);
      var local := FindVar(v);
      if s == None || s == Some("") || local == null || Remove !in local.lists {
        TrimIdle(contents, overrides, v, s);
        return Ok(s), {};
      }
      var ready := NeedOverrides();
      if ready.Raised? {
        return Raised, {};
      }
      var items := local.lists[Remove].items;
      assert items == ListOf(contents, v, Remove);
      var bad, R1 := CollectBad(items, depth);
      if bad.Raised? {
        return Raised, {};
      }
      var (applied, words) := bad.value;
      R := R1;
      if old(Coherent()) { TrimWith(contents, overrides, v, s.value, words, R); }
      DropNoWords(s.value);
      r := if applied then Ok(Some(DropWords(s.value, words))) else Ok(s);
    }

    /** The expanded words of the items that apply, and whether one did. */
    method CollectBad(items: seq<Item>, depth: nat) returns (r: Result<(bool, set<string>)>, ghost R: set<Name>)
      requires Valid() && overrides.Some?
      modifies this`expandCache, this`seen, this`overrides, this`overridesset, this`inoverride
      ensures Valid() && Evolved(r.Ok?, R, {}) && (r.Ok? ==> overrides == old(overrides))
      ensures r.Ok? && !r.value.0 ==> r.value.1 == {}
      ensures old(Coherent()) && r.Ok? ==> BadWordsIn(contents, overrides, items, r.value.1, R)
      ensures old(Coherent()) && BadWords(contents, old(overrides).value, items, depth).Done? ==> r.Ok?
      decreases Pending(), depth, 3, 1
    {
      hide Shape, Clean, CacheOk, Settled, Stable, Grew, Expand, ExpandIn, BadWordsIn, BadWords, Applies, Words;
      ghost var O := overrides.value;
      ghost var toGoal := Coherent() && BadWords(contents, O, items, depth).Done?;
      GrewNot(expandCache, seen);
      var applied, bad := false, {};
      R := {};
      BadWordsNilIn(contents, overrides);
      for i := 0 to |items|
        invariant Valid() && Evolved(true, R, {}) && overrides == Some(O)
        invariant !applied ==> bad == {}
        invariant old(Coherent()) ==> BadWordsIn(contents, Some(O), items[..i], bad, R)
      {
        var upTo := items[..i + 1];
        assert upTo[..i] == items[..i];
        if Applies(items[i], overrides.value) {
          ghost var c1, s1 := expandCache, seen;
          if toGoal { BadWordsPrefix(contents, O, items, i, depth); }
          var word, _, R1, _ := ExpandWithRefs("", items[i].text, depth);
          if word.Raised? {
            return Raised, {};
          }
          if old(Coherent()) { BadWordsMoreIn(contents, O, upTo, bad, R, word.value, R1); }
          ghost var no: set<Name> := {};
          assert no + no == no;
          GrewThen(old(expandCache), old(seen), c1, s1, expandCache, seen, R, no, R1, no);
          applied, bad, R := true, bad + Words(word.value), R + R1;
        } else if old(Coherent()) {
          BadWordsSkipIn(contents, O, upTo, bad, R);
        }
      }
      assert items[..|items|] == items;
      r := Ok((applied, bad));
    }

    // ----- writes -----

    /** The objects that writes to this store may change: its own level and that level's dictionaries. */
    ghost function Owned(): set<object>
      reads dict
    {
      {dict} + set v | v in dict.vars :: dict.vars[v]
    }

    /** `self.dict[var] = d` for a new dictionary. */
    method Install(v: Name, d: FlagDict, ghost value: VarData)
      requires Shape() && this !in repr
      requires d !in repr && d.Inside(repr + {d}) && d.Shows(value)
      modifies dict, this`repr, this`contents
      ensures Shape() && repr == old(repr) + {d} && dict.vars == old(dict.vars)[v := d]
      ensures contents == WithData(old(contents), v, value)
    {
      hide Find, WithData, ParentsShow, IndexShows, IndexAlone, FlagDict.Shows, FlagDict.Inside, Layer.Shows;
      ghost var top, vars := contents.chain[0], dict.vars;
      Alone();
      dict.AllShow(top, repr);
      WithDataParts(contents, v, value);
      repr := repr + {d};
      contents := WithData(contents, v, value);
      dict.vars := dict.vars[v := d];
      dict.NowShows(top, v, value, vars, d, old(repr));
    }

    lemma Alone()
      requires TopAlone()
      ensures dict !in shared
      ensures forall v :: v in dict.vars ==> dict.vars[v] !in shared
      ensures forall v, w :: v in dict.vars && w in dict.vars && v != w ==> dict.vars[v] != dict.vars[w]
    {
    }

    /** Writes into the dictionary of `v`, which the top level already has. */
    method Overwrite(v: Name, text: map<string, string>, lists: map<Keyword, ItemList>, ghost value: VarData)
      requires Shape() && this !in repr && v in dict.vars
      requires text == value.text && lists.Keys == value.lists.Keys
      requires forall k :: k in lists ==> lists[k] in repr && lists[k].items == value.lists[k]
      modifies dict.vars[v], this`contents
      ensures Shape() && dict.vars[v].text == text && dict.vars[v].lists == lists
      ensures contents == WithData(old(contents), v, value)
    {
      hide Find, WithData, ParentsShow, IndexShows, IndexAlone, TopAlone, FlagDict.Shows;
      var d := dict.vars[v];
      ghost var top := contents.chain[0];
      Alone();
      WithDataParts(contents, v, value);
      contents := WithData(contents, v, value);
      d.Set(text, lists, value);
      forall w | w in dict.vars
        ensures dict.vars[w] in repr && dict.vars[w].Inside(repr) && dict.vars[w].Shows(top[v := value][w])
      {
        assert w != v ==> dict.vars[w] != d;
      }
      assert dict.Shows(top[v := value], repr);
    }

    /** `_makeShadowCopy`: the dictionary is copied, the lists in it are shared. */
    method MakeShadowCopy(v: Name)
      requires Shape() && this !in repr && expandCache == map[] && seen == map[]
      modifies dict, this`repr, this`contents, this`expandCache, this`seen
      ensures Shape() && expandCache == map[] && seen == map[]
      ensures v in dict.vars && contents == WithData(old(contents), v, Current(old(contents), v))
      ensures v in contents.chain[0] && contents.chain[0][v] == Current(old(contents), v)
      ensures old(repr) <= repr && fresh(repr - old(repr)) && fresh(Owned() - old(Owned()))
      ensures dict.vars[v].Inside(repr) && dict.vars[v].Shows(Current(old(contents), v))
    {
      hide Shape, Find, WithData, Current, FlagDict.Shows, FlagDict.Inside;
      if v in dict.vars {
        AlreadyOwn(v);
        return;
      }
      var local := FindVar(v);
      Levels();
      ghost var st, d := contents, Current(contents, v);
      WithDataParts(st, v, d);
      CurrentShown(local, v);
      if local != null && (local.text != map[] || local.lists != map[]) {
        var copy := new FlagDict(local.text, local.lists);
        SameShown(local, copy, d);
        Install(v, copy, d);
      } else {
        // initVar
        expandCache, seen := map[], map[];
        var empty := new FlagDict(map[], map[]);
        EmptyShown(empty);
        Install(v, empty, d);
      }
    }

    lemma AlreadyOwn(v: Name)
      requires Shape() && v in dict.vars
      ensures contents == WithData(contents, v, Current(contents, v))
      ensures v in contents.chain[0] && contents.chain[0][v] == Current(contents, v)
      ensures dict.vars[v].Inside(repr) && dict.vars[v].Shows(Current(contents, v))
    {
      hide Shape, FlagDict.Shows, FlagDict.Inside;
      Levels();
      TopDict(v);
      FoundOnTop(contents, v);
    }

    static lemma FoundOnTop(st: Store, v: Name)
      requires |st.chain| > 0 && v in st.chain[0]
      ensures st == WithData(st, v, Current(st, v)) && Current(st, v) == st.chain[0][v]
    {
      assert st.chain[0] == st.chain[0][v := Current(st, v)];
      assert st.chain == [st.chain[0]] + st.chain[1..];
    }

    lemma TopDict(v: Name)
      requires Shape() && v in dict.vars
      ensures |contents.chain| > 0 && v in contents.chain[0]
      ensures dict.vars[v].Inside(repr) && dict.vars[v].Shows(contents.chain[0][v])
    {
      hide ParentsShow, TopAlone, IndexShows, IndexAlone;
    }

    lemma CurrentShown(local: FlagDict?, v: Name)
      requires if local == null then Find(contents.chain, v).None? else
        Find(contents.chain, v).Some? && local.Shows(Find(contents.chain, v).value)
      ensures local != null ==> local.Shows(Current(contents, v))
      ensures local == null || (local.text == map[] && local.lists == map[]) ==> Current(contents, v) == NODATA
    {
    }

    lemma SameShown(from: FlagDict, to: FlagDict, d: VarData)
      requires from.Inside(repr) && from.Shows(d) && to.text == from.text && to.lists == from.lists
      ensures to.Inside(repr + {to}) && to.Shows(d)
    {
    }

    lemma EmptyShown(to: FlagDict)
      requires to.text == map[] && to.lists == map[]
      ensures to.Inside(repr + {to}) && to.Shows(NODATA)
    {
    }

    /** `self.overridedata[short] = l` */
    method PutIndex(short: Name, l: EntryList)
      requires Shape() && l !in overridedata.Values
      modifies this`overridedata, this`repr, this`contents
      ensures Shape() && repr == old(repr) + {l} && overridedata == old(overridedata)[short := l]
      ensures contents == old(contents).(over := old(contents).over[short := l.entries])
    {
      hide Find, TopAlone, FlagDict.Shows, ParentsShow, Layer.Shows, IndexShows, IndexAlone;
      ghost var st, was := contents, overridedata;
      IndexFacts(st.over);
      contents := contents.(over := contents.over[short := l.entries]);
      repr := repr + {l};
      overridedata := overridedata[short := l];
      dict.ShowsIn(st.chain[0], old(repr), repr);
      IndexPut(short, l, was, st.over);
    }

    lemma IndexPut(short: Name, l: EntryList, was: map<Name, EntryList>, over: map<Name, seq<Entry>>)
      requires overridedata == was[short := l] && was.Keys == over.Keys && l !in was.Values
      requires forall s :: s in was ==> was[s].entries == over[s]
      requires forall s, t :: s in was && t in was && s != t ==> was[s] != was[t]
      ensures IndexShows(over[short := l.entries]) && IndexAlone()
    {
    }

    lemma IndexFacts(over: map<Name, seq<Entry>>)
      requires IndexShows(over) && IndexAlone()
      ensures overridedata.Keys == over.Keys
      ensures forall s :: s in overridedata ==> overridedata[s].entries == over[s]
      ensures forall s, t :: s in overridedata && t in overridedata && s != t ==> overridedata[s] != overridedata[t]
    {
    }

    /** `self.overridedata[short].append(e)`: one of the store's own lists is changed in place. */
    method AppendIndex(short: Name, e: Entry)
      requires Shape() && short in overridedata && overridedata[short] !in shared
      modifies overridedata[short], this`contents
      ensures Shape() && short in old(contents).over && contents == Entered(old(contents), short, e)
    {
      hide Find, TopAlone, ParentsShow;
      var l := overridedata[short];
      l.Append(e);
      contents := Entered(contents, short, e);
      forall v | v in dict.vars
        ensures dict.vars[v].Inside(repr) && dict.vars[v].Shows(contents.chain[0][v])
      {
        assert old(dict.vars[v].Shows(contents.chain[0][v]));
      }
      assert dict.Shows(contents.chain[0], repr);
      IndexAppended(old(contents.over), short, e, l);
    }

    lemma IndexAppended(over: map<Name, seq<Entry>>, short: Name, e: Entry, l: EntryList)
      requires short in overridedata && l == overridedata[short] && IndexAlone()
      requires overridedata.Keys == over.Keys && l.entries == over[short] + [e]
      requires forall s :: s in overridedata && overridedata[s] != l ==> overridedata[s].entries == over[s]
      ensures IndexShows(over[short := over[short] + [e]])
    {
    }

    /** Puts the entry of `v` for one place of the index. */
    method AddToIndex(v: Name, shortvar: Name, override: string)
      requires Shape()
      modifies this`overridedata, this`repr, this`contents
      ensures Shape() && old(repr) <= repr && fresh(repr - old(repr)) && IndexKept()
      ensures contents == old(contents).(over := AddEntry(old(contents).over, v, Place(shortvar, override)))
    {
      hide Shape, Find;
      ListFor(shortvar);
      Indexed();
      if Entry(v, override) !in overridedata[shortvar].entries {
        // The list may be shared with other stores, so a new one takes its place.
        var copy := new EntryList(overridedata[shortvar].entries);
        copy.Append(Entry(v, override));
        PutIndex(shortvar, copy);
      }
    }

    /** A new list for a name that has none. */
    method ListFor(short: Name)
      requires Shape()
      modifies this`overridedata, this`repr, this`contents
      ensures Shape() && old(repr) <= repr && fresh(repr - old(repr)) && IndexKept() && short in overridedata
      ensures contents == old(contents).(over :=
        if short in old(contents).over then old(contents).over else old(contents).over[short := []])
    {
      hide Shape, Find;
      Indexed();
      if short !in overridedata {
        var empty := new EntryList([]);
        PutIndex(short, empty);
        Indexed();
      }
    }

    /** Takes the entry of `v` out of one place of the index. */
    method DropFromIndex(v: Name, shortvar: Name, override: string)
      requires Shape()
      modifies this`overridedata, this`repr, this`contents
      ensures Shape() && old(repr) <= repr && fresh(repr - old(repr)) && IndexKept()
      ensures contents == old(contents).(over := DropEntry(old(contents).over, v, Place(shortvar, override)))
    {
      hide Shape, Find;
      Indexed();
      if shortvar in overridedata {
        // The list may be shared with other stores, so a new one takes its place.
        var copy := new EntryList(overridedata[shortvar].entries);
        copy.Remove(Entry(v, override));
        PutIndex(shortvar, copy);
      }
    }

    /** `_setvar_update_overrides` */
    method UpdateOverrides(v: Name)
      requires Shape()
      modifies this`overridedata, this`repr, this`contents
      ensures Shape() && old(repr) <= repr && fresh(repr - old(repr)) && IndexKept()
      ensures contents == old(contents).(over := AddEntries(old(contents).over, v, Places(v)))
    {
      hide Shape, Find, AddEntry, AddEntries, PlacesFrom, Places, RFind;
      FirstPlaces(v);
      var i := RFind(v, ':');
      var override, shortvar := v[i + 1..], Before(v, i);
      while override != "" && OverrideLike(override)
        invariant Shape() && old(repr) <= repr && fresh(repr - old(repr)) && IndexKept()
        invariant |shortvar| <= |v| && contents.chain == old(contents).chain
        invariant AddEntries(contents.over, v, PlacesFrom(v, shortvar, override)) ==
          AddEntries(old(contents).over, v, Places(v))
        decreases if override == "" then 0 else 1 + |shortvar|
      {
        ghost var over, short, key := contents.over, shortvar, override;
        AddToIndex(v, shortvar, override);
        override := "";
        if ':' in shortvar {
          var j := RFind(shortvar, ':');
          override, shortvar := v[j + 1..], v[..j];
          if |shortvar| == 0 {
            override := "";
          }
        }
        AddOnward(over, v, short, key, shortvar, override);
      }
      LastPlace(v, shortvar, override);
      AddNone(contents.over, v);
    }

    /** The loop of `delVar` over the places of `v`. */
    method DropOverrides(v: Name)
      requires Shape()
      modifies this`overridedata, this`repr, this`contents
      ensures Shape() && old(repr) <= repr && fresh(repr - old(repr)) && IndexKept()
      ensures contents == old(contents).(over := DropEntries(old(contents).over, v, Places(v)))
    {
      hide Shape, Find, DropEntry, DropEntries, PlacesFrom, Places, RFind;
      FirstPlaces(v);
      var i := RFind(v, ':');
      var override, shortvar := v[i + 1..], Before(v, i);
      while override != "" && OverrideLike(override)
        invariant Shape() && old(repr) <= repr && fresh(repr - old(repr)) && IndexKept()
        invariant |shortvar| <= |v| && contents.chain == old(contents).chain
        invariant DropEntries(contents.over, v, PlacesFrom(v, shortvar, override)) ==
          DropEntries(old(contents).over, v, Places(v))
        decreases if override == "" then 0 else 1 + |shortvar|
      {
        ghost var over, short, key := contents.over, shortvar, override;
        DropFromIndex(v, shortvar, override);
        override := "";
        if ':' in shortvar {
          var j := RFind(shortvar, ':');
          override, shortvar := v[j + 1..], v[..j];
          if |shortvar| == 0 {
            override := "";
          }
        }
        DropOnward(over, v, short, key, shortvar, override);
      }
      LastPlace(v, shortvar, override);
      DropNone(contents.over, v);
    }

    lemma Indexed()
      requires Shape()
      ensures overridedata.Keys == contents.over.Keys
      ensures forall s :: s in overridedata ==> overridedata[s].entries == contents.over[s]
    {
    }

    method ForgetCache()
      modifies this`expandCache, this`seen
      ensures expandCache == map[] && seen == map[]
      ensures old(Valid()) ==> Valid()
    {
      hide Shape, Clean;
      expandCache, seen := map[], map[];
    }

    /**
     `_setvar_update_overridevars`: follows the references of the value and of their own expanded
     values, then makes the next lookup compute the overrides again.
     */
    method UpdateOverrideVars(who: string, x: string) returns (r: Result<()>)
      requires Valid() && !inoverride
      modifies this`expandCache, this`seen, this`overrides, this`overridesset, this`inoverride, this`overridevars
      ensures Valid()
      ensures r.Ok? ==> !inoverride && overrides.None? && expandCache == map[] && seen == map[]
      ensures r.Ok? ==> old(overridevars) <= overridevars && (HasMark(x) ==> RefNames(Tokens(x)) <= overridevars)
    {
      hide Shape, Clean, RefNames, HasMark, Tokens, Expand, ExpandIn, Eval;
      var text, names, _, texts := ExpandWithRefs(who, x, limit);
      if text.Raised? {
        return Raised;
      }
      FirstRefs(texts);
      ghost var first := names;
      var rounds := 0;
      while !(names <= overridevars)
        invariant Valid() && !inoverride && old(overridevars) <= overridevars
        invariant rounds <= limit && (rounds == 0 ==> names == first)
        invariant rounds > 0 ==> first <= overridevars
        decreases limit - rounds
      {
        if rounds == limit {
          return Raised;
        }
        rounds := rounds + 1;
        var next: set<Name> := {};
        overridevars := overridevars + names;
        var todo := names;
        while todo != {}
          invariant Valid() && !inoverride && old(overridevars) + first <= overridevars
        {
          var i :| i in todo;
          todo := todo - {i};
          var value, _ := GetVarFlag(Content(i), limit);
          if value.Raised? {
            return Raised;
          }
          if value.value.value.Some? {
            var again, more, _, _ := ExpandWithRefs(i, value.value.value.value, limit);
            if again.Raised? {
              return Raised;
            }
            next := next + more;
          }
        }
        names := next;
      }
      ForgetCache();
      overrides := None;
      r := Ok(());
    }

    static lemma FirstRefs(texts: seq<string>)
      requires texts != []
      ensures |texts| > 1 ==> RefNames(Tokens(texts[0])) <= AllRefs(texts[..|texts| - 1])
    {
      hide Tokens, RefNames;
      if |texts| > 1 { assert texts[0] in texts[..|texts| - 1]; }
    }

    method DelVar(v: Name)
      requires Valid()
      modifies this`expandCache, this`seen, this`overridedata, this`repr, this`contents, dict
      ensures Valid() && expandCache == map[] && seen == map[]
      ensures contents == Deleted(old(contents), v) && (Clean(old(contents)) ==> Coherent()) && IndexKept()
      ensures old(repr) <= repr && fresh(repr - old(repr)) && fresh(Owned() - old(Owned()))
    {
      hide Shape, Find, Clean, DropEntries, Places, WithData;
      Levels();
      WithDataParts(contents, v, NODATA);
      if Clean(contents) { DeletedClean(contents, v); }
      CacheOkEmpty(Deleted(contents, v), overrides);
      ForgetCache();
      Entomb(v);
      if ':' in v {
        DropOverrides(v);
      }
    }

    /** An empty dictionary marks the deletion, and the variants are no longer indexed. */
    method Entomb(v: Name)
      requires Shape() && this !in repr
      modifies this`overridedata, this`repr, this`contents, dict
      ensures Shape() && |old(contents).chain| > 0
      ensures contents == WithData(old(contents), v, NODATA).(over := old(contents).over - {v})
      ensures overridedata == old(overridedata) - {v}
      ensures old(repr) <= repr && fresh(repr - old(repr)) && fresh(Owned() - old(Owned()))
    {
      hide Shape, Find, Clean, WithData;
      Levels();
      WithDataParts(contents, v, NODATA);
      var empty := new FlagDict(map[], map[]);
      assert this !in repr && empty.Inside(repr + {empty});
      Install(v, empty, NODATA);
      if v in overridedata {
        DropIndex(v);
      } else {
        Indexed();
        assert contents.over == contents.over - {v};
      }
    }

    /** `del self.overridedata[short]` */
    method DropIndex(short: Name)
      requires Shape() && short in overridedata
      modifies this`overridedata, this`contents
      ensures Shape() && contents == old(contents).(over := old(contents).over - {short})
      ensures overridedata == old(overridedata) - {short}
    {
      hide Find, TopAlone, FlagDict.Shows, ParentsShow;
      contents := contents.(over := contents.over - {short});
      overridedata := overridedata - {short};
    }

    /** `self.dict[var][flag] = value` on a shadow copy. */
    method PutText(v: Name, flag: string, x: string)
      requires Shape() && this !in repr && expandCache == map[] && seen == map[]
      modifies this`expandCache, this`seen, this`repr, this`contents, Owned()
      ensures Shape() && expandCache == map[] && seen == map[]
      ensures var d := Current(old(contents), v);
        contents == WithData(old(contents), v, d.(text := d.text[flag := x]))
      ensures old(repr) <= repr && fresh(repr - old(repr)) && fresh(Owned() - old(Owned()))
    {
      hide Shape, Find, Current, WithData;
      Levels();
      ghost var st, d := contents, Current(contents, v);
      MakeShadowCopy(v);
      Overwrite(v, dict.vars[v].text[flag := x], dict.vars[v].lists, d.(text := d.text[flag := x]));
      WithDataTwice(st, v, d, d.(text := d.text[flag := x]));
    }

    /** The same for one of the delayed lists. */
    method PutList(v: Name, k: Keyword, l: ItemList)
      requires Shape() && this !in repr && expandCache == map[] && seen == map[]
      modifies this`expandCache, this`seen, this`repr, this`contents, Owned()
      ensures Shape() && expandCache == map[] && seen == map[]
      ensures var d := Current(old(contents), v);
        contents == WithData(old(contents), v, d.(lists := d.lists[k := l.items]))
      ensures repr >= old(repr) + {l} && fresh(repr - old(repr) - {l}) && fresh(Owned() - old(Owned()))
    {
      hide Shape, Find, Current, WithData;
      Levels();
      ghost var st, d := contents, Current(contents, v);
      MakeShadowCopy(v);
      AddObject(l);
      Overwrite(v, dict.vars[v].text, dict.vars[v].lists[k := l], d.(lists := d.lists[k := l.items]));
      WithDataTwice(st, v, d, d.(lists := d.lists[k := l.items]));
    }

    /** `setVar` with a delayed operation in the name. */
    method SetDelayed(base: Name, k: Keyword, it: Item)
      requires Valid() && expandCache == map[] && seen == map[]
      modifies this`expandCache, this`seen, this`overridedata, this`repr, this`contents, Owned()
      ensures Valid() && expandCache == map[] && seen == map[]
      ensures contents == Delayed(old(contents), base, k, it) && IndexKept()
      ensures old(repr) <= repr && fresh(repr - old(repr)) && fresh(Owned() - old(Owned()))
    {
      hide Shape, Find, Clean, AddEntries, Places, WithData, Current;
      Levels();
      ghost var st := contents;
      PutDelayed(base, k, it);
      ghost var d := Current(st, base);
      WithDataParts(st, base, d.(lists := d.lists[k := d.ListOf(k) + [it]]));
      UpdateOverrides(base);
    }

    /** The extended list goes into the store's own dictionary. */
    method PutDelayed(base: Name, k: Keyword, it: Item)
      requires Shape() && this !in repr && expandCache == map[] && seen == map[]
      modifies this`expandCache, this`seen, this`repr, this`contents, Owned()
      ensures Shape() && expandCache == map[] && seen == map[] && |old(contents).chain| > 0
      ensures var d := Current(old(contents), base);
        contents == WithData(old(contents), base, d.(lists := d.lists[k := d.ListOf(k) + [it]]))
      ensures old(repr) <= repr && fresh(repr - old(repr)) && fresh(Owned() - old(Owned()))
    {
      hide Shape, Find, Clean, WithData, Current;
      Levels();
      var l := GatherList(base, k, []);
      assert Current(contents, base).ListOf(k) + [] == Current(contents, base).ListOf(k);
      l.Append(it);
      PutList(base, k, l);
    }

    ghost method AddObject(o: object)
      requires Shape() && o != this
      modifies this`repr
      ensures Shape() && repr == old(repr) + {o}
    {
      repr := repr + {o};
    }

    method StripVar(v: Name)
      requires Valid() && expandCache == map[] && seen == map[]
      modifies this`expandCache, this`seen, this`repr, this`contents, Owned()
      ensures Valid() && expandCache == map[] && seen == map[] && contents == Stripped(old(contents), v)
      ensures old(repr) <= repr && fresh(repr - old(repr)) && fresh(Owned() - old(Owned()))
    {
      hide Shape, Find, Clean, WithData, Current;
      Levels();
      ghost var st, d := contents, Current(contents, v);
      WithDataParts(st, v, d);
      MakeShadowCopy(v);
      Overwrite(v, dict.vars[v].text, map[], d.(lists := map[]));
      WithDataTwice(st, v, d, d.(lists := map[]));
    }

    /** The active variants of `v`, with the overrides computed if need be. */
    method ActiveVariants(v: Name) returns (r: Result<seq<Name>>)
      requires Valid() && !inoverride && v in overridedata && expandCache == map[] && seen == map[]
      modifies this`expandCache, this`seen, this`overrides, this`overridesset, this`inoverride
      ensures Valid()
      ensures old(overrides).Some? || (Clean(contents) && Settled(contents, limit).Some?) ==> r.Ok?
      ensures r.Ok? ==>
        !inoverride && overrides.Some? && v in contents.over &&
        r.value == ActiveNames(contents.over[v], overrides.value)
      ensures r.Ok? ==>
        if old(overrides).Some? then overrides == old(overrides) && expandCache == map[] && seen == map[]
        else Clean(contents) ==>
          Stable(contents, overrides.value) && CacheOk(contents, overrides, expandCache, seen) &&
          Seeded(expandCache, seen)
    {
      hide Shape, Find, Clean, IsActive, Seeded, Settled, Stable;
      Indexed();
      var ready := NeedOverrides();
      if ready.Raised? {
        return Raised;
      }
      var active: seq<Name>, entries := [], overridedata[v].entries;
      for i := 0 to |entries|
        invariant active == ActiveNames(entries[..i], overrides.value)
        modifies {}
      {
        assert entries[..i + 1][..i] == entries[..i];
        var o := entries[i].key;
        if o in overridesset {
          active := active + [entries[i].name];
        } else if ':' in o && forall p :: p in Split(o, ':') ==> p in overridesset {
          active := active + [entries[i].name];
        }
        SetIsList(o);
      }
      assert entries[..|entries|] == entries;
      r := Ok(active);
    }

    /** Membership in the set of overrides is membership in the list. */
    lemma SetIsList(o: string)
      requires overrides.Some? && overridesset == set x | x in overrides.value
      ensures IsActive(o, overrides.value) <==>
        (o in overridesset || (':' in o && forall p :: p in Split(o, ':') ==> p in overridesset))
    {
    }

    /** `for a in active: self.delVar(a)` */
    method DelVars(active: seq<Name>)
      requires Valid()
      modifies this`expandCache, this`seen, this`overridedata, this`repr, this`contents, dict
      ensures Valid() && |old(contents).chain| > 0 && contents == DeletedAll(old(contents), active)
      ensures if active == [] then expandCache == old(expandCache) && seen == old(seen)
        else expandCache == map[] && seen == map[]
      ensures old(repr) <= repr && fresh(repr - old(repr)) && fresh(Owned() - old(Owned()))
    {
      hide Shape, Find, Clean, Deleted;
      Levels();
      var i := 0;
      while i < |active|
        invariant 0 <= i <= |active| && Valid() && |contents.chain| > 0
        invariant if i == 0 then expandCache == old(expandCache) && seen == old(seen)
          else expandCache == map[] && seen == map[]
        invariant DeletedAll(contents, active[i..]) == DeletedAll(old(contents), active)
        invariant old(repr) <= repr && fresh(repr - old(repr)) && fresh(Owned() - old(Owned()))
      {
        assert active[i..][1..] == active[i + 1..];
        DelVar(active[i]);
        Levels();
        i := i + 1;
      }
    }

    /** The active variants of `v` and its override list go. */
    method DropVariants(v: Name) returns (r: Result<()>)
      requires Valid() && !inoverride && expandCache == map[] && seen == map[] && v in contents.over
      requires v in overridedata
      modifies this`expandCache, this`seen, this`overrides, this`overridesset, this`inoverride
      modifies this`overridedata, this`repr, this`contents, dict
      ensures old(overrides).Some? && NotOwnVariant(old(contents), old(overrides).value, v) ==> r.Ok?
      ensures Clean(old(contents)) && old(overrides).None? && Settled(old(contents), limit).Some? ==> r.Ok?
      ensures Valid()
      ensures r.Ok? ==> !inoverride && overrides.Some? && |old(contents).chain| > 0
      ensures r.Ok? ==> NotOwnVariant(old(contents), overrides.value, v)
      ensures r.Ok? ==> contents == Unvaried(old(contents), overrides.value, v)
      ensures r.Ok? ==>
        if old(overrides).Some? then overrides == old(overrides)
        else Clean(old(contents)) ==> Stable(old(contents), overrides.value)
      ensures r.Ok? ==>
        if old(overrides).None? && ActiveNames(old(contents).over[v], overrides.value) == [] then
          Clean(old(contents)) ==> CacheOk(old(contents), overrides, expandCache, seen) && Seeded(expandCache, seen)
        else expandCache == map[] && seen == map[]
      ensures old(repr) <= repr && fresh(repr - old(repr)) && fresh(Owned() - old(Owned()))
    {
      hide Shape, Find, Clean, DeletedAll, ActiveNames, CacheOk, Seeded, Settled, Stable, Eval;
      Levels();
      ghost var st := contents;
      var active := ActiveVariants(v);
      if active.Raised? {
        return Raised;
      }
      if Clean(st) { UnvariedClean(st, overrides.value, v); }
      ListStays(st, overrides.value, v);
      r := DropActive(v, active.value);
    }

    /** The active variants are deleted, then the list. */
    method DropActive(v: Name, active: seq<Name>) returns (r: Result<()>)
      requires Valid() && v in contents.over
      modifies this`expandCache, this`seen, this`overridedata, this`repr, this`contents, dict
      ensures |old(contents).chain| > 0
      ensures r.Ok? <==> v in DeletedAll(old(contents), active).over
      ensures Valid()
      ensures r.Ok? ==> var st := DeletedAll(old(contents), active); contents == st.(over := st.over - {v})
      ensures if active == [] then expandCache == old(expandCache) && seen == old(seen)
        else expandCache == map[] && seen == map[]
      ensures old(repr) <= repr && fresh(repr - old(repr)) && fresh(Owned() - old(Owned()))
    {
      hide Shape, Find, Clean, DeletedAll;
      DelVars(active);
      Indexed();
      if v !in overridedata {
        // A KeyError: v was listed among its own variants.
        return Raised;
      }
      DropIndex(v);
      r := Ok(());
    }

    /** The part of `setVar` that only runs outside parsing: delayed operations and active variants go. */
    method ClearVar(v: Name) returns (r: Result<()>, ghost O: seq<string>)
      requires Valid() && !inoverride && expandCache == map[] && seen == map[]
      modifies this`expandCache, this`seen, this`overrides, this`overridesset, this`inoverride
      modifies this`overridedata, this`repr, this`contents, Owned()
      ensures old(Settling(v)) ==> r.Ok?
      ensures Valid()
      ensures r.Ok? ==> !inoverride && |old(contents).chain| > 0 && contents == Cleared(old(contents), O, v)
      ensures r.Ok? && v !in old(contents).over ==> overrides == old(overrides)
      ensures r.Ok? ==> NotOwnVariant(old(contents), O, v)
      ensures r.Ok? && v in old(contents).over ==>
        && overrides == Some(O)
        && if old(overrides).Some? then overrides == old(overrides)
           else Clean(old(contents)) ==> Stable(Stripped(old(contents), v), O)
      ensures r.Ok? ==>
        if v in old(contents).over && old(overrides).None? && ActiveNames(old(contents).over[v], O) == [] then
          Clean(old(contents)) ==>
            CacheOk(Stripped(old(contents), v), Some(O), expandCache, seen) && Seeded(expandCache, seen)
        else expandCache == map[] && seen == map[]
      ensures old(repr) <= repr && fresh(repr - old(repr)) && fresh(Owned() - old(Owned()))
    {
      hide Shape, Find, Clean, Stripped, Unvaried, ActiveNames, CacheOk, Seeded, Settled, Stable, Eval;
      Levels();
      ghost var st := contents;
      O := [];
      if Clean(st) { StrippedClean(st, v); }
      StripVar(v);
      StrippedOver(st, v);
      Indexed();
      if v in overridedata {
        var dropped := DropVariants(v);
        if dropped.Raised? {
          return Raised, [];
        }
        O := overrides.value;
      }
      r := Ok(());
    }

    lemma Levels()
      requires Shape()
      ensures |contents.chain| > 0
    {
    }

    lemma ValidParts()
      requires Valid()
      ensures Shape() && |contents.chain| > 0 && this !in repr
    {
    }

    lemma OwnDict(v: Name)
      requires Shape() && v in contents.chain[0]
      ensures v in dict.vars && dict.vars[v].Inside(repr) && dict.vars[v].Shows(contents.chain[0][v])
    {
    }

    /** The end of a plain `setVar`: the override index, then the content. */
    method AssignContent(v: Name, x: string)
      requires Valid() && |contents.chain| > 0 && v in contents.chain[0]
      modifies this`overridedata, this`repr, this`contents, Owned()
      ensures Valid() && contents == Written(old(contents), v, x) && IndexKept()
      ensures old(repr) <= repr && fresh(repr - old(repr)) && fresh(Owned() - old(Owned()))
    {
      hide Shape, Find, Clean, Places, AddEntries, WithData, Written;
      ghost var st, d := contents, contents.chain[0][v];
      WrittenParts(st, v, x);
      if ':' in v {
        UpdateOverrides(v);
      }
      OwnDict(v);
      Overwrite(v, dict.vars[v].text[CONTENT := x], dict.vars[v].lists, d.(text := d.text[CONTENT := x]));
    }

    /** A write to a variable that OVERRIDES was seen to depend on makes the overrides unknown again. */
    method TrackOverrides(base: Name, who: Name, x: string) returns (r: Result<()>)
      requires Valid() && !inoverride
      modifies this`expandCache, this`seen, this`overrides, this`overridesset, this`inoverride, this`overridevars
      ensures Valid()
      ensures r.Ok? ==> !inoverride
      ensures base !in old(overridevars) ==> overridevars == old(overridevars)
      ensures r.Ok? && base in old(overridevars) ==> overrides.None? && expandCache == map[] && seen == map[]
      ensures base !in old(overridevars) ==>
        r.Ok? && overrides == old(overrides) && expandCache == old(expandCache) && seen == old(seen)
    {
      hide Shape, Clean;
      if base in overridevars {
        r := UpdateOverrideVars(who, x);
      } else {
        r := Ok(());
      }
    }

    /** When no choice changes, the memos left by settling on O are right exactly if `v`
     was not read or had the value. */
    ghost predicate SeedKept(st: Store, O: seq<string>, v: Name, x: string)
      requires |st.chain| > 0 && Content(OVERRIDES) in seen
      reads this`contents, this`overrides, this`expandCache, this`seen
    {
      var R := seen[Content(OVERRIDES)];
      ChoicesStay(st, O, v, x, R) ==> (Coherent() <==> NotSeen(st, v, x, R))
    }

    /** The memos are those of settling on O before the write. */
    ghost predicate Seeding(st: Store, O: seq<string>, v: Name, x: string)
      requires |st.chain| > 0
      reads this`contents, this`overrides, this`expandCache, this`seen
    {
      CacheOk(Stripped(st, v), Some(O), expandCache, seen) && Seeded(expandCache, seen) && SeedKept(st, O, v, x)
    }

    /** Whether a `setVar` of `v` computes the overrides, drops no variant and then keeps the memos of doing so. */
    ghost predicate Seeds(v: Name, parsing: bool, O: seq<string>)
      reads this`contents, this`overrides, this`overridevars
    {
      ParseName(v).None? && !parsing && AsksFirst(v, O) && v !in overridevars
    }

    /** The overrides are known or not asked for, or settle within the limit. */
    ghost predicate Settling(v: Name)
      reads this`contents, this`overrides
    {
      |contents.chain| > 0 &&
      (v in contents.over ==>
         if overrides.Some? then NotOwnVariant(contents, overrides.value, v)
         else Clean(contents) && Settled(Stripped(contents, v), limit).Some?)
    }

    /** Enough for a `setVar` to succeed. */
    ghost predicate WillSet(v: Name, parsing: bool)
      reads this`contents, this`overrides, this`overridevars
    {
      && !OldSyntax(v) && Target(v) !in overridevars
      && (parsing || ParseName(v).Some? || Settling(v))
    }

    ghost predicate AsksFirst(v: Name, O: seq<string>)
      reads this`contents, this`overrides
    {
      v in contents.over && overrides.None? && ActiveNames(contents.over[v], O) == []
    }

    /** The plain part of `setVar`, up to the tracking of OVERRIDES. */
    method SetPlain(v: Name, x: string, parsing: bool) returns (r: Result<()>, ghost O: seq<string>)
      requires Valid() && !inoverride && expandCache == map[] && seen == map[]
      modifies this`expandCache, this`seen, this`overrides, this`overridesset, this`inoverride
      modifies this`overridedata, this`repr, this`contents, Owned()
      ensures parsing ==> r.Ok? && overrides == old(overrides) && IndexKept()
      ensures old(Settling(v)) ==> r.Ok?
      ensures Valid()
      ensures r.Ok? ==> !inoverride && |old(contents).chain| > 0
      ensures r.Ok? ==> contents == if parsing then Written(old(contents), v, x) else Assigned(old(contents), O, v, x)
      ensures r.Ok? && !parsing ==> NotOwnVariant(old(contents), O, v)
      ensures r.Ok? && !parsing && v in old(contents).over ==>
        old(overrides) == Some(O) ||
        (old(overrides).None? && (Clean(old(contents)) ==> Stable(Stripped(old(contents), v), O)))
      ensures r.Ok? ==>
        if !parsing && old(AsksFirst(v, O)) then
          overrides == Some(O) && (Clean(old(contents)) ==> Seeding(old(contents), O, v, x))
        else expandCache == map[] && seen == map[]
      ensures old(repr) <= repr && fresh(repr - old(repr)) && fresh(Owned() - old(Owned()))
    {
      hide Shape, Find, Clean, Stripped, ActiveNames, CacheOk, Seeded, Settled, Stable, Eval, Cleared, Assigned,
           Written, ChoicesStay, NotSeen;
      O := [];
      if parsing {
        WriteParsing(v, x);
        r := Ok(());
      } else {
        r, O := WriteSettled(v, x);
      }
    }

    /** While parsing, delayed operations and variants stay. */
    method WriteParsing(v: Name, x: string)
      requires Valid() && expandCache == map[] && seen == map[]
      modifies this`expandCache, this`seen, this`overridedata, this`repr, this`contents, Owned()
      ensures Valid() && expandCache == map[] && seen == map[]
      ensures |old(contents).chain| > 0 && contents == Written(old(contents), v, x) && IndexKept()
      ensures old(repr) <= repr && fresh(repr - old(repr)) && fresh(Owned() - old(Owned()))
    {
      hide Shape, Find, Clean, Written, WithData, Current;
      Levels();
      ghost var st := contents;
      WrittenTwice(st, v, x);
      MakeShadowCopy(v);
      AssignContent(v, x);
    }

    /** Otherwise they go first. */
    method WriteSettled(v: Name, x: string) returns (r: Result<()>, ghost O: seq<string>)
      requires Valid() && !inoverride && expandCache == map[] && seen == map[]
      modifies this`expandCache, this`seen, this`overrides, this`overridesset, this`inoverride
      modifies this`overridedata, this`repr, this`contents, Owned()
      ensures old(Settling(v)) ==> r.Ok?
      ensures Valid()
      ensures r.Ok? ==> !inoverride && |old(contents).chain| > 0
      ensures r.Ok? ==> contents == Assigned(old(contents), O, v, x) && NotOwnVariant(old(contents), O, v)
      ensures r.Ok? && v in old(contents).over ==>
        old(overrides) == Some(O) ||
        (old(overrides).None? && (Clean(old(contents)) ==> Stable(Stripped(old(contents), v), O)))
      ensures r.Ok? ==>
        if old(AsksFirst(v, O)) then
          overrides == Some(O) && (Clean(old(contents)) ==> Seeding(old(contents), O, v, x))
        else expandCache == map[] && seen == map[]
      ensures old(repr) <= repr && fresh(repr - old(repr)) && fresh(Owned() - old(Owned()))
    {
      hide Shape, Find, Clean, Stripped, ActiveNames, CacheOk, Seeded, Settled, Stable, Eval, Cleared, Written,
           ChoicesStay, NotSeen, WithData, Current;
      Levels();
      ghost var st := contents;
      var cleared, O1 := ClearVar(v);
      O := O1;
      if cleared.Raised? {
        return Raised, O;
      }
      ClearedTop(st, O, v);
      Levels();
      AssignContent(v, x);
      if old(AsksFirst(v, O)) && Clean(st) {
        AfterSeed(st, O, v, x, expandCache, seen);
        AssignedClean(st, O, v, x);
      }
      r := Ok(());
    }

    /**
     `setVar`; O is the override list in force when variants are dropped. The memo table is empty
     afterwards, except where `Seeds` holds: then it holds what settling on O left there, evaluated
     before the write.
     */
    method SetVar(v: Name, x: string, parsing: bool) returns (r: Result<()>, ghost O: seq<string>)
      requires Valid() && !inoverride
      modifies this`expandCache, this`seen, this`overrides, this`overridesset, this`inoverride, this`overridevars
      modifies this`overridedata, this`repr, this`contents, Owned()
      ensures OldSyntax(v) ==> r.Raised?
      ensures parsing && r.Ok? ==> IndexKept()
      ensures old(WillSet(v, parsing)) ==> r.Ok?
      ensures Target(v) !in old(overridevars) ==> overridevars == old(overridevars)
      ensures (parsing || ParseName(v).Some?) && Target(v) !in old(overridevars) ==> overrides == old(overrides)
      ensures Valid()
      ensures r.Ok? ==> !inoverride && |old(contents).chain| > 0
      ensures r.Ok? ==> contents == SetVarResult(old(contents), O, v, x, parsing)
      ensures r.Ok? && ParseName(v).None? && !parsing ==> NotOwnVariant(old(contents), O, v)
      ensures r.Ok? && ParseName(v).None? && !parsing && v in old(contents).over ==>
        old(overrides) == Some(O) ||
        (old(overrides).None? && (Clean(old(contents)) ==> Stable(Stripped(old(contents), v), O)))
      ensures r.Ok? ==>
        if old(Seeds(v, parsing, O)) then
          overrides == Some(O) && (Clean(old(contents)) ==> Seeding(old(contents), O, v, x))
        else expandCache == map[] && (Clean(contents) ==> Coherent())
      ensures r.Ok? && Clean(old(contents)) && KeepsClean(v) ==> Clean(contents)
      ensures r.Ok? && Clean(old(contents)) ==>
        (Content(v) in expandCache <==> old(Seeds(v, parsing, O)) && v in seen[Content(OVERRIDES)])
      ensures old(repr) <= repr && fresh(repr - old(repr)) && fresh(Owned() - old(Owned()))
    {
      hide Shape, Find, Clean, Stripped, ActiveNames, CacheOk, Seeded, Settled, Stable, Eval, Assigned, Written,
           Delayed, ChoicesStay, NotSeen,
           Places, ParseName, OldSyntax;
      O := [];
      if OldSyntax(v) {
        return Raised, [];
      }
      Levels();
      ForgetCache();
      var parsed := ParseName(v);
      if parsed.Some? {
        SetDelayed(parsed.value.base, parsed.value.keyword, Item(x, parsed.value.add));
        r := TrackOverrides(parsed.value.base, v, x);
      } else {
        var plain, O1 := SetPlain(v, x, parsing);
        if plain.Raised? {
          return Raised, O1;
        }
        O := O1;
        r := TrackOverrides(v, v, x);
        if r.Ok? && old(Seeds(v, parsing, O)) && Clean(old(contents)) {
          SeededNames(Stripped(old(contents), v), O, expandCache, seen, v);
        }
      }
      CacheOkEmpty(contents, overrides);
      if Clean(old(contents)) && KeepsClean(v) { SetVarClean(old(contents), O, v, x, parsing); }
    }

    method AppendVar(v: Name, x: string) returns (r: Result<()>)
      requires Valid() && !inoverride
      modifies this`expandCache, this`seen, this`overrides, this`overridesset, this`inoverride, this`overridevars
      modifies this`overridedata, this`repr, this`contents, Owned()
      ensures Valid()
      ensures r.Ok? ==>
        !inoverride && expandCache == map[] && (Clean(contents) ==> Coherent()) && |old(contents).chain| > 0
      ensures r.Ok? ==> contents == SetVarResult(old(contents), [], DelayedName(v, Append), x, true)
      ensures r.Ok? && ':' !in v ==> contents == Delayed(old(contents), v, Append, Item(x, ""))
      ensures old(WillSet(DelayedName(v, Append), true)) ==> r.Ok?
      ensures r.Ok? && Clean(old(contents)) && KeepsClean(DelayedName(v, Append)) ==> Clean(contents)
      ensures old(repr) <= repr && fresh(repr - old(repr)) && fresh(Owned() - old(Owned()))
    {
      hide Shape, Find, Clean, Stable, CacheOk, Seeded, Stripped, ChoicesStay, NotSeen, Delayed, ParseName, WillSet;
      if ':' !in v { SuffixParses(v, Append); }
      ghost var O;
      ghost var st := contents;
      r, O := SetVar(v + ":append", x, true);
      if r.Ok? { ParsingIgnoresOverrides(st, O, DelayedName(v, Append), x); }
    }

    method PrependVar(v: Name, x: string) returns (r: Result<()>)
      requires Valid() && !inoverride
      modifies this`expandCache, this`seen, this`overrides, this`overridesset, this`inoverride, this`overridevars
      modifies this`overridedata, this`repr, this`contents, Owned()
      ensures Valid()
      ensures r.Ok? ==>
        !inoverride && expandCache == map[] && (Clean(contents) ==> Coherent()) && |old(contents).chain| > 0
      ensures r.Ok? ==> contents == SetVarResult(old(contents), [], DelayedName(v, Prepend), x, true)
      ensures r.Ok? && ':' !in v ==> contents == Delayed(old(contents), v, Prepend, Item(x, ""))
      ensures old(WillSet(DelayedName(v, Prepend), true)) ==> r.Ok?
      ensures r.Ok? && Clean(old(contents)) && KeepsClean(DelayedName(v, Prepend)) ==> Clean(contents)
      ensures old(repr) <= repr && fresh(repr - old(repr)) && fresh(Owned() - old(Owned()))
    {
      hide Shape, Find, Clean, Stable, CacheOk, Seeded, Stripped, ChoicesStay, NotSeen, Delayed, ParseName, WillSet;
      if ':' !in v { SuffixParses(v, Prepend); }
      ghost var O;
      ghost var st := contents;
      r, O := SetVar(v + ":prepend", x, true);
      if r.Ok? { ParsingIgnoresOverrides(st, O, DelayedName(v, Prepend), x); }
    }

    /** `setVarFlag` for a flag that holds text. */
    method SetVarFlag(v: Name, flag: string, x: string) returns (r: Result<()>)
      requires Valid() && !inoverride
      modifies this`expandCache, this`seen, this`overrides, this`overridesset, this`inoverride, this`overridevars
      modifies this`overridedata, this`repr, this`contents, Owned()
      ensures Valid()
      ensures r.Ok? ==> !inoverride && expandCache == map[] && |old(contents).chain| > 0
      ensures r.Ok? && Clean(old(contents)) ==> Coherent()
      ensures r.Ok? ==> contents == Flagged(old(contents), v, flag, x)
      ensures flag != DEFAULT || v !in old(overridevars) ==>
        r.Ok? && overrides == old(overrides) && overridevars == old(overridevars)
      ensures old(repr) <= repr && fresh(repr - old(repr)) && fresh(Owned() - old(Owned()))
    {
      hide Shape, Find, Clean, CacheOk, AddEntries, Places, WithData, Current;
      ghost var st := contents;
      Levels();
      FlaggedParts(st, v, flag, x);
      if Clean(st) { FlaggedClean(st, v, flag, x); }
      ForgetCache();
      PutText(v, flag, x);
      if flag == DEFAULT && ':' in v {
        UpdateOverrides(v);
      }
      if flag == DEFAULT {
        r := TrackOverrides(v, v, x);
      } else {
        r := Ok(());
      }
      CacheOkEmpty(contents, overrides);
    }

    /** `delVarFlag` for a flag that holds text. */
    method DelVarFlag(v: Name, flag: string)
      requires Valid()
      modifies this`expandCache, this`seen, this`repr, this`contents, Owned()
      ensures Valid() && expandCache == map[] && |old(contents).chain| > 0
      ensures contents == Unflagged(old(contents), v, flag) && (Clean(old(contents)) ==> Clean(contents))
      ensures old(repr) <= repr && fresh(repr - old(repr)) && fresh(Owned() - old(Owned()))
    {
      hide Shape, Find, Clean, WithData, Current, VarData.Empty;
      Levels();
      if Clean(contents) { UnflaggedClean(contents, v, flag); }
      ForgetCache();
      var empty := HasNothing(v);
      if !empty {
        CutText(v, flag);
      }
    }

    /** `not self._findVar(var)` */
    method HasNothing(v: Name) returns (empty: bool)
      requires Shape()
      ensures empty <==> Current(contents, v).Empty()
    {
      hide Shape, Find, FlagDict.Inside, FlagDict.Shows;
      var local := FindVar(v);
      Emptiness(local, v);
      empty := local == null || (local.text == map[] && local.lists == map[]);
    }

    /** The flag leaves the store's own dictionary, which is made first if need be. */
    method CutText(v: Name, flag: string)
      requires Shape() && this !in repr && expandCache == map[] && seen == map[]
      modifies this`expandCache, this`seen, this`repr, this`contents, Owned()
      ensures Shape() && expandCache == map[] && seen == map[] && |old(contents).chain| > 0
      ensures var d := Current(old(contents), v);
        contents == WithData(old(contents), v, d.(text := d.text - {flag}))
      ensures old(repr) <= repr && fresh(repr - old(repr)) && fresh(Owned() - old(Owned()))
    {
      hide Shape, Find, Current, WithData, FlagDict.Inside, FlagDict.Shows;
      Levels();
      ghost var st, d := contents, Current(contents, v);
      MakeShadowCopy(v);
      DropText(v, flag, d);
      WithDataTwice(st, v, d, d.(text := d.text - {flag}));
    }

    lemma Emptiness(local: FlagDict?, v: Name)
      requires if local == null then Find(contents.chain, v).None? else
        Find(contents.chain, v).Some? && local.Shows(Find(contents.chain, v).value)
      ensures (local == null || (local.text == map[] && local.lists == map[])) <==> Current(contents, v).Empty()
    {
    }

    /** `del self.dict[var][flag]`, if it is there. */
    method DropText(v: Name, flag: string, ghost d: VarData)
      requires Shape() && v in dict.vars && dict.vars[v].Inside(repr) && dict.vars[v].Shows(d) && v in contents.chain[0]
      requires contents.chain[0][v] == d
      modifies dict.vars[v], this`contents
      ensures Shape() && contents == WithData(old(contents), v, d.(text := d.text - {flag}))
    {
      hide Find, Clean, ParentsShow, TopAlone, IndexShows, IndexAlone;
      ghost var top := contents.chain;
      if flag in dict.vars[v].text {
        Overwrite(v, dict.vars[v].text - {flag}, dict.vars[v].lists, d.(text := d.text - {flag}));
      } else {
        assert d.text - {flag} == d.text;
        assert top[0][v := d] == top[0] && top == [top[0]] + top[1..];
      }
    }

    /** The content that a lookup while parsing sees. */
    method ParsingValue(v: Name) returns (val: Option<string>)
      requires Shape()
      ensures val == LocalContent(Current(contents, v))
    {
      var local := FindVar(v);
      val := None;
      if local != null {
        if CONTENT in local.text {
          val := Some(local.text[CONTENT]);
        } else if DEFAULT in local.text {
          val := Some(local.text[DEFAULT]);
        }
      }
    }

    /** The delayed operations that `getVarFlags` shows. */
    method KeywordLists(v: Name) returns (lists: map<Keyword, seq<Item>>)
      requires Shape()
      ensures lists == Current(contents, v).lists
    {
      hide Clean, ParentsShow, TopAlone, IndexShows, IndexAlone;
      var local := FindVar(v);
      lists := if local == null then map[] else map k | k in local.lists :: local.lists[k].items;
      if local != null { assert local.Shows(Current(contents, v)); }
    }

    /** Puts copies of lists behind those of `v`; what the lists are shared with stays as it is. */
    method Gather(v: Name, more: map<Keyword, seq<Item>>)
      requires Shape() && this !in repr && expandCache == map[] && seen == map[]
      modifies this`expandCache, this`seen, this`repr, this`contents, Owned()
      ensures Shape() && expandCache == map[] && seen == map[]
      ensures |old(contents).chain| > 0 && contents == Gathered(old(contents), v, more)
      ensures old(repr) <= repr && fresh(repr - old(repr)) && fresh(Owned() - old(Owned()))
    {
      hide Shape, Find, Current, WithData, Gathered, Joined;
      Levels();
      ghost var st, part := contents, map[];
      GatherNone(st, v);
      var todo := more.Keys;
      while todo != {}
        invariant Shape() && this !in repr && expandCache == map[] && seen == map[]
        invariant todo <= more.Keys && part.Keys == more.Keys - todo && forall k :: k in part ==> part[k] == more[k]
        invariant contents == Gathered(st, v, part)
        invariant old(repr) <= repr && fresh(repr - old(repr)) && fresh(Owned() - old(Owned()))
        decreases |todo|
      {
        var k :| k in todo;
        todo := todo - {k};
        var dest := GatherList(v, k, more[k]);
        PutList(v, k, dest);
        GatherOne(st, v, part, k, more[k]);
        part := part[k := more[k]];
      }
      assert part == more;
    }

    /**
     `getVarFlag(v, k, False) or []`, extended. It is a copy: appending to it must not show in the store
     that the list came from.
     */
    method GatherList(v: Name, k: Keyword, more: seq<Item>) returns (dest: ItemList)
      requires Shape()
      ensures fresh(dest) && dest.items == Current(contents, v).ListOf(k) + more
    {
      hide Clean, ParentsShow, TopAlone, IndexShows, IndexAlone;
      var local := FindVar(v);
      if local != null { assert local.Shows(Current(contents, v)); }
      dest := new ItemList((if local != null && k in local.lists then local.lists[k].items else []) + more);
    }

    static lemma GatherNone(st: Store, v: Name)
      requires |st.chain| > 0
      ensures Gathered(st, v, map[]) == st
    {
    }

    static lemma GatherOne(st: Store, v: Name, part: map<Keyword, seq<Item>>, k: Keyword, items: seq<Item>)
      requires |st.chain| > 0 && k !in part
      ensures var mid, d := Gathered(st, v, part), Current(Gathered(st, v, part), v);
              WithData(mid, v, d.(lists := d.lists[k := d.ListOf(k) + items])) == Gathered(st, v, part[k := items])
    {
      var mid := Gathered(st, v, part);
      var d := Current(mid, v);
      var d' := d.(lists := d.lists[k := d.ListOf(k) + items]);
      assert d'.lists == Joined(Current(st, v), part[k := items]).lists;
      if part != map[] { WithDataTwice(st, v, Joined(Current(st, v), part), d'); }
    }

    /** `renameVar`. */
    method RenameVar(key: Name, newkey: Name, depth: nat) returns (r: Result<()>)
      requires Valid() && !inoverride
      modifies this`expandCache, this`seen, this`overrides, this`overridesset, this`inoverride, this`overridevars
      modifies this`overridedata, this`repr, this`contents, Owned()
      ensures Valid()
      ensures r.Ok? ==> !inoverride && IndexKept()
      ensures r.Ok? ==> |old(contents).chain| > 0 && RenamedUpTo(old(contents), key, newkey, depth) == Some(contents)
      ensures old(|contents.chain| > 0 && RenameGoes(contents, key, newkey, depth, overridevars)) ==>
        r.Ok? && overridevars == old(overridevars)
      ensures r.Ok? && (key != newkey || old(Coherent())) && Clean(contents) ==> Coherent()
      ensures old(repr) <= repr && fresh(repr - old(repr)) && fresh(Owned() - old(Owned()))
      decreases depth, 0
    {
      hide Shape, Clean, CacheOk, LocalContent, Current, Moved, RenamedUpTo, Left, RenameGoes, MoveGoes;
      Levels();
      ghost var st := contents;
      RenamedUnfolds(st, key, newkey, depth);
      GoesOn(st, key, newkey, depth, overridevars);
      if key == newkey {
        return Ok(());
      }
      if depth == 0 {
        return Raised;
      }
      var moved, val := MoveAll(key, newkey, depth - 1);
      if moved.Raised? {
        return Raised;
      }
      LeaveName(key, newkey, val);
      r := Ok(());
    }

    /** The variable itself, then its variants. */
    method MoveAll(key: Name, newkey: Name, depth: nat) returns (r: Result<()>, val: Option<string>)
      requires Valid() && !inoverride && key != newkey
      modifies this`expandCache, this`seen, this`overrides, this`overridesset, this`inoverride, this`overridevars
      modifies this`overridedata, this`repr, this`contents, Owned()
      ensures Valid()
      ensures r.Ok? ==> !inoverride && IndexKept()
      ensures |old(contents).chain| > 0 && val == LocalContent(Current(old(contents), key))
      ensures r.Ok? ==> |contents.chain| > 0 && Moved(old(contents), key, newkey, depth) == Some(contents)
      ensures old(|contents.chain| > 0 && MoveGoes(contents, key, newkey, depth, overridevars)) ==>
        r.Ok? && overridevars == old(overridevars)
      ensures old(repr) <= repr && fresh(repr - old(repr)) && fresh(Owned() - old(Owned()))
      decreases depth, 4
    {
      hide Shape, Clean, CacheOk, Gathered, Valued, LocalContent, Current, VariantsMoved, EachGoes, Settable;
      var valued, val1 := CopyVariable(key, newkey);
      val := val1;
      if valued.Raised? {
        return Raised, val;
      }
      Levels();
      Indexed();
      r := Ok(());
      if key in overridedata {
        r := MoveVariants(key, newkey, depth);
        if r.Ok? { Levels(); }
      }
    }

    /** The value and the delayed operations. */
    method CopyVariable(key: Name, newkey: Name) returns (r: Result<()>, val: Option<string>)
      requires Valid() && !inoverride
      modifies this`expandCache, this`seen, this`overrides, this`overridesset, this`inoverride, this`overridevars
      modifies this`overridedata, this`repr, this`contents, Owned()
      ensures Valid()
      ensures r.Ok? ==> !inoverride && expandCache == map[] && IndexKept()
      ensures |old(contents).chain| > 0 && val == LocalContent(Current(old(contents), key))
      ensures (val.Some? ==> old(Settable(overridevars, newkey))) ==> r.Ok? && overridevars == old(overridevars)
      ensures r.Ok? ==>
        var st := Valued(old(contents), key, newkey);
        contents == Gathered(st, newkey, Current(st, key).lists)
      ensures old(repr) <= repr && fresh(repr - old(repr)) && fresh(Owned() - old(Owned()))
    {
      hide Shape, Clean, CacheOk, Gathered, Valued, LocalContent, Current, Settable;
      Levels();
      r, val := Revalue(key, newkey);
      if r.Raised? {
        return Raised, val;
      }
      var lists := KeywordLists(key);
      Gather(newkey, lists);
    }

    /** The end of `renameVar`: the new name is indexed if no value did that, and the old one is deleted. */
    method LeaveName(key: Name, newkey: Name, val: Option<string>)
      requires Valid()
      modifies this`expandCache, this`seen, this`overridedata, this`repr, this`contents, dict
      ensures Valid() && |old(contents).chain| > 0 && IndexKept() && (Clean(contents) ==> Coherent())
      ensures contents == Left(old(contents), key, newkey, val)
      ensures old(repr) <= repr && fresh(repr - old(repr)) && fresh(Owned() - old(Owned()))
    {
      hide Shape, Clean, CacheOk, Deleted, AddEntries, Places;
      Levels();
      if ':' in newkey && val.None? {
        UpdateOverrides(newkey);
      }
      DelVar(key);
      CacheOkEmpty(contents, overrides);
    }

    static lemma GoesOn(st: Store, key: Name, newkey: Name, depth: nat, tracked: set<Name>)
      requires |st.chain| > 0
      ensures RenameGoes(st, key, newkey, depth, tracked) && key != newkey ==>
        depth > 0 && MoveGoes(st, key, newkey, depth - 1, tracked)
    {
    }

    static lemma RenamedUnfolds(st: Store, key: Name, newkey: Name, depth: nat)
      requires |st.chain| > 0
      ensures key == newkey ==> RenamedUpTo(st, key, newkey, depth) == Some(st)
      ensures key != newkey && depth > 0 ==>
        RenamedUpTo(st, key, newkey, depth) == match Moved(st, key, newkey, depth - 1)
          case None => None
          case Some(st') => Some(Left(st', key, newkey, LocalContent(Current(st, key))))
    {
    }

    /** The variants of `key` get their new names, in the list that the loop started with. */
    method MoveVariants(key: Name, newkey: Name, depth: nat) returns (r: Result<()>)
      requires Valid() && !inoverride && key != newkey && key in overridedata
      modifies this`expandCache, this`seen, this`overrides, this`overridesset, this`inoverride, this`overridevars
      modifies this`overridedata, this`repr, this`contents, Owned()
      ensures Valid()
      ensures r.Ok? ==> !inoverride && IndexKept()
      ensures r.Ok? ==> |old(contents).chain| > 0 && key in old(contents).over
      ensures r.Ok? ==>
        var st := old(contents).(over := old(contents).over[newkey := []]);
        VariantsMoved(st, old(contents).over[key], key, newkey, depth) == Some(contents)
      ensures
        old(|contents.chain| > 0 && key in contents.over && EachGoes(
          contents.(over := contents.over[newkey := []]), contents.over[key], key, newkey, depth, overridevars)) ==>
        r.Ok? && overridevars == old(overridevars)
      ensures old(repr) <= repr && fresh(repr - old(repr)) && fresh(Owned() - old(Owned()))
      decreases depth, 3
    {
      hide Shape, Clean, VariantMoved, VariantsMoved, EachGoes;
      Levels();
      Indexed();
      var src := overridedata[key];
      var empty := new EntryList([]);
      PutIndex(newkey, empty);
      r := MoveEach(src, key, newkey, depth);
    }

    /** The loop of `renameVar`, over a list object that nothing in it changes. */
    method MoveEach(src: EntryList, key: Name, newkey: Name, depth: nat) returns (r: Result<()>)
      requires Valid() && !inoverride && newkey in overridedata && overridedata[newkey] !in shared
      requires src != overridedata[newkey]
      modifies this`expandCache, this`seen, this`overrides, this`overridesset, this`inoverride, this`overridevars
      modifies this`overridedata, this`repr, this`contents, Owned(), overridedata[newkey]
      ensures Valid()
      ensures r.Ok? ==> !inoverride && IndexKept() && |old(contents).chain| > 0
      ensures r.Ok? ==> VariantsMoved(old(contents), old(src.entries), key, newkey, depth) == Some(contents)
      ensures old(|contents.chain| > 0 && EachGoes(contents, src.entries, key, newkey, depth, overridevars)) ==>
        r.Ok? && overridevars == old(overridevars)
      ensures old(repr) <= repr && fresh(repr - old(repr)) && fresh(Owned() - old(Owned()))
      decreases depth, 2
    {
      hide Valid, Shape, Clean, VariantMoved, VariantsMoved, Owned, EachGoes, VariantGoes;
      ValidParts();
      OwnedApart();
      ghost var st, es := contents, src.entries;
      ghost var goes := EachGoes(st, es, key, newkey, depth, overridevars);
      r := Ok(());
      assert es[0..] == es;
      var i := 0;
      while i < |src.entries| && r.Ok?
        invariant i <= |es| && src.entries == es
        invariant Valid() && (r.Ok? ==> !inoverride && |contents.chain| > 0 && IndexKept())
        invariant r.Ok? ==>
          VariantsMoved(contents, es[i..], key, newkey, depth) == VariantsMoved(st, es, key, newkey, depth)
        invariant goes ==>
          r.Ok? && overridevars == old(overridevars) && EachGoes(contents, es[i..], key, newkey, depth, overridevars)
        invariant old(repr) <= repr && fresh(repr - old(repr))
        invariant Owned() <= repr && Owned() !! old(repr) - old(Owned())
      {
        ValidParts();
        Indexed();
        EachGoesOn(contents, es, i, key, newkey, depth, overridevars);
        if newkey in overridedata {
          ghost var before, own := contents, Owned();
          r := MoveVariant(src, i, key, newkey, depth);
          assert Owned() !! old(repr) - own;
          if r.Ok? { MovedNext(before, es, i, key, newkey, depth, contents); }
        } else {
          // A KeyError: a nested rename moved newkey itself away.
          r := Raised;
        }
        ValidParts();
        OwnedApart();
        i := i + 1;
      }
      assert Owned() - old(Owned()) <= repr - old(repr);
      if r.Ok? { MovedNone(contents, es[i..], key, newkey, depth); }
    }

    static lemma EachGoesOn(
        st: Store, es: seq<Entry>, i: nat, key: Name, newkey: Name, depth: nat, tracked: set<Name>)
      requires |st.chain| > 0 && i < |es|
      ensures EachGoes(st, es[i..], key, newkey, depth, tracked) ==>
        && newkey in st.over && VariantGoes(st, es[i], key, newkey, depth, tracked)
        && VariantMoved(st, es[i], key, newkey, depth).Some?
        && EachGoes(VariantMoved(st, es[i], key, newkey, depth).value, es[i + 1..], key, newkey, depth, tracked)
    {
      assert es[i..][0] == es[i] && es[i..][1..] == es[i + 1..];
    }

    static lemma MovedNone(st: Store, es: seq<Entry>, key: Name, newkey: Name, depth: nat)
      requires |st.chain| > 0 && es == []
      ensures VariantsMoved(st, es, key, newkey, depth) == Some(st)
    {
    }

    static lemma MovedNext(st: Store, es: seq<Entry>, i: nat, key: Name, newkey: Name, depth: nat, st': Store)
      requires |st.chain| > 0 && |st'.chain| > 0 && newkey in st.over && i < |es|
      requires VariantMoved(st, es[i], key, newkey, depth) == Some(st')
      ensures VariantsMoved(st, es[i..], key, newkey, depth) == VariantsMoved(st', es[i + 1..], key, newkey, depth)
    {
      assert es[i..][0] == es[i] && es[i..][1..] == es[i + 1..];
    }

    /** One variant: its new name is entered, then it is renamed. */
    method MoveVariant(src: EntryList, i: nat, key: Name, newkey: Name, depth: nat) returns (r: Result<()>)
      requires Valid() && !inoverride && newkey in overridedata && overridedata[newkey] !in shared
      requires src != overridedata[newkey] && i < |src.entries|
      modifies this`expandCache, this`seen, this`overrides, this`overridesset, this`inoverride, this`overridevars
      modifies this`overridedata, this`repr, this`contents, Owned(), overridedata[newkey]
      ensures Valid()
      ensures r.Ok? ==>
        !inoverride && |old(contents).chain| > 0 && newkey in old(contents).over && IndexKept()
      ensures r.Ok? ==> VariantMoved(old(contents), old(src.entries)[i], key, newkey, depth) == Some(contents)
      ensures src.entries == old(src.entries)
      ensures
        old(|contents.chain| > 0 && newkey in contents.over &&
            VariantGoes(contents, src.entries[i], key, newkey, depth, overridevars)) ==>
        r.Ok? && overridevars == old(overridevars)
      ensures r.Ok? ==> |contents.chain| > 0
      ensures old(repr) <= repr && fresh(repr - old(repr)) && fresh(Owned() - old(Owned()))
      decreases depth, 1
    {
      hide Shape, Clean, CacheOk, RenamedUpTo, Replace, RenameGoes;
      Levels();
      var e := src.entries[i];
      var v := Replace(e.name, key, newkey);
      AppendIndex(newkey, Entry(v, e.key));
      r := RenameVar(e.name, v, depth);
      if r.Ok? { Levels(); }
    }

    /** The new name gets the value, if there is one. */
    method Revalue(key: Name, newkey: Name) returns (r: Result<()>, val: Option<string>)
      requires Valid() && !inoverride && |contents.chain| > 0
      modifies this`expandCache, this`seen, this`overrides, this`overridesset, this`inoverride, this`overridevars
      modifies this`overridedata, this`repr, this`contents, Owned()
      ensures Valid()
      ensures r.Ok? ==> !inoverride && expandCache == map[] && seen == map[]
      ensures r.Ok? ==> contents == Valued(old(contents), key, newkey) && IndexKept()
      ensures val == LocalContent(Current(old(contents), key))
      ensures (val.Some? ==> old(Settable(overridevars, newkey))) ==> r.Ok? && overridevars == old(overridevars)
      ensures old(repr) <= repr && fresh(repr - old(repr)) && fresh(Owned() - old(Owned()))
    {
      hide Shape, Find, Clean, Current, CacheOk, Places, ParseName, OldSyntax, Valued, SetVarResult, LocalContent,
           Seeded, Target, NotOwnVariant,
           Stable, Stripped, ChoicesStay, NotSeen;
      ghost var st := contents;
      val := ParsingValue(key);
      ForgetCache();
      if val.Some? {
        var done, O := SetVar(newkey, val.value, true);
        if done.Raised? {
          return Raised, val;
        }
        ParsingIgnoresOverrides(st, O, newkey, val.value);
      }
      ValuedMeans(st, key, newkey, val);
      assert seen.Keys == {};
      r := Ok(());
    }

    static lemma ValuedMeans(st: Store, key: Name, newkey: Name, val: Option<string>)
      requires |st.chain| > 0 && val == LocalContent(Current(st, key))
      ensures Valued(st, key, newkey) == if val.Some? then SetVarResult(st, [], newkey, val.value, true) else st
    {
    }

    /** `createCopy`: the override lists and every dictionary below are shared with this store. */
    method CreateCopy() returns (data: DataSmart)
      requires Valid()
      ensures fresh(data) && fresh(data.Owned()) && data.Valid() && (Clean(contents) ==> data.Coherent())
      ensures !data.inoverride
      ensures data.shared == repr && this != data
      ensures data.contents == Store([map[]] + contents.chain, contents.over)
    {
      hide Clean, Shape, CacheOk;
      data := new DataSmart.Under(this);
    }

    /** An empty memo table is coherent. */
    lemma CoherentWhenEmpty()
      requires Valid() && expandCache == map[] && Clean(contents)
      ensures Coherent()
    {
      hide Shape, Clean, EvalsTo;
    }

    // ----- reading -----

    /** `getVar(v)`: the value the evaluator gives, whatever the memo table holds. */
    method GetVar(v: Name, depth: nat) returns (r: Result<Option<string>>)
      requires Valid() && Coherent()
      modifies this`expandCache, this`seen, this`overrides, this`overridesset, this`inoverride
      ensures Valid() && (r.Ok? ==> Coherent() && inoverride == old(inoverride))
      ensures r.Ok? ==> exists p, R :: SoundIn(contents, overrides, Content(v), p, R) && p.value == r.value
      ensures old(overrides).Some? ==> overrides == old(overrides)
      ensures r.Ok? && old(overrides).None? && overrides.Some? ==> Stable(contents, overrides.value)
      ensures old(Goal()).Some? && Eval(contents, old(Goal()).value, Content(v), depth).Done? ==>
        r == Ok(Eval(contents, old(Goal()).value, Content(v), depth).val.value)
    {
      hide Shape, Clean, Eval, Settled, Stable, Grew, SoundIn;
      ghost var goal := Goal();
      var p, R := GetVarFlag(Content(v), depth);
      if p.Raised? {
        return Raised;
      }
      assert SoundIn(contents, overrides, Content(v), p.value, R);
      r := Ok(p.value.value);
      if goal.Some? && Eval(contents, goal.value, Content(v), depth).Done? {
        GoalValue(contents, overrides, goal.value, Content(v), depth, p.value, R);
      }
    }

    /** `getVar(v, False)` */
    method GetVarUnexpanded(v: Name, depth: nat) returns (r: Result<Option<string>>)
      requires Valid()
      modifies this`expandCache, this`seen, this`overrides, this`overridesset, this`inoverride
      ensures Valid() && (r.Ok? ==> inoverride == old(inoverride))
      ensures old(Coherent()) && old(Goal()).Some? && Raw(contents, old(Goal()).value, v, depth).Done? ==> r.Ok?
      ensures r.Ok? && old(Coherent()) ==> Coherent() && exists R :: RawIn(contents, overrides, v, r.value, R)
      ensures v !in contents.over && HasNoLists(contents, v) ==> r == Ok(LocalFlag(contents, Content(v)))
    {
      hide Shape, Clean, Settled, Stable, Grew, RawIn, Raw;
      ghost var R;
      r, R := RawValue(v, depth);
    }

    /** The owners of an active variant, as `__iter__` collects them. */
    method ActiveOwners() returns (owners: set<Name>)
      requires Valid() && overrides.Some?
      ensures forall n :: n in owners <==> HasActiveVariant(contents, overrides.value, n)
    {
      hide Clean, Find, IsActive, Layer.Shows, ParentsShow, TopAlone;
      owners := {};
      var todo := overridedata.Keys;
      while todo != {}
        invariant todo <= overridedata.Keys
        invariant forall n :: n in owners <==> n !in todo && HasActiveVariant(contents, overrides.value, n)
      {
        var n :| n in todo;
        todo := todo - {n};
        if exists e :: e in overridedata[n].entries && IsActive(e.key, overrides.value) {
          owners := owners + {n};
        }
      }
    }

    /** `keylist`: the names of this level and below that are neither hidden nor deleted above. */
    method KeyList(d: Layer, ghost i: nat, overridden: set<Name>, deleted: set<Name>) returns (klist: set<Name>)
      requires Shape() && i < |contents.chain| && d == ([dict] + dict.below)[i]
      ensures forall n :: n in klist <==> n !in overridden && n !in deleted && TopEntry(contents.chain[i..], n)
      decreases |contents.chain| - i
    {
      hide Clean, Find, TopEntry, Shape, ParentsShow, TopAlone, IndexShows, Layer.Linked;
      Linkage(d, i);
      klist := {};
      var gone := deleted;
      var todo := d.vars.Keys;
      while todo != {}
        invariant todo <= d.vars.Keys
        invariant forall n :: n in klist <==>
          n in d.vars && n !in todo && n !in overridden && n !in deleted && !contents.chain[i][n].Empty()
        invariant forall n :: n in gone <==>
          n in deleted || (n in d.vars && n !in todo && n !in overridden && contents.chain[i][n].Empty())
      {
        var key :| key in todo;
        todo := todo - {key};
        assert d.vars[key].Shows(contents.chain[i][key]);
        if key !in gone && key !in overridden {
          if d.vars[key].text == map[] && d.vars[key].lists == map[] {
            gone := gone + {key};
          } else {
            klist := klist + {key};
          }
        }
      }
      TopEntryBelow(contents.chain, i);
      if d.data != null {
        var rest := KeyList(d.data, i + 1, overridden, gone);
        klist := klist + rest;
      }
    }

    lemma TopEntryBelow(chain: seq<VarMap>, i: nat)
      requires i < |chain|
      ensures forall n :: n in chain[i] ==> (TopEntry(chain[i..], n) <==> !chain[i][n].Empty())
      ensures forall n :: n !in chain[i] ==>
        (TopEntry(chain[i..], n) <==> i + 1 < |chain| && TopEntry(chain[i + 1..], n))
    {
      forall n
        ensures n in chain[i] ==> (TopEntry(chain[i..], n) <==> !chain[i][n].Empty())
        ensures n !in chain[i] ==> (TopEntry(chain[i..], n) <==> i + 1 < |chain| && TopEntry(chain[i + 1..], n))
      {
        FindBelow(chain, i, n);
      }
    }

    static lemma FindBelow(chain: seq<VarMap>, i: nat, n: Name)
      requires i < |chain|
      ensures Find(chain[i..], n) == if n in chain[i] then Some(chain[i][n]) else Find(chain[i + 1..], n)
      ensures Find([], n) == None && (i + 1 == |chain| ==> chain[i + 1..] == [])
    {
      assert chain[i..][0] == chain[i] && chain[i..][1..] == chain[i + 1..];
    }

    lemma Linkage(d: Layer, i: nat)
      requires Shape() && i < |contents.chain| && d == ([dict] + dict.below)[i]
      ensures d.Shows(contents.chain[i], repr)
      ensures if d.data == null then i + 1 == |contents.chain|
        else i + 1 < |contents.chain| && d.data == ([dict] + dict.below)[i + 1]
    {
      AsParent();
      LinkSuffix(i);
    }

    lemma {:induction false} LinkSuffix(i: nat)
      requires Shape() && i < |contents.chain|
      ensures |contents.chain| == 1 + |dict.below| && ([dict] + dict.below)[i].below == dict.below[i..]
      ensures ([dict] + dict.below)[i].Linked()
    {
      AsParent();
      if i > 0 {
        LinkSuffix(i - 1);
        var l := ([dict] + dict.below)[i - 1];
        assert l.below[0] == dict.below[i - 1];
        assert l.below[1..] == dict.below[i..];
      }
    }

    /** `__iter__`: each visible name once. */
    method Keys() returns (r: Result<seq<Name>>)
      requires Valid()
      modifies this`expandCache, this`seen, this`overrides, this`overridesset, this`inoverride
      ensures Valid() && (old(Coherent()) && r.Ok? ==> Coherent())
      ensures old(overrides.Some? || (Coherent() && Goal().Some?)) ==> r.Ok?
      ensures r.Ok? ==>
        overrides.Some? && (old(overrides).Some? ==> overrides == old(overrides)) && inoverride == old(inoverride)
      ensures r.Ok? ==> forall n :: n in r.value <==> Visible(contents, overrides.value, n)
      ensures r.Ok? ==> forall i, j :: 0 <= i < j < |r.value| ==> r.value[i] != r.value[j]
    {
      hide Shape, Clean, Settled, Stable, Grew, CacheOk, TopEntry, HasActiveVariant;
      var ready := NeedOverrides();
      if ready.Raised? {
        return Raised;
      }
      var owners := ActiveOwners();
      Levels();
      assert contents.chain[0..] == contents.chain;
      var klist := KeyList(dict, 0, owners, {});
      var first := Listed(klist);
      var second := Listed(owners);
      r := Ok(first + second);
      forall i, j | 0 <= i < j < |r.value|
        ensures r.value[i] != r.value[j]
      {
        assert forall k :: 0 <= k < |r.value| ==> if k < |first| then r.value[k] in klist else r.value[k] in owners;
      }
    }

    /** A set in some order. */
    static method Listed(s: set<Name>) returns (l: seq<Name>)
      ensures forall n :: n in l <==> n in s
      ensures forall i, j :: 0 <= i < j < |l| ==> l[i] != l[j]
    {
      l := [];
      var todo := s;
      while todo != {}
        invariant todo <= s && forall n :: n in l <==> n in s && n !in todo
        invariant forall i, j :: 0 <= i < j < |l| ==> l[i] != l[j]
      {
        var n :| n in todo;
        todo := todo - {n};
        l := l + [n];
      }
    }
    // ----- copies -----

    /** What a store owns is apart from what it got from its parent. */
    lemma OwnedApart()
      requires Shape()
      ensures Owned() !! shared && Owned() <= repr
    {
      assert forall v :: v in dict.vars ==> dict.vars[v] in repr && dict.vars[v] !in shared;
    }
  }
}
