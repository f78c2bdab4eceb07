/** Which renames end: a variable is renamed with all its override variants, and they with theirs. */
module Renaming {
  import opened Wrappers
  import opened Text
  import opened OverrideChoice
  import opened DataModel
  import opened StoreUpdates

  /** The index list of `s` has an entry for `n`. */
  predicate Lists(over: map<Name, seq<Entry>>, s: Name, n: Name) {
    s in over && exists e <- over[s] :: e.name == n
  }

  // ----- renames that never end -----

  lemma {:induction false} AddKeepsListed(over: map<Name, seq<Entry>>, v: Name, ps: seq<Place>, s: Name, n: Name)
    requires Lists(over, s, n)
    ensures Lists(AddEntries(over, v, ps), s, n)
    decreases |ps|
  {
    if |ps| > 0 {
      var e :| e in over[s] && e.name == n;
      assert e in AddEntry(over, v, ps[0])[s];
      AddKeepsListed(AddEntry(over, v, ps[0]), v, ps[1..], s, n);
    }
  }

  lemma ValuedKeepsListed(st: Store, key: Name, newkey: Name, s: Name, n: Name)
    requires |st.chain| > 0 && Lists(st.over, s, n)
    ensures Lists(Valued(st, key, newkey).over, s, n)
  {
    hide Lists, Places, ParseName, AddEntries, LocalContent, Find;
    AddKeepsListed(st.over, newkey, Places(newkey), s, n);
    if ParseName(newkey).Some? {
      var base := ParseName(newkey).value.base;
      AddKeepsListed(st.over, base, Places(base), s, n);
    }
  }

  lemma {:induction false} ContainsLength(s: string, pat: string)
    requires Contains(s, pat)
    ensures |pat| <= |s| && (|pat| == |s| ==> s == pat)
  {
    if !StartsWith(s, pat) { ContainsLength(s[1..], pat); }
  }

  lemma {:induction false} ReplaceNotShorter(s: string, pat: string, rep: string)
    requires |pat| <= |rep|
    ensures |s| <= |Replace(s, pat, rep)|
    decreases |s|
  {
    if pat == "" {
      if s != "" { ReplaceNotShorter(s[1..], pat, rep); }
    } else if s != "" {
      ReplaceNotShorter(if StartsWith(s, pat) then s[|pat|..] else s[1..], pat, rep);
    }
  }

  /** What is put in is found, and makes the text longer if it is longer than what it replaces. */
  lemma {:induction false} ReplaceContains(s: string, pat: string, rep: string)
    requires Contains(s, pat) && |pat| < |rep|
    ensures Contains(Replace(s, pat, rep), rep) && |s| < |Replace(s, pat, rep)|
    decreases |s|
  {
    var r := Replace(s, pat, rep);
    if StartsWith(s, pat) {
      assert r[..|rep|] == rep;
      if pat != "" && s != "" {
        ReplaceNotShorter(s[|pat|..], pat, rep);
      } else if s != "" {
        ReplaceNotShorter(s[1..], pat, rep);
      }
    } else {
      ReplaceContains(s[1..], pat, rep);
      assert r == [s[0]] + Replace(s[1..], pat, rep) && r[1..] == Replace(s[1..], pat, rep);
    }
  }

  /** The renamed variant is again a name that contains the old one. */
  lemma ReplaceGrows(n: Name, key: Name)
    requires n != key && Contains(n, key)
    ensures Replace(n, key, n) != n && Contains(Replace(n, key, n), n)
  {
    hide Contains, Replace;
    ContainsLength(n, key);
    ReplaceContains(n, key, n);
  }

  /**
   A rename never ends, at any limit, if the new name contains the old one and is listed among its variants
   once it has the value: that variant is renamed in turn, to a name that contains it and is now listed.
   */
  lemma {:induction false} NeverEnds(st: Store, key: Name, newkey: Name, depth: nat)
    requires |st.chain| > 0 && key != newkey && Contains(newkey, key)
    requires Lists(Valued(st, key, newkey).over, key, newkey)
    ensures RenamedUpTo(st, key, newkey, depth).None?
    decreases depth, 0, 0
  {
    hide Contains, Valued, Gathered, Current, Left, VariantsMoved;
    if depth > 0 {
      var st1 := Valued(st, key, newkey);
      var st2 := Gathered(st1, newkey, Current(st1, key).lists);
      var e :| e in st1.over[key] && e.name == newkey;
      NeverEndsEach(st2.(over := st2.over[newkey := []]), st2.over[key], key, newkey, depth - 1);
    }
  }

  lemma {:induction false} NeverEndsEach(st: Store, es: seq<Entry>, key: Name, newkey: Name, depth: nat)
    requires |st.chain| > 0 && key != newkey && Contains(newkey, key) && exists e <- es :: e.name == newkey
    ensures VariantsMoved(st, es, key, newkey, depth).None?
    decreases depth, 1, |es|
  {
    hide Contains, Valued, RenamedUpTo, Replace;
    if newkey in st.over {
      if es[0].name == newkey {
        var v := Replace(newkey, key, newkey);
        var e := Entry(v, es[0].key);
        var st' := Entered(st, newkey, e);
        assert e in st'.over[newkey] && Lists(st'.over, newkey, v);
        ReplaceGrows(newkey, key);
        ValuedKeepsListed(st', newkey, v, newkey, v);
        NeverEnds(st', newkey, v, depth);
      } else if VariantMoved(st, es[0], key, newkey, depth).Some? {
        assert es == [es[0]] + es[1..];
        NeverEndsEach(VariantMoved(st, es[0], key, newkey, depth).value, es[1..], key, newkey, depth);
      }
    }
  }

  // ----- names below others -----

  predicate Below(s: Name, n: Name) { StartsWith(n, s + ":") }

  /** Every part of `n` after `s` looks like an override. */
  predicate VariantOf(s: Name, n: Name) {
    Below(s, n) && forall j :: |s| <= j < |n| && n[j] == ':' ==> OverrideLike(n[j + 1..])
  }

  predicate Under(strict: bool, s: Name, n: Name) { if strict then VariantOf(s, n) else Below(s, n) }

  lemma BelowAt(s: Name, n: Name)
    ensures Below(s, n) <==> |s| < |n| && n[..|s|] == s && n[|s|] == ':'
  {
    if |s| < |n| { assert n[..|s| + 1] == n[..|s|] + [n[|s|]]; }
  }

  lemma BelowTrans(a: Name, b: Name, c: Name)
    requires Below(a, b) && Below(b, c)
    ensures Below(a, c)
  {
    BelowAt(a, b);
    BelowAt(b, c);
    assert c[..|a|] == c[..|b|][..|a|] && c[|a|] == c[..|b|][|a|];
    BelowAt(a, c);
  }

  lemma UnderTrans(strict: bool, a: Name, b: Name, c: Name)
    requires Under(strict, a, b) && Under(strict, b, c)
    ensures Under(strict, a, c)
  {
    BelowTrans(a, b, c);
    if strict {
      BelowAt(a, b);
      BelowAt(b, c);
      forall j | |a| <= j < |c| && c[j] == ':'
        ensures OverrideLike(c[j + 1..])
      {
        if j < |b| {
          assert b[j] == c[..|b|][j];
          assert OverrideLike(b[j + 1..]);
          assert b[j + 1] == c[..|b|][j + 1];
        }
      }
    }
  }

  /** The places of a name that start at the colon `i`. */
  lemma {:induction false} PlacesAreBelow(v: Name, i: nat)
    requires i < |v| && v[i] == ':' && forall j :: i < j < |v| && v[j] == ':' ==> OverrideLike(v[j + 1..])
    ensures forall p :: p in PlacesFrom(v, v[..i], v[i + 1..]) ==> VariantOf(p.short, v)
    decreases i
  {
    if OverrideLike(v[i + 1..]) {
      BelowAt(v[..i], v);
      assert VariantOf(v[..i], v);
      var short := v[..i];
      var j := RFind(short, ':');
      if ':' in short && j > 0 {
        assert v[j] == short[j] && forall k :: j < k < i ==> v[k] == short[k];
        PlacesAreBelow(v, j);
      }
    }
  }

  /** A name is listed under the names it is a variant of, except that one without colon may go elsewhere. */
  lemma PlaceIsBelow(v: Name, p: Place)
    requires p in Places(v)
    ensures VariantOf(p.short, v) || (':' !in v && ':' !in p.short)
  {
    hide PlacesFrom;
    var i := RFind(v, ':');
    if i >= 0 {
      PlacesAreBelow(v, i);
    } else {
      NextPlaceAlone(v);
    }
  }

  lemma NextPlaceAlone(v: Name)
    requires ':' !in v && v != ""
    ensures forall p :: p in PlacesFrom(v, v[..|v| - 1], v[0..]) ==> ':' !in p.short
  {
  }

  lemma {:induction false} PlacesReach(v: Name, i: nat, k: nat) returns (p: Place)
    requires 0 < k <= i < |v| && v[i] == ':' && v[k] == ':' && VariantOf(v[..k], v)
    ensures p in PlacesFrom(v, v[..i], v[i + 1..]) && p.short == v[..k]
    decreases i
  {
    p := Place(v[..i], v[i + 1..]);
    if k < i {
      var short := v[..i];
      assert short[k] == ':';
      var j := RFind(short, ':');
      assert j >= k && v[j] == short[j];
      p := PlacesReach(v, j, k);
    }
  }

  /** Conversely, a name has a place under every name it is a variant of. */
  lemma VariantHasPlace(s: Name, v: Name) returns (p: Place)
    requires s != "" && VariantOf(s, v)
    ensures p in Places(v) && p.short == s
  {
    hide PlacesFrom;
    BelowAt(s, v);
    var i := RFind(v, ':');
    assert v[|s|] == ':' && i >= |s|;
    p := PlacesReach(v, i, |s|);
  }

  lemma {:induction false} AddLists(over: map<Name, seq<Entry>>, v: Name, ps: seq<Place>, p: Place)
    requires p in ps
    ensures Lists(AddEntries(over, v, ps), p.short, v)
    decreases |ps|
  {
    hide Lists;
    if ps[0] == p {
      AddListsOne(over, v, p);
      AddKeepsListed(AddEntry(over, v, p), v, ps[1..], p.short, v);
    } else {
      AddLists(AddEntry(over, v, ps[0]), v, ps[1..], p);
    }
  }

  lemma AddListsOne(over: map<Name, seq<Entry>>, v: Name, p: Place)
    ensures Lists(AddEntry(over, v, p), p.short, v)
  {
    assert Entry(v, p.key) in AddEntry(over, v, p)[p.short];
  }

  // ----- renames that end -----

  /** At and below `key`, every index list holds names below its owner only. */
  ghost predicate Tidy(strict: bool, over: map<Name, seq<Entry>>, key: Name) {
    forall s <- over, e <- over[s] :: s == key || Below(key, s) ==> Under(strict, s, e.name)
  }

  /**
   A rename of `top` to `target`, under way. `limit` bounds the names. Either new names shorten the old
   ones, or they stay away from what is below `top`.
   */
  datatype Plan = Plan(strict: bool, shrinks: bool, top: Name, target: Name, limit: nat)
  {
    ghost predicate Valid() {
      && top != "" && |top| <= limit && |target| <= limit
      && if shrinks then !strict else target != top && !Under(strict, top, target) && !StartsWith(top, target)
    }

    /** What the lists below `top` hold. */
    ghost predicate Fits(over: map<Name, seq<Entry>>) {
      forall s <- over, e <- over[s] :: Under(strict, top, s) ==> Under(strict, s, e.name) && |e.name| <= limit
    }

    /** A name that may be entered in the index. */
    ghost predicate Fine(n: Name) { Under(strict, top, n) ==> |n| <= limit }

    /** The new name of `k`. */
    ghost predicate Suits(k: Name, n: Name) {
      if shrinks then |n| < |k| else
        StartsWith(n, target) && (|n| > |target| ==> GoesOn(n[|target|]))
    }

    /** What may follow the target in a new name. */
    ghost predicate GoesOn(c: char) { c == ':' || (top != "" && top[0] == ':' && target != "" && c == target[0]) }

    /** The names that are renamed on the way. */
    ghost predicate Within(k: Name) { (k == top || Under(strict, top, k)) && |k| <= limit }
  }

  lemma PrefixOf(a: string, b: string, c: string)
    requires StartsWith(c, a) && StartsWith(c, b) && |a| <= |b|
    ensures StartsWith(b, a)
  {
    assert b[..|a|] == c[..|b|][..|a|];
  }

  /** What begins with the target stays away from `top`. */
  lemma StaysAway(p: Plan, n: Name)
    requires p.Valid() && !p.shrinks && StartsWith(n, p.target)
    requires |n| > |p.target| ==> p.GoesOn(n[|p.target|])
    ensures n != p.top && !Under(p.strict, p.top, n) && !StartsWith(p.top, n)
  {
    var (K, N) := (p.top, p.target);
    if Under(p.strict, K, n) {
      BelowAt(K, n);
      if |N| <= |K| {
        PrefixOf(N, K, n);
      } else {
        assert N[..|K|] == n[..|N|][..|K|] && N[|K|] == n[..|N|][|K|];
        BelowAt(K, N);
        StillUnder(p.strict, K, N, n);
      }
    }
  }

  /** A variant that begins with a name below `top` shows that this name is a variant. */
  lemma StillUnder(strict: bool, top: Name, target: Name, n: Name)
    requires top != "" && Below(top, target) && Under(strict, top, n) && StartsWith(n, target)
    requires |n| > |target| ==> n[|target|] == ':' || (top[0] == ':' && n[|target|] == target[0])
    ensures Under(strict, top, target)
  {
    BelowAt(top, target);
    if strict {
      forall j | |top| <= j < |target| && target[j] == ':'
        ensures OverrideLike(target[j + 1..])
      {
        assert n[j] == n[..|target|][j] && OverrideLike(n[j + 1..]);
        if j + 1 < |target| { assert target[j + 1] == n[..|target|][j + 1]; }
      }
    }
  }

  lemma SuitsIsFine(p: Plan, k: Name, n: Name)
    requires p.Valid() && p.Within(k) && p.Suits(k, n)
    ensures p.Fine(n) && !(n == k || Under(p.strict, k, n))
  {
    if p.shrinks {
      if Below(k, n) { BelowAt(k, n); }
    } else {
      StaysAway(p, n);
      if Under(p.strict, k, n) && k != p.top { UnderTrans(p.strict, p.top, k, n); }
    }
  }

  /** The variable behind a delayed operation is a prefix of the name. */
  lemma {:induction false} BaseIsPrefix(n: Name)
    requires ParseName(n).Some?
    ensures var base := ParseName(n).value.base; |base| < |n| && n[..|base|] == base
    decreases |n|
  {
    if KeywordAt(n).Some? {
      assert n != "";
    } else {
      BaseIsPrefix(n[1..]);
      var base := ParseName(n[1..]).value.base;
      assert n[..1 + |base|] == [n[0]] + n[1..][..|base|];
    }
  }

  lemma BaseIsFine(p: Plan, k: Name, n: Name)
    requires p.Valid() && p.Within(k) && p.Suits(k, n) && ParseName(n).Some?
    ensures p.Fine(ParseName(n).value.base)
  {
    hide ParseName;
    BaseIsPrefix(n);
    var base := ParseName(n).value.base;
    if !p.shrinks && |base| > |p.target| {
      assert base[..|p.target|] == n[..|base|][..|p.target|] && base[|p.target|] == n[..|base|][|p.target|];
      StaysAway(p, base);
    }
  }

  // ----- the lists stay as they should -----

  lemma AddOneFits(p: Plan, over: map<Name, seq<Entry>>, n: Name, place: Place)
    requires p.Fits(over)
    requires Under(p.strict, p.top, place.short) ==> Under(p.strict, place.short, n) && |n| <= p.limit
    ensures p.Fits(AddEntry(over, n, place))
  {
    hide Under;
  }

  lemma {:induction false} AddFits(p: Plan, over: map<Name, seq<Entry>>, n: Name, ps: seq<Place>)
    requires p.Fits(over)
    requires forall place <- ps :: Under(p.strict, p.top, place.short) ==>
      Under(p.strict, place.short, n) && |n| <= p.limit
    ensures p.Fits(AddEntries(over, n, ps)) && over.Keys <= AddEntries(over, n, ps).Keys
    decreases |ps|
  {
    hide Under;
    if |ps| > 0 {
      AddOneFits(p, over, n, ps[0]);
      AddFits(p, AddEntry(over, n, ps[0]), n, ps[1..]);
    }
  }

  lemma AddPlacesFits(p: Plan, over: map<Name, seq<Entry>>, n: Name)
    requires p.Fits(over) && p.Fine(n)
    ensures p.Fits(AddEntries(over, n, Places(n))) && over.Keys <= AddEntries(over, n, Places(n)).Keys
  {
    forall place <- Places(n) | Under(p.strict, p.top, place.short)
      ensures Under(p.strict, place.short, n) && |n| <= p.limit
    {
      BelowAt(p.top, place.short);
      PlaceIsBelow(n, place);
      UnderTrans(p.strict, p.top, place.short, n);
    }
    AddFits(p, over, n, Places(n));
  }

  lemma ValuedFits(p: Plan, st: Store, k: Name, n: Name)
    requires |st.chain| > 0 && p.Valid() && p.Within(k) && p.Suits(k, n) && p.Fits(st.over)
    ensures p.Fits(Valued(st, k, n).over) && st.over.Keys <= Valued(st, k, n).over.Keys
  {
    hide Places, ParseName, AddEntries, LocalContent, Find;
    SuitsIsFine(p, k, n);
    AddPlacesFits(p, st.over, n);
    if ParseName(n).Some? {
      BaseIsFine(p, k, n);
      AddPlacesFits(p, st.over, ParseName(n).value.base);
    }
  }

  lemma {:induction false} DropFits(p: Plan, over: map<Name, seq<Entry>>, v: Name, ps: seq<Place>)
    requires p.Fits(over)
    ensures p.Fits(DropEntries(over, v, ps))
    decreases |ps|
  {
    hide Under, RemoveFirst;
    if |ps| > 0 {
      assert p.Fits(DropEntry(over, v, ps[0]));
      DropFits(p, DropEntry(over, v, ps[0]), v, ps[1..]);
    }
  }

  lemma LeftFits(p: Plan, st: Store, k: Name, n: Name, val: Option<string>)
    requires |st.chain| > 0 && p.Fits(st.over) && p.Fine(n)
    ensures p.Fits(Left(st, k, n, val).over)
    ensures forall m <- st.over :: m != k ==> m in Left(st, k, n, val).over
  {
    hide Places, Plan.Fits, AddEntries, DropEntries;
    AddPlacesFits(p, st.over, n);
    var over := if ':' in n && val.None? then AddEntries(st.over, n, Places(n)) else st.over;
    FitsWithout(p, over, k);
    DropFits(p, over - {k}, k, Places(k));
    DropEntriesKeys(over - {k}, k, Places(k));
  }

  lemma FitsWithout(p: Plan, over: map<Name, seq<Entry>>, k: Name)
    requires p.Fits(over)
    ensures p.Fits(over - {k})
  {
    hide Under;
  }

  // ----- the loop and the recursion -----

  /** A variant's new name suits it, and may be entered behind the new name of the variable. */
  lemma NextSuits(p: Plan, k: Name, n: Name, v: Name)
    requires p.Valid() && p.Within(k) && p.Suits(k, n) && Under(p.strict, k, v) && |v| <= p.limit
    ensures p.Within(v) && |k| < |v| && p.Suits(v, Replace(v, k, n))
    ensures Under(p.strict, p.top, n) ==> Under(p.strict, n, Replace(v, k, n)) && |Replace(v, k, n)| <= p.limit
  {
    BelowAt(k, v);
    if k != p.top { UnderTrans(p.strict, p.top, k, v); BelowAt(p.top, k); }
    var t := v[|k|..];
    assert v != "" && Replace(v, k, n) == n + Replace(t, k, n);
    ReplacedTail(t, k, n);
    assert k[0] == p.top[0];
    if p.shrinks {
      ReplaceNotLonger(t, k, n);
      if Below(p.top, n) { BelowAt(p.top, n); BelowAt(n, Replace(v, k, n)); }
    } else {
      TailSuits(p, n, Replace(t, k, n));
      SuitsIsFine(p, k, n);
      StaysAway(p, n);
    }
  }

  lemma TailSuits(p: Plan, n: Name, r: string)
    requires p.Valid() && !p.shrinks && p.Suits("", n) && r != "" &&
      (r[0] == ':' || (p.top[0] == ':' && n != "" && r[0] == n[0]))
    ensures p.Suits("", n + r)
  {
    assert (n + r)[..|p.target|] == n[..|p.target|];
  }

  /** What follows the replaced name begins with the colon still, or else with the new name. */
  lemma ReplacedTail(t: string, k: Name, n: Name)
    requires t != "" && t[0] == ':' && k != ""
    ensures var r := Replace(t, k, n);
      (r != "" && r[0] == ':') || (k[0] == ':' && n == "") || (k[0] == ':' && r != "" && r[0] == n[0])
  {
    if StartsWith(t, k) { assert t[..|k|][0] == k[0]; }
  }

  lemma {:induction false} ReplaceNotLonger(s: string, pat: string, rep: string)
    requires |rep| <= |pat| && pat != ""
    ensures |Replace(s, pat, rep)| <= |s|
    decreases |s|
  {
    if s != "" { ReplaceNotLonger(if StartsWith(s, pat) then s[|pat|..] else s[1..], pat, rep); }
  }

  lemma {:induction false} PlanEnds(p: Plan, st: Store, k: Name, n: Name, depth: nat)
    requires |st.chain| > 0 && p.Valid() && p.Within(k) && p.Suits(k, n) && p.Fits(st.over)
    requires k != p.top && depth > p.limit - |k|
    ensures RenamedUpTo(st, k, n, depth).Some?
    ensures var r := RenamedUpTo(st, k, n, depth).value;
            p.Fits(r.over) && forall m <- st.over :: m != k && !Under(p.strict, k, m) ==> m in r.over
    decreases depth, 0, 0
  {
    hide Plan.Fits, Plan.Valid, Plan.Suits, Valued, Gathered, Left, Current, LocalContent, VariantsMoved, Under;
    if k != n {
      ValuedFits(p, st, k, n);
      var st1 := Valued(st, k, n);
      var st2 := Gathered(st1, n, Current(st1, k).lists);
      if k in st2.over {
        FitsAt(p, st2.over, k);
        FitsFresh(p, st2.over, n);
        PlanEndsEach(p, st2.(over := st2.over[n := []]), st2.over[k], k, n, depth - 1);
      }
      SuitsIsFine(p, k, n);
      LeftFits(p, Moved(st, k, n, depth - 1).value, k, n, LocalContent(Current(st, k)));
    }
  }

  lemma FitsAt(p: Plan, over: map<Name, seq<Entry>>, k: Name)
    requires p.Fits(over) && k in over && Under(p.strict, p.top, k)
    ensures forall e <- over[k] :: Under(p.strict, k, e.name) && |e.name| <= p.limit
  {
    hide Under;
  }

  lemma FitsFresh(p: Plan, over: map<Name, seq<Entry>>, n: Name)
    requires p.Fits(over)
    ensures p.Fits(over[n := []])
  {
    hide Under;
  }

  lemma FitsEntered(p: Plan, st: Store, n: Name, e: Entry)
    requires p.Fits(st.over) && n in st.over
    requires Under(p.strict, p.top, n) ==> Under(p.strict, n, e.name) && |e.name| <= p.limit
    ensures p.Fits(Entered(st, n, e).over)
  {
    hide Under;
  }

  lemma {:induction false} PlanEndsEach(p: Plan, st: Store, es: seq<Entry>, k: Name, n: Name, depth: nat)
    requires |st.chain| > 0 && p.Valid() && p.Within(k) && p.Suits(k, n) && p.Fits(st.over) && n in st.over
    requires depth >= p.limit - |k| && forall e <- es :: Under(p.strict, k, e.name) && |e.name| <= p.limit
    ensures VariantsMoved(st, es, k, n, depth).Some?
    ensures var r := VariantsMoved(st, es, k, n, depth).value;
            p.Fits(r.over) && forall m <- st.over :: !Under(p.strict, k, m) ==> m in r.over
    decreases depth, 1, |es|
  {
    hide Plan.Fits, Plan.Valid, Plan.Suits, Plan.Within, RenamedUpTo, Replace, Under;
    if |es| > 0 {
      var v := es[0].name;
      var v' := Replace(v, k, n);
      NextSuits(p, k, n, v);
      FitsEntered(p, st, n, Entry(v', es[0].key));
      NotTop(p, k, v);
      PlanEnds(p, Entered(st, n, Entry(v', es[0].key)), v, v', depth);
      SuitsIsFine(p, k, n);
      StillThere(p, k, v);
      PlanEndsEach(p, VariantMoved(st, es[0], k, n, depth).value, es[1..], k, n, depth);
    }
  }

  lemma NotTop(p: Plan, k: Name, v: Name)
    requires p.Within(k) && |k| < |v|
    ensures v != p.top
  {
    if k != p.top { BelowAt(p.top, k); }
  }

  lemma StillThere(p: Plan, k: Name, v: Name)
    requires Under(p.strict, k, v)
    ensures forall m :: !Under(p.strict, k, m) ==> m != v && !Under(p.strict, v, m)
  {
    forall m | Under(p.strict, v, m) ensures Under(p.strict, k, m) { UnderTrans(p.strict, k, v, m); }
  }

  // ----- main results -----

  lemma {:induction false} Bound(ns: set<nat>) returns (m: nat)
    ensures forall n <- ns :: n <= m
  {
    m := 0;
    if n :| n in ns {
      var rest := ns - {n};
      var m' := Bound(rest);
      m := if m' < n then n else m';
      assert forall k <- ns :: k == n || k in rest;
    }
  }

  lemma NamesBound(over: map<Name, seq<Entry>>) returns (m: nat)
    ensures forall s <- over, e <- over[s] :: |e.name| <= m
  {
    var ns := set s, e | s in over && e in over[s] :: |e.name|;
    m := Bound(ns);
    forall s <- over, e <- over[s] ensures |e.name| <= m { assert |e.name| in ns; }
  }

  /** A rename ends, with all its variants, within a depth that the names in the index bound. */
  ghost predicate Ends(st: Store, key: Name, newkey: Name)
    requires |st.chain| > 0
  {
    exists depth: nat :: RenamedUpTo(st, key, newkey, depth).Some?
  }

  lemma PlanFor(strict: bool, over: map<Name, seq<Entry>>, key: Name, newkey: Name) returns (p: Plan)
    requires key != "" && key != newkey && Tidy(strict, over, key) && !Under(strict, key, newkey)
    ensures p.Valid() && p.Within(key) && p.Suits(key, newkey) && p.Fits(over)
    ensures key in over ==> forall e <- over[key] :: Under(p.strict, key, e.name) && |e.name| <= p.limit
  {
    var m := NamesBound(over);
    var shrinks := StartsWith(key, newkey);
    p := Plan(strict && !shrinks, shrinks, key, newkey, m + |key| + |newkey|);
    forall s <- over, e <- over[s] | s == key || Under(p.strict, key, s)
      ensures Under(p.strict, s, e.name)
    {
      assert Under(strict, s, e.name);
    }
  }

  /**
   A rename ends if every list at or below the old name is in order and the new name is not below it; and,
   when the lists hold variants only, if the new name is below but no variant.
   */
  lemma RenameEnds(st: Store, key: Name, newkey: Name, strict: bool)
    requires |st.chain| > 0 && key != ""
    requires Tidy(strict, Valued(st, key, newkey).over, key) && !Under(strict, key, newkey)
    ensures Ends(st, key, newkey)
  {
    hide Tidy, Under, Valued, Gathered, Left, Current, LocalContent, VariantsMoved, Plan.Fits, Plan.Valid, Plan.Suits;
    if key == newkey {
      assert RenamedUpTo(st, key, newkey, 0).Some?;
    } else {
      var st1 := Valued(st, key, newkey);
      var p := PlanFor(strict, st1.over, key, newkey);
      var st2 := Gathered(st1, newkey, Current(st1, key).lists);
      if key in st2.over {
        FitsFresh(p, st2.over, newkey);
        PlanEndsEach(p, st2.(over := st2.over[newkey := []]), st2.over[key], key, newkey, p.limit);
      }
      assert RenamedUpTo(st, key, newkey, p.limit + 1).Some?;
    }
  }

  /** Without variants it ends at once. */
  lemma PlainRenameEnds(st: Store, key: Name, newkey: Name, depth: nat)
    requires |st.chain| > 0 && key !in Valued(st, key, newkey).over && depth > 0
    ensures RenamedUpTo(st, key, newkey, depth).Some?
  {
  }

  /** It raises nothing either if the new name can be set. */
  lemma PlainRenameGoes(st: Store, key: Name, newkey: Name, depth: nat, tracked: set<Name>)
    requires |st.chain| > 0 && key !in Valued(st, key, newkey).over && depth > 0
    requires LocalContent(Current(st, key)).Some? ==> Settable(tracked, newkey)
    ensures RenameGoes(st, key, newkey, depth, tracked)
  {
    hide Valued, Settable, Places, Gathered, Current, LocalContent;
    PlainRenameEnds(st, key, newkey, depth);
  }

  /** Writing the value under the new name leaves the lists in order. */
  lemma ValuedIsTidy(st: Store, key: Name, newkey: Name)
    requires |st.chain| > 0 && Tidy(true, st.over, key) && ParseName(newkey).None?
    ensures Tidy(true, Valued(st, key, newkey).over, key)
  {
    hide Places, ParseName, LocalContent, Find, AddEntries;
    if ':' in newkey {
      forall place <- Places(newkey) ensures VariantOf(place.short, newkey) { PlaceIsBelow(newkey, place); }
      AddIsTidy(st.over, newkey, Places(newkey), key);
    }
  }

  lemma {:induction false} AddIsTidy(over: map<Name, seq<Entry>>, n: Name, ps: seq<Place>, key: Name)
    requires Tidy(true, over, key) && forall place <- ps :: VariantOf(place.short, n)
    ensures Tidy(true, AddEntries(over, n, ps), key)
    decreases |ps|
  {
    hide VariantOf, Below;
    if |ps| > 0 {
      assert Tidy(true, AddEntry(over, n, ps[0]), key);
      AddIsTidy(AddEntry(over, n, ps[0]), n, ps[1..], key);
    }
  }

  /**
   Exactly when a rename ends: for a variable with a value, whose lists and those below it hold variants of
   their owners, it ends if and only if the new name is not one of its variants.
   */
  lemma RenameEndsIff(st: Store, key: Name, newkey: Name)
    requires |st.chain| > 0 && key != "" && Tidy(true, st.over, key)
    requires LocalContent(Current(st, key)).Some? && ParseName(newkey).None?
    ensures Ends(st, key, newkey) <==> !VariantOf(key, newkey)
  {
    hide Places, Tidy, LocalContent, Current, RenamedUpTo, Valued, Find, VariantOf, AddEntries;
    if VariantOf(key, newkey) {
      VariantNeverEnds(st, key, newkey);
    } else {
      ValuedIsTidy(st, key, newkey);
      RenameEnds(st, key, newkey, true);
    }
  }

  /** Renaming a variable with a value to a variant of itself recurses for ever. */
  lemma VariantNeverEnds(st: Store, key: Name, newkey: Name)
    requires |st.chain| > 0 && key != "" && VariantOf(key, newkey)
    requires LocalContent(Current(st, key)).Some? && ParseName(newkey).None?
    ensures !Ends(st, key, newkey)
  {
    hide Places, ParseName, LocalContent, Find, AddEntries, RenamedUpTo, Lists, Contains;
    BelowAt(key, newkey);
    BelowContains(key, newkey);
    var p := VariantHasPlace(key, newkey);
    AddLists(st.over, newkey, Places(newkey), p);
    assert newkey[|key|] == ':';
    forall depth: nat ensures !RenamedUpTo(st, key, newkey, depth).Some? { NeverEnds(st, key, newkey, depth); }
  }

  lemma BelowContains(key: Name, newkey: Name)
    requires |key| < |newkey| && newkey[..|key|] == key
    ensures Contains(newkey, key)
  {
  }
}
