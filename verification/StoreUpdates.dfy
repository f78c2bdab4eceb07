/** What the writing operations of `DataSmart` do to a store, on values. */
module StoreUpdates {
  import opened Wrappers
  import opened Text
  import opened OverrideChoice
  import opened DataModel

  const NODATA := VarData(map[], map[])

  // ----- names -----

  /** A delayed operation read from a variable name. */
  datatype Parsed = Parsed(base: Name, keyword: Keyword, add: string)

  predicate Upper(c: char) { 'A' <= c <= 'Z' }

  /** The text after a keyword is empty, or a colon and no upper-case letter. */
  predicate GoodTail(t: string) {
    t == "" || (t[0] == ':' && forall i :: 1 <= i < |t| ==> !Upper(t[i]))
  }

  function KeywordAt(s: string): Option<(Keyword, string)> {
    if StartsWith(s, ":append") && GoodTail(s[7..]) then Some((Append, s[7..]))
    else if StartsWith(s, ":prepend") && GoodTail(s[8..]) then Some((Prepend, s[8..]))
    else if StartsWith(s, ":remove") && GoodTail(s[7..]) then Some((Remove, s[7..]))
    else None
  }

  /** `__setvar_regexp__.match(var)`: the leftmost keyword with an acceptable tail. */
  function ParseName(s: string): Option<Parsed> {
    match KeywordAt(s)
    case Some((k, tail)) => Some(Parsed("", k, if tail == "" then "" else tail[1..]))
    case None =>
      if s == "" then None else
        match ParseName(s[1..])
        case None => None
        case Some(p) => Some(p.(base := [s[0]] + p.base))
  }

  /** The operations of the old override syntax, which `setVar` rejects. */
  predicate OldSyntax(v: Name) {
    !StartsWith(v, "__anon_") && (Contains(v, "_append") || Contains(v, "_prepend") || Contains(v, "_remove"))
  }

  /** `__override_regexp__.match(o)` for a non-empty `o`. */
  predicate OverrideLike(o: string) {
    |o| > 0 && ('a' <= o[0] <= 'z' || '0' <= o[0] <= '9')
  }

  /** One slot of the override index: the list of `short` and the key to put there. */
  datatype Place = Place(short: Name, key: string)

  /** `s[:i]` with Python's reading of -1. */
  function Before(s: string, i: int): (r: string)
    requires -1 <= i < |s| || (i == -1 && |s| == 0)
    ensures |s| > 0 ==> |r| < |s|
  {
    if i >= 0 then s[..i] else if |s| > 0 then s[..|s| - 1] else s
  }

  /** The remaining places of `v`, from the split `short` / `key` leftwards. */
  function PlacesFrom(v: Name, short: Name, key: string): (ps: seq<Place>)
    requires |short| <= |v|
    ensures |v| > 0 && |short| < |v| ==> forall p :: p in ps ==> |p.short| < |v|
    decreases |short|
  {
    if !OverrideLike(key) then []
    else
      [Place(short, key)] +
      if ':' !in short then [] else
        var j := RFind(short, ':');
        if j <= 0 then [] else PlacesFrom(v, v[..j], v[j + 1..])
  }

  /** Every place of the override index that the name `v` belongs to. */
  function Places(v: Name): (ps: seq<Place>)
    ensures forall p :: p in ps ==> |p.short| < |v|
  {
    var i := RFind(v, ':');
    if v == "" then [] else PlacesFrom(v, Before(v, i), v[i + 1..])
  }

  /**
   A name without colon has a place all the same when it looks like an override: `rfind` gives -1, so the
   whole name is the key, and the name without its last character is where it is entered.
   */
  lemma ColonFreePlaces(v: Name)
    requires ':' !in v
    ensures Places(v) == if OverrideLike(v) then [Place(v[..|v| - 1], v)] else []
    ensures Places("foo") == [Place("fo", "foo")]
  {
    assert v[0..] == v && "foo"[0..] == "foo" && "foo"[..2] == "fo";
  }

  lemma NextPlace(v: Name, short: Name, key: string)
    requires |short| <= |v| && OverrideLike(key)
    ensures PlacesFrom(v, short, key) == [Place(short, key)] + PlacesFrom(v, short, key)[1..]
    ensures PlacesFrom(v, short, key)[1..] ==
      if ':' !in short || RFind(short, ':') <= 0 then []
      else PlacesFrom(v, v[..RFind(short, ':')], v[RFind(short, ':') + 1..])
  {
  }

  lemma LastPlace(v: Name, short: Name, key: string)
    requires |short| <= |v| && !OverrideLike(key)
    ensures PlacesFrom(v, short, key) == []
  {
  }

  lemma FirstPlaces(v: Name)
    ensures Places(v) == PlacesFrom(v, Before(v, RFind(v, ':')), v[RFind(v, ':') + 1..])
  {
    hide PlacesFrom;
    if v == "" { LastPlace(v, Before(v, RFind(v, ':')), v[RFind(v, ':') + 1..]); }
  }

  /** The split of the rest of the name, as the loops over the index go on. */
  predicate Onward(v: Name, short: Name, short': Name, key': string) {
    |short| <= |v| && |short'| <= |v| &&
    if ':' !in short then key' == ""
    else short' == v[..RFind(short, ':')] && key' == if short' == "" then "" else v[RFind(short, ':') + 1..]
  }

  lemma OnwardPlaces(v: Name, short: Name, key: string, short': Name, key': string)
    requires Onward(v, short, short', key') && OverrideLike(key)
    ensures PlacesFrom(v, short, key) == [Place(short, key)] + PlacesFrom(v, short', key')
  {
    hide RFind;
  }

  // ----- the override index -----

  function AddEntry(over: map<Name, seq<Entry>>, v: Name, p: Place): map<Name, seq<Entry>> {
    var l := if p.short in over then over[p.short] else [];
    over[p.short := if Entry(v, p.key) in l then l else l + [Entry(v, p.key)]]
  }

  function AddEntries(over: map<Name, seq<Entry>>, v: Name, ps: seq<Place>): map<Name, seq<Entry>>
    decreases |ps|
  {
    if |ps| == 0 then over else AddEntries(AddEntry(over, v, ps[0]), v, ps[1..])
  }

  /** `list.remove`: drops the first occurrence, if there is one. */
  function RemoveFirst(l: seq<Entry>, e: Entry): (r: seq<Entry>)
    ensures forall x :: x in r ==> x in l
  {
    if |l| == 0 then [] else if l[0] == e then l[1..] else [l[0]] + RemoveFirst(l[1..], e)
  }

  function DropEntry(over: map<Name, seq<Entry>>, v: Name, p: Place): map<Name, seq<Entry>> {
    if p.short in over then over[p.short := RemoveFirst(over[p.short], Entry(v, p.key))] else over
  }

  function DropEntries(over: map<Name, seq<Entry>>, v: Name, ps: seq<Place>): map<Name, seq<Entry>>
    decreases |ps|
  {
    if |ps| == 0 then over else DropEntries(DropEntry(over, v, ps[0]), v, ps[1..])
  }

  lemma AddOnward(over: map<Name, seq<Entry>>, v: Name, short: Name, key: string, short': Name, key': string)
    requires Onward(v, short, short', key') && OverrideLike(key)
    ensures AddEntries(over, v, PlacesFrom(v, short, key))
         == AddEntries(AddEntry(over, v, Place(short, key)), v, PlacesFrom(v, short', key'))
  {
    hide PlacesFrom;
    OnwardPlaces(v, short, key, short', key');
    var ps := PlacesFrom(v, short, key);
    assert ps[0] == Place(short, key) && ps[1..] == PlacesFrom(v, short', key');
  }

  lemma AddNone(over: map<Name, seq<Entry>>, v: Name)
    ensures AddEntries(over, v, []) == over
  {
  }

  lemma DropOnward(over: map<Name, seq<Entry>>, v: Name, short: Name, key: string, short': Name, key': string)
    requires Onward(v, short, short', key') && OverrideLike(key)
    ensures DropEntries(over, v, PlacesFrom(v, short, key))
         == DropEntries(DropEntry(over, v, Place(short, key)), v, PlacesFrom(v, short', key'))
  {
    hide PlacesFrom;
    OnwardPlaces(v, short, key, short', key');
    var ps := PlacesFrom(v, short, key);
    assert ps[0] == Place(short, key) && ps[1..] == PlacesFrom(v, short', key');
  }

  lemma DropNone(over: map<Name, seq<Entry>>, v: Name)
    ensures DropEntries(over, v, []) == over
  {
  }

  function ActiveNames(entries: seq<Entry>, O: seq<string>): seq<Name> {
    if |entries| == 0 then [] else
      ActiveNames(entries[..|entries| - 1], O) +
      (if IsActive(entries[|entries| - 1].key, O) then [entries[|entries| - 1].name] else [])
  }

  // ----- the writes -----

  /** The flag dictionary that a write to `v` starts from. */
  function Current(st: Store, v: Name): VarData {
    Find(st.chain, v).GetOr(NODATA)
  }

  function WithData(st: Store, v: Name, d: VarData): (r: Store)
    requires |st.chain| > 0
    ensures |r.chain| == |st.chain| && r.chain[1..] == st.chain[1..]
    ensures Find(r.chain, v) == Some(d)
    ensures forall n :: n != v ==> Find(r.chain, n) == Find(st.chain, n)
  {
    st.(chain := [st.chain[0][v := d]] + st.chain[1..])
  }

  function Deleted(st: Store, v: Name): (r: Store)
    requires |st.chain| > 0
    ensures |r.chain| == |st.chain| && r.chain[1..] == st.chain[1..]
  {
    var over := st.over - {v};
    WithData(st, v, NODATA).(over := if ':' in v then DropEntries(over, v, Places(v)) else over)
  }

  function DeletedAll(st: Store, vs: seq<Name>): (r: Store)
    requires |st.chain| > 0
    ensures |r.chain| == |st.chain| && r.chain[1..] == st.chain[1..]
    decreases |vs|
  {
    if |vs| == 0 then st else DeletedAll(Deleted(st, vs[0]), vs[1..])
  }

  /** A `setVar` that carries a delayed operation. */
  function Delayed(st: Store, base: Name, k: Keyword, it: Item): (r: Store)
    requires |st.chain| > 0
    ensures |r.chain| == |st.chain| && r.chain[1..] == st.chain[1..]
  {
    var d := Current(st, base);
    WithData(st, base, d.(lists := d.lists[k := d.ListOf(k) + [it]]))
      .(over := AddEntries(st.over, base, Places(base)))
  }

  /** A `setVar` while parsing: delayed operations and variants stay. */
  function Written(st: Store, v: Name, x: string): (r: Store)
    requires |st.chain| > 0
    ensures |r.chain| == |st.chain| && r.chain[1..] == st.chain[1..]
  {
    var d := Current(st, v);
    WithData(st, v, d.(text := d.text[CONTENT := x]))
      .(over := if ':' in v then AddEntries(st.over, v, Places(v)) else st.over)
  }

  /** The store once `v` has lost its delayed operations. */
  function Stripped(st: Store, v: Name): (r: Store)
    requires |st.chain| > 0
    ensures |r.chain| == |st.chain| && r.chain[1..] == st.chain[1..]
  {
    WithData(st, v, Current(st, v).(lists := map[]))
  }

  /** The store without the active variants of `v` and without its override list. */
  function Unvaried(st: Store, O: seq<string>, v: Name): (r: Store)
    requires |st.chain| > 0 && v in st.over
    ensures |r.chain| == |st.chain| && r.chain[1..] == st.chain[1..]
  {
    var st' := DeletedAll(st, ActiveNames(st.over[v], O));
    st'.(over := st'.over - {v})
  }

  /** The store just before the value is written by a `setVar` outside parsing. */
  function Cleared(st: Store, O: seq<string>, v: Name): (r: Store)
    requires |st.chain| > 0
    ensures |r.chain| == |st.chain| && r.chain[1..] == st.chain[1..]
  {
    if v in st.over then Unvaried(Stripped(st, v), O, v) else Stripped(st, v)
  }

  /** A `setVar` outside parsing, where O is the override list then in force. */
  function Assigned(st: Store, O: seq<string>, v: Name, x: string): (r: Store)
    requires |st.chain| > 0
    ensures |r.chain| == |st.chain| && r.chain[1..] == st.chain[1..]
  {
    Written(Cleared(st, O, v), v, x)
  }

  /** The name that `appendVar` and `prependVar` pass to `setVar`. */
  function DelayedName(v: Name, k: Keyword): Name {
    v + match k
      case Append => ":append"
      case Prepend => ":prepend"
      case Remove => ":remove"
  }

  /** The variable that `setVar` of the name `v` changes. */
  function Target(v: Name): Name {
    match ParseName(v)
    case Some(p) => p.base
    case None => v
  }

  /** `setVar`, where O is the override list in force when variants are dropped. */
  function SetVarResult(st: Store, O: seq<string>, v: Name, x: string, parsing: bool): Store
    requires |st.chain| > 0
  {
    match ParseName(v)
    case Some(p) => Delayed(st, p.base, p.keyword, Item(x, p.add))
    case None => if parsing then Written(st, v, x) else Assigned(st, O, v, x)
  }

  function Flagged(st: Store, v: Name, flag: string, x: string): (r: Store)
    requires |st.chain| > 0
    ensures |r.chain| == |st.chain| && r.chain[1..] == st.chain[1..]
  {
    var d := Current(st, v);
    WithData(st, v, d.(text := d.text[flag := x]))
      .(over := if flag == DEFAULT && ':' in v then AddEntries(st.over, v, Places(v)) else st.over)
  }

  function Unflagged(st: Store, v: Name, flag: string): (r: Store)
    requires |st.chain| > 0
    ensures |r.chain| == |st.chain| && r.chain[1..] == st.chain[1..]
  {
    var d := Current(st, v);
    if d.Empty() then st else WithData(st, v, d.(text := d.text - {flag}))
  }

  // ----- renameVar -----

  /** `getVar(key, 0, parsing=True)` of the dictionary `d`. */
  function LocalContent(d: VarData): Option<string> {
    if CONTENT in d.text then d.Flag(CONTENT) else d.Flag(DEFAULT)
  }

  /** The delayed operations `more` go behind those of `d`. */
  function Joined(d: VarData, more: map<Keyword, seq<Item>>): VarData {
    d.(lists := map k | k in d.lists.Keys + more.Keys :: if k in more then d.ListOf(k) + more[k] else d.lists[k])
  }

  function Gathered(st: Store, v: Name, more: map<Keyword, seq<Item>>): (r: Store)
    requires |st.chain| > 0
    ensures |r.chain| == |st.chain| && r.chain[1..] == st.chain[1..] && r.over == st.over
  {
    if more == map[] then st else WithData(st, v, Joined(Current(st, v), more))
  }

  /** The new name has the value. */
  function Valued(st: Store, key: Name, newkey: Name): (r: Store)
    requires |st.chain| > 0
    ensures |r.chain| == |st.chain| && r.chain[1..] == st.chain[1..]
  {
    match LocalContent(Current(st, key))
    case Some(x) => SetVarResult(st, [], newkey, x, true)
    case None => st
  }

  /**
   `renameVar`, where `depth` bounds the nesting: the variants in the index are renamed one after the other,
   each after its new name has been entered. None stands for an exception.
   */
  function RenamedUpTo(st: Store, key: Name, newkey: Name, depth: nat): (r: Option<Store>)
    requires |st.chain| > 0
    ensures r.Some? ==> |r.value.chain| == |st.chain| && r.value.chain[1..] == st.chain[1..]
    decreases depth, 1, 0
  {
    if key == newkey then Some(st)
    else if depth == 0 then None
    else
      match Moved(st, key, newkey, depth - 1)
      case None => None
      case Some(st') => Some(Left(st', key, newkey, LocalContent(Current(st, key))))
  }

  /** The variable itself, then its variants. */
  function Moved(st: Store, key: Name, newkey: Name, depth: nat): (r: Option<Store>)
    requires |st.chain| > 0
    ensures r.Some? ==> |r.value.chain| == |st.chain| && r.value.chain[1..] == st.chain[1..]
    decreases depth, 4, 0
  {
    var st1 := Valued(st, key, newkey);
    var st2 := Gathered(st1, newkey, Current(st1, key).lists);
    if key in st2.over then VariantsMoved(st2.(over := st2.over[newkey := []]), st2.over[key], key, newkey, depth)
    else Some(st2)
  }

  /** The old name is deleted; a new name that no value has entered in the index is entered first. */
  function Left(st: Store, key: Name, newkey: Name, val: Option<string>): (r: Store)
    requires |st.chain| > 0
    ensures |r.chain| == |st.chain| && r.chain[1..] == st.chain[1..]
  {
    Deleted(if ':' in newkey && val.None? then st.(over := AddEntries(st.over, newkey, Places(newkey))) else st, key)
  }

  /** The loop over the variants of `key`; a nested rename may take the new list away. */
  function VariantsMoved(st: Store, es: seq<Entry>, key: Name, newkey: Name, depth: nat): (r: Option<Store>)
    requires |st.chain| > 0
    ensures r.Some? ==> |r.value.chain| == |st.chain| && r.value.chain[1..] == st.chain[1..]
    decreases depth, 3, |es|
  {
    if |es| == 0 then Some(st)
    else if newkey !in st.over then None
    else
      match VariantMoved(st, es[0], key, newkey, depth)
      case None => None
      case Some(st') => VariantsMoved(st', es[1..], key, newkey, depth)
  }

  /** The new name of one variant is entered, then the variant is renamed. */
  function VariantMoved(st: Store, e: Entry, key: Name, newkey: Name, depth: nat): (r: Option<Store>)
    requires |st.chain| > 0 && newkey in st.over
    ensures r.Some? ==> |r.value.chain| == |st.chain| && r.value.chain[1..] == st.chain[1..]
    decreases depth, 2, 0
  {
    var v := Replace(e.name, key, newkey);
    RenamedUpTo(Entered(st, newkey, Entry(v, e.key)), e.name, v, depth)
  }

  /** `overridedata[short].append(e)` */
  function Entered(st: Store, short: Name, e: Entry): Store
    requires short in st.over
  {
    st.(over := st.over[short := st.over[short] + [e]])
  }

  // ----- renames that raise nothing -----

  /** While parsing, `setVar` takes the name, and OVERRIDES was not seen to depend on what it changes. */
  predicate Settable(tracked: set<Name>, v: Name) { !OldSyntax(v) && Target(v) !in tracked }

  /** The rename ends within the depth, and no name that is set on the way is a problem. */
  ghost predicate RenameGoes(st: Store, key: Name, newkey: Name, depth: nat, tracked: set<Name>)
    requires |st.chain| > 0
    decreases depth, 1, 0
  {
    && RenamedUpTo(st, key, newkey, depth).Some?
    && (key == newkey || depth == 0 || MoveGoes(st, key, newkey, depth - 1, tracked))
  }

  ghost predicate MoveGoes(st: Store, key: Name, newkey: Name, depth: nat, tracked: set<Name>)
    requires |st.chain| > 0
    decreases depth, 4, 0
  {
    var st1 := Valued(st, key, newkey);
    var st2 := Gathered(st1, newkey, Current(st1, key).lists);
    && (LocalContent(Current(st, key)).Some? ==> Settable(tracked, newkey))
    && (key in st2.over ==> EachGoes(st2.(over := st2.over[newkey := []]), st2.over[key], key, newkey, depth, tracked))
  }

  ghost predicate EachGoes(st: Store, es: seq<Entry>, key: Name, newkey: Name, depth: nat, tracked: set<Name>)
    requires |st.chain| > 0
    decreases depth, 3, |es|
  {
    |es| > 0 ==>
      && newkey in st.over && VariantGoes(st, es[0], key, newkey, depth, tracked)
      && VariantMoved(st, es[0], key, newkey, depth).Some?
      && EachGoes(VariantMoved(st, es[0], key, newkey, depth).value, es[1..], key, newkey, depth, tracked)
  }

  ghost predicate VariantGoes(st: Store, e: Entry, key: Name, newkey: Name, depth: nat, tracked: set<Name>)
    requires |st.chain| > 0 && newkey in st.over
    decreases depth, 2, 0
  {
    var v := Replace(e.name, key, newkey);
    RenameGoes(Entered(st, newkey, Entry(v, e.key)), e.name, v, depth, tracked)
  }

  // ----- stores without `:remove` on override variants -----

  ghost predicate CleanMap(m: VarMap) {
    forall n :: n in m && Places(n) != [] ==> Remove !in m[n].lists
  }

  ghost predicate CleanOver(over: map<Name, seq<Entry>>) {
    forall s, e :: s in over && e in over[s] ==> Places(e.name) != [] && |s| < |e.name|
  }

  /** Names with a place in the index have no `:remove`; the index holds only such names. */
  ghost predicate Clean(st: Store) {
    && |st.chain| > 0
    && (forall m :: m in st.chain ==> CleanMap(m))
    && CleanOver(st.over)
  }

  lemma {:induction false} FindClean(chain: seq<VarMap>, v: Name)
    requires forall m :: m in chain ==> CleanMap(m)
    requires Places(v) != [] && Find(chain, v).Some?
    ensures Remove !in Find(chain, v).value.lists
  {
    if v in chain[0] {
      assert CleanMap(chain[0]);
    } else {
      FindClean(chain[1..], v);
    }
  }

  lemma {:induction false} AddEntriesClean(over: map<Name, seq<Entry>>, v: Name, ps: seq<Place>)
    requires CleanOver(over) && Places(v) != [] && forall p :: p in ps ==> |p.short| < |v|
    ensures CleanOver(AddEntries(over, v, ps))
    decreases |ps|
  {
    hide AddEntry, CleanOver, Places;
    if |ps| > 0 {
      AddEntryClean(over, v, ps[0]);
      AddEntriesClean(AddEntry(over, v, ps[0]), v, ps[1..]);
    }
  }

  lemma AddEntryClean(over: map<Name, seq<Entry>>, v: Name, p: Place)
    requires CleanOver(over) && Places(v) != [] && |p.short| < |v|
    ensures CleanOver(AddEntry(over, v, p))
  {
    hide Places;
  }

  lemma {:induction false} DropEntriesClean(over: map<Name, seq<Entry>>, v: Name, ps: seq<Place>)
    requires CleanOver(over)
    ensures CleanOver(DropEntries(over, v, ps))
    decreases |ps|
  {
    if |ps| > 0 {
      assert CleanOver(DropEntry(over, v, ps[0]));
      DropEntriesClean(DropEntry(over, v, ps[0]), v, ps[1..]);
    }
  }

  lemma WithDataClean(st: Store, v: Name, d: VarData)
    requires Clean(st) && (Places(v) != [] ==> Remove !in d.lists)
    ensures Clean(WithData(st, v, d))
  {
    var r := WithData(st, v, d);
    forall m | m in r.chain
      ensures CleanMap(m)
    {
      if m in st.chain[1..] { assert m in st.chain; }
      assert st.chain[0] in st.chain;
    }
  }

  lemma CurrentClean(st: Store, v: Name)
    requires Clean(st) && Places(v) != []
    ensures Remove !in Current(st, v).lists
  {
    if Find(st.chain, v).Some? { FindClean(st.chain, v); }
  }

  lemma MaybeAddClean(over: map<Name, seq<Entry>>, v: Name)
    requires CleanOver(over)
    ensures CleanOver(AddEntries(over, v, Places(v)))
  {
    if Places(v) != [] { AddEntriesClean(over, v, Places(v)); }
  }

  lemma DeletedClean(st: Store, v: Name)
    requires Clean(st)
    ensures Clean(Deleted(st, v))
  {
    WithDataClean(st, v, NODATA);
    var over := st.over - {v};
    assert CleanOver(over);
    DropEntriesClean(over, v, Places(v));
  }

  lemma {:induction false} DeletedAllClean(st: Store, vs: seq<Name>)
    requires Clean(st)
    ensures Clean(DeletedAll(st, vs))
    decreases |vs|
  {
    if |vs| > 0 {
      DeletedClean(st, vs[0]);
      DeletedAllClean(Deleted(st, vs[0]), vs[1..]);
    }
  }

  lemma StrippedClean(st: Store, v: Name)
    requires Clean(st)
    ensures Clean(Stripped(st, v))
  {
    WithDataClean(st, v, Current(st, v).(lists := map[]));
  }

  lemma DelayedClean(st: Store, base: Name, k: Keyword, it: Item)
    requires Clean(st) && (k == Remove ==> Places(base) == [])
    ensures Clean(Delayed(st, base, k, it))
  {
    var d := Current(st, base);
    if Places(base) != [] { CurrentClean(st, base); }
    WithDataClean(st, base, d.(lists := d.lists[k := d.ListOf(k) + [it]]));
    MaybeAddClean(st.over, base);
  }

  lemma WrittenClean(st: Store, v: Name, x: string)
    requires Clean(st)
    ensures Clean(Written(st, v, x))
  {
    var d := Current(st, v);
    if Places(v) != [] { CurrentClean(st, v); }
    WithDataClean(st, v, d.(text := d.text[CONTENT := x]));
    MaybeAddClean(st.over, v);
  }

  lemma FlaggedClean(st: Store, v: Name, flag: string, x: string)
    requires Clean(st)
    ensures Clean(Flagged(st, v, flag, x))
  {
    var d := Current(st, v);
    if Places(v) != [] { CurrentClean(st, v); }
    WithDataClean(st, v, d.(text := d.text[flag := x]));
    MaybeAddClean(st.over, v);
  }

  lemma UnflaggedClean(st: Store, v: Name, flag: string)
    requires Clean(st)
    ensures Clean(Unflagged(st, v, flag))
  {
    var d := Current(st, v);
    if Places(v) != [] { CurrentClean(st, v); }
    WithDataClean(st, v, d.(text := d.text - {flag}));
  }

  lemma ListStays(st: Store, O: seq<string>, v: Name)
    requires |st.chain| > 0 && v in st.over
    ensures NotOwnVariant(st, O, v) <==> v in DeletedAll(st, ActiveNames(st.over[v], O)).over
  {
    hide ActiveNames;
    var vs := ActiveNames(st.over[v], O);
    if v in vs { ListGone(st, vs, v); } else { DeletedAllOther(st, vs, v); }
  }

  lemma UnvariedClean(st: Store, O: seq<string>, v: Name)
    requires Clean(st) && v in st.over
    ensures v in DeletedAll(st, ActiveNames(st.over[v], O)).over
    ensures Clean(Unvaried(st, O, v))
  {
    DeletedAllClean(st, ActiveNames(st.over[v], O));
    NotAmongItsVariants(st, O, v);
    DeletedAllOther(st, ActiveNames(st.over[v], O), v);
  }

  lemma AssignedClean(st: Store, O: seq<string>, v: Name, x: string)
    requires Clean(st)
    ensures Clean(Assigned(st, O, v, x))
  {
    hide Clean, Written, Unvaried, Stripped;
    StrippedClean(st, v);
    if v in st.over {
      StrippedOver(st, v);
      UnvariedClean(Stripped(st, v), O, v);
    }
    WrittenClean(Cleared(st, O, v), v, x);
  }

  lemma StrippedOver(st: Store, v: Name)
    requires |st.chain| > 0
    ensures Stripped(st, v).over == st.over
  {
  }

  /** A `:remove` list never lands on an override variant. */
  predicate KeepsClean(v: Name) {
    ParseName(v).Some? && ParseName(v).value.keyword == Remove ==> Places(ParseName(v).value.base) == []
  }

  lemma SetVarClean(st: Store, O: seq<string>, v: Name, x: string, parsing: bool)
    requires Clean(st) && KeepsClean(v)
    ensures Clean(SetVarResult(st, O, v, x, parsing))
  {
    hide Clean, Delayed, Assigned, Written, Places, ParseName;
    match ParseName(v)
    case Some(p) => DelayedClean(st, p.base, p.keyword, Item(x, p.add));
    case None => if parsing { WrittenClean(st, v, x); } else { AssignedClean(st, O, v, x); }
  }

  // ----- last write wins -----

  lemma {:induction false} AddEntriesKeeps(over: map<Name, seq<Entry>>, v: Name, ps: seq<Place>, n: Name)
    requires forall p :: p in ps ==> p.short != n
    ensures n in AddEntries(over, v, ps) <==> n in over
    ensures n in over ==> AddEntries(over, v, ps)[n] == over[n]
    decreases |ps|
  {
    if |ps| > 0 { AddEntriesKeeps(AddEntry(over, v, ps[0]), v, ps[1..], n); }
  }

  lemma {:induction false} DropEntriesKeys(over: map<Name, seq<Entry>>, v: Name, ps: seq<Place>)
    ensures DropEntries(over, v, ps).Keys == over.Keys
    decreases |ps|
  {
    if |ps| > 0 { DropEntriesKeys(DropEntry(over, v, ps[0]), v, ps[1..]); }
  }

  lemma {:induction false} DeletedAllOther(st: Store, vs: seq<Name>, n: Name)
    requires |st.chain| > 0 && n !in vs
    ensures Find(DeletedAll(st, vs).chain, n) == Find(st.chain, n)
    ensures n in DeletedAll(st, vs).over <==> n in st.over
    decreases |vs|
  {
    if |vs| > 0 {
      assert vs[0] in vs;
      DropEntriesKeys(st.over - {vs[0]}, vs[0], Places(vs[0]));
      DeletedAllOther(Deleted(st, vs[0]), vs[1..], n);
    }
  }

  lemma {:induction false} DeletedAllKeys(st: Store, vs: seq<Name>, n: Name)
    requires |st.chain| > 0 && n in st.chain[0]
    ensures n in DeletedAll(st, vs).chain[0]
    decreases |vs|
  {
    if |vs| > 0 { DeletedAllKeys(Deleted(st, vs[0]), vs[1..], n); }
  }

  lemma {:induction false} ActiveNamesListed(entries: seq<Entry>, O: seq<string>)
    ensures forall n :: n in ActiveNames(entries, O) ==> exists e :: e in entries && e.name == n
  {
    if |entries| > 0 {
      var e := entries[|entries| - 1];
      ActiveNamesListed(entries[..|entries| - 1], O);
      assert e in entries;
    }
  }

  lemma NotAmongItsVariants(st: Store, O: seq<string>, v: Name)
    requires Clean(st) && v in st.over
    ensures v !in ActiveNames(st.over[v], O)
  {
    ActiveNamesListed(st.over[v], O);
  }

  /** `v` is not dropped as one of its own variants, so that `setVar` still finds its index list. */
  predicate NotOwnVariant(st: Store, O: seq<string>, v: Name) {
    v in st.over ==> v !in ActiveNames(st.over[v], O)
  }

  lemma {:induction false} IndexShrinks(st: Store, vs: seq<Name>)
    requires |st.chain| > 0
    ensures DeletedAll(st, vs).over.Keys <= st.over.Keys
    decreases |vs|
  {
    if |vs| > 0 {
      DropEntriesKeys(st.over - {vs[0]}, vs[0], Places(vs[0]));
      IndexShrinks(Deleted(st, vs[0]), vs[1..]);
    }
  }

  /** The index list of a deleted name does not come back. */
  lemma {:induction false} ListGone(st: Store, vs: seq<Name>, v: Name)
    requires |st.chain| > 0 && v in vs
    ensures v !in DeletedAll(st, vs).over
    decreases |vs|
  {
    if vs[0] == v {
      DropEntriesKeys(st.over - {v}, v, Places(v));
      IndexShrinks(Deleted(st, v), vs[1..]);
    } else {
      ListGone(Deleted(st, vs[0]), vs[1..], v);
    }
  }

  /** What is left of `v` once a `setVar` outside parsing has cleared it. */
  lemma ClearedData(st: Store, O: seq<string>, v: Name)
    requires |st.chain| > 0 && NotOwnVariant(st, O, v)
    ensures Find(Cleared(st, O, v).chain, v) == Some(Current(st, v).(lists := map[]))
    ensures v !in Cleared(st, O, v).over
  {
    if v in st.over {
      var st1 := Stripped(st, v);
      DeletedAllOther(st1, ActiveNames(st.over[v], O), v);
    }
  }

  /**
   Last write wins: after a `setVar` outside parsing, the unexpanded value is the one written,
   whatever content, delayed operations or variants this store or an ancestor held, removals of
   variants included, and under every override list. Were `v` one of its own active variants,
   `setVar` would raise.
   */
  lemma LastWriteWins(st: Store, O: seq<string>, v: Name, x: string, O': seq<string>, fuel: nat)
    requires |st.chain| > 0 && NotOwnVariant(st, O, v)
    ensures Raw(Assigned(st, O, v, x), O', v, fuel) == Done(Some(x), {v})
    ensures var r := Assigned(st, O, v, x);
            v !in r.over && HasNoLists(r, v) && LocalFlag(r, Content(v)) == Some(x) && Visible(r, O', v)
  {
    var c := Cleared(st, O, v);
    ClearedData(st, O, v);
    AddEntriesKeeps(c.over, v, Places(v), v);
    var r := Assigned(st, O, v, x);
    assert Find(r.chain, v) == Some(Current(c, v).(text := Current(c, v).text[CONTENT := x]));
    assert ListOf(r, v, Append) == [] && ListOf(r, v, Prepend) == [];
  }

  /** After `delVar` the variable has no value and is not iterated, under every override list. */
  lemma DeletedIsGone(st: Store, v: Name, O': seq<string>, fuel: nat)
    requires |st.chain| > 0
    ensures Raw(Deleted(st, v), O', v, fuel) == Done(None, {v})
    ensures v !in Deleted(st, v).over && !Visible(Deleted(st, v), O', v)
  {
    DropEntriesKeys(st.over - {v}, v, Places(v));
    var r := Deleted(st, v);
    assert Find(r.chain, v) == Some(NODATA);
    assert ListOf(r, v, Append) == [] && ListOf(r, v, Prepend) == [];
  }

  // ----- memos that a write finds -----

  /** The write changes the choice of variant for none of the names in `R`. */
  ghost predicate ChoicesStay(st: Store, O: seq<string>, v: Name, x: string, R: set<Name>)
    requires |st.chain| > 0
  {
    forall n <- R :: n != v ==> Selected(Stripped(st, v), O, n) == Selected(Assigned(st, O, v, x), O, n)
  }

  /** `v` is not read, or already has the value that is written. */
  predicate NotSeen(st: Store, v: Name, x: string, R: set<Name>)
    requires |st.chain| > 0
  {
    v !in R || LocalFlag(Stripped(st, v), Content(v)) == Some(x)
  }

  lemma {:induction false} NoneActive(entries: seq<Entry>, O: seq<string>)
    requires ActiveNames(entries, O) == []
    ensures forall e <- entries :: !IsActive(e.key, O)
  {
    if |entries| > 0 {
      NoneActive(entries[..|entries| - 1], O);
      assert entries == entries[..|entries| - 1] + [entries[|entries| - 1]];
    }
  }

  lemma NoneActiveNoneChosen(st: Store, O: seq<string>, v: Name)
    requires v in st.over ==> ActiveNames(st.over[v], O) == []
    ensures Selected(st, O, v).None?
  {
    if v in st.over {
      NoneActive(st.over[v], O);
      RightmostOverrideWins(st.over[v], O);
    }
  }

  /** A name without colon changes no choice. */
  lemma ColonFreeChoicesStay(st: Store, O: seq<string>, v: Name, x: string, R: set<Name>)
    requires Clean(st) && ':' !in v && (v in st.over ==> ActiveNames(st.over[v], O) == [])
    ensures ChoicesStay(st, O, v, x, R)
  {
  }

  /** The other variables keep their dictionaries. */
  lemma AssignedOther(st: Store, O: seq<string>, v: Name, x: string, n: Name)
    requires Clean(st) && (v in st.over ==> ActiveNames(st.over[v], O) == []) && n != v
    ensures Find(Stripped(st, v).chain, n) == Find(Assigned(st, O, v, x).chain, n)
  {
  }

  lemma AlikeWithSameData(st: Store, st': Store, O: seq<string>, n: Name)
    requires Find(st.chain, n) == Find(st'.chain, n) && Selected(st, O, n) == Selected(st', O, n)
    ensures AlikeAt(st, st', O, n)
  {
    hide Find, Choose;
  }

  /** `v` itself loses its variants, none of them active, and its default. */
  lemma AssignedSelf(st: Store, O: seq<string>, v: Name, x: string)
    requires Clean(st) && (v in st.over ==> ActiveNames(st.over[v], O) == [])
    requires LocalFlag(Stripped(st, v), Content(v)) == Some(x)
    ensures AlikeAt(Stripped(st, v), Assigned(st, O, v, x), O, v)
  {
    hide Choose, Places, AddEntries;
    var st1, c, r := Stripped(st, v), Cleared(st, O, v), Assigned(st, O, v, x);
    if v in st.over { NotAmongItsVariants(st, O, v); }
    ClearedData(st, O, v);
    AddEntriesKeeps(c.over, v, Places(v), v);
    NoneActiveNoneChosen(st1, O, v);
    var d := Current(st, v).(lists := map[]);
    DataAlike(st1, r, O, v, d, d.(text := d.text[CONTENT := x]));
  }

  lemma DataAlike(st: Store, st': Store, O: seq<string>, v: Name, d: VarData, d': VarData)
    requires Find(st.chain, v) == Some(d) && Find(st'.chain, v) == Some(d')
    requires d.lists == map[] == d'.lists && CONTENT in d'.text && d'.text == d.text[CONTENT := d'.text[CONTENT]]
    requires LocalFlag(st, Content(v)) == Some(d'.text[CONTENT])
    requires Selected(st, O, v).None? && Selected(st', O, v).None?
    ensures AlikeAt(st, st', O, v)
  {
    hide Find, Choose;
  }

  /** What a `setVar` that drops no variant leaves of the variables in `R`. */
  lemma AssignedFrame(st: Store, O: seq<string>, v: Name, x: string, R: set<Name>)
    requires Clean(st) && (v in st.over ==> ActiveNames(st.over[v], O) == [])
    requires ChoicesStay(st, O, v, x, R) && NotSeen(st, v, x, R)
    ensures Alike(Stripped(st, v), Assigned(st, O, v, x), O, R)
  {
    hide Stripped, Assigned, Selected, LocalFlag, AlikeAt, Find;
    forall n | n in R
      ensures AlikeAt(Stripped(st, v), Assigned(st, O, v, x), O, n)
    {
      if n == v {
        AssignedSelf(st, O, v, x);
      } else {
        AssignedOther(st, O, v, x, n);
        AlikeWithSameData(Stripped(st, v), Assigned(st, O, v, x), O, n);
      }
    }
  }

  lemma StrippedRaw(st: Store, O: seq<string>, v: Name, fuel: nat)
    requires |st.chain| > 0 && (v in st.over ==> ActiveNames(st.over[v], O) == [])
    ensures Raw(Stripped(st, v), O, v, fuel) == Done(LocalFlag(Stripped(st, v), Content(v)), {v})
  {
    hide Choose;
    var st1 := Stripped(st, v);
    NoneActiveNoneChosen(st1, O, v);
    assert ListOf(st1, v, Append) == [] && ListOf(st1, v, Prepend) == [];
  }

  /** A memo of `v` itself is right afterwards only if it holds the value that is written. */
  lemma MemoOfWritten(st: Store, O: seq<string>, v: Name, x: string, p: Parse, R: set<Name>)
    requires Clean(st) && (v in st.over ==> ActiveNames(st.over[v], O) == [])
    requires EvalsTo(Stripped(st, v), O, Content(v), p, R) && EvalsTo(Assigned(st, O, v, x), O, Content(v), p, R)
    ensures LocalFlag(Stripped(st, v), Content(v)) == Some(x)
  {
    hide Assigned, Stripped, Raw, ExpandOpt, Trim, LocalFlag;
    var f: nat :| Eval(Stripped(st, v), O, Content(v), f) == Done(p, R);
    var g: nat :| Eval(Assigned(st, O, v, x), O, Content(v), g) == Done(p, R);
    StrippedRaw(st, O, v, f - 1);
    if v in st.over { NotAmongItsVariants(st, O, v); }
    LastWriteWins(st, O, v, x, O, g - 1);
  }

  /** The parts that `Written` and `Cleared` leave alone. */
  lemma ClearedTop(st: Store, O: seq<string>, v: Name)
    requires |st.chain| > 0
    ensures v in Cleared(st, O, v).chain[0]
  {
    if v in st.over { DeletedAllKeys(Stripped(st, v), ActiveNames(st.over[v], O), v); }
  }

  /**
   The memos of settling on O after the `setVar` that asked for O: if no choice changes, they are right
   exactly when OVERRIDES was not read through `v`, or `v` had the value already.
   */
  lemma AfterSeed(st: Store, O: seq<string>, v: Name, x: string, cache: map<Key, Parse>, seen: map<Key, set<Name>>)
    requires Clean(st) && v in st.over && ActiveNames(st.over[v], O) == []
    requires CacheOk(Stripped(st, v), Some(O), cache, seen) && Seeded(cache, seen)
    ensures ChoicesStay(st, O, v, x, seen[Content(OVERRIDES)])
         ==> (CacheOk(Assigned(st, O, v, x), Some(O), cache, seen) <==> NotSeen(st, v, x, seen[Content(OVERRIDES)]))
  {
    hide Assigned, Stripped, Alike, ClosedCache, EvalsTo, ChoicesStay;
    if !ChoicesStay(st, O, v, x, seen[Content(OVERRIDES)]) {
    } else if NotSeen(st, v, x, seen[Content(OVERRIDES)]) {
      AssignedFrame(st, O, v, x, seen[Content(OVERRIDES)]);
      CacheOkFrame(Stripped(st, v), Assigned(st, O, v, x), O, cache, seen);
    } else if CacheOk(Assigned(st, O, v, x), Some(O), cache, seen) {
      SeededNames(Stripped(st, v), O, cache, seen, v);
      MemoOfWritten(st, O, v, x, cache[Content(v)], seen[Content(v)]);
    }
  }

  /** Every active key in the lists of these variables has a single part. */
  ghost predicate SingleParts(st: Store, O: seq<string>, R: set<Name>) {
    forall n <- R, e <- (if n in st.over then st.over[n] else []) :: IsActive(e.key, O) ==> ':' !in e.key
  }

  /** The list of `n` grows by entries for `v`. */
  lemma {:induction false} AddGrows(over: map<Name, seq<Entry>>, v: Name, ps: seq<Place>, n: Name)
    returns (more: seq<Entry>)
    ensures n in over ==> n in AddEntries(over, v, ps)
    ensures n in AddEntries(over, v, ps) ==> AddEntries(over, v, ps)[n] == (if n in over then over[n] else []) + more
    ensures forall e <- more :: e.name == v
    decreases |ps|
  {
    if |ps| == 0 {
      more := [];
    } else {
      var over' := AddEntry(over, v, ps[0]);
      var rest := AddGrows(over', v, ps[1..], n);
      var es, es' := if n in over then over[n] else [], if n in over' then over'[n] else [];
      var first := es'[|es|..];
      assert es' == es + first && (es + first) + rest == es + (first + rest);
      more := first + rest;
    }
  }

  /** Further entries for one variant change the choice to that variant, if at all. */
  lemma MoreEntriesChoose(es: seq<Entry>, more: seq<Entry>, v: Name, O: seq<string>)
    requires forall e <- more :: e.name == v
    requires forall e <- es + more :: IsActive(e.key, O) ==> ':' !in e.key
    ensures Choose(es + more, O) == Choose(es, O) || Choose(es + more, O) == Some(v)
  {
    hide Choose, IsActive, FirstAt;
    var all := es + more;
    assert forall e <- es :: e in all;
    RightmostOverrideWins(all, O);
    RightmostOverrideWins(es, O);
    if Choose(all, O).Some? {
      var i :| LastActive(all, O, i) && Choose(all, O) == Some(all[i].name)
               && forall e :: e in all ==> FirstAt(O, e.key) <= FirstAt(O, all[i].key);
      if i >= |es| {
        assert all[i] in more;
      } else {
        assert all[i] in es && all[i].key in O;
        var j :| LastActive(es, O, j) && Choose(es, O) == Some(es[j].name)
                 && forall e :: e in es ==> FirstAt(O, e.key) <= FirstAt(O, es[j].key);
        assert es[j] in all && FirstAt(O, es[j].key) == FirstAt(O, es[i].key);
        assert es[i].key == es[j].key && es[j] == all[j];
      }
    }
  }

  lemma ChangedChoice(st: Store, O: seq<string>, v: Name, x: string, n: Name)
    requires Clean(st) && v in st.over && ActiveNames(st.over[v], O) == [] && n != v
    requires SingleParts(Assigned(st, O, v, x), O, {n})
    ensures var now := Selected(Assigned(st, O, v, x), O, n); now == Selected(Stripped(st, v), O, n) || now == Some(v)
  {
    hide Choose, Places, AddEntries, Find, IsActive;
    var over := st.over - {v};
    assert Cleared(st, O, v).over == over && Stripped(st, v).over == st.over;
    if ':' in v {
      var more := AddGrows(over, v, Places(v), n);
      var es := if n in over then over[n] else [];
      if n in AddEntries(over, v, Places(v)) {
        MoreEntriesChoose(es, more, v, O);
        ChooseNothing(O);
      }
    }
  }

  lemma ChooseNothing(O: seq<string>)
    ensures Choose([], O) == None
  {
    RightmostOverrideWins([], O);
  }

  /** An evaluation of a variable with a chosen variant reads the variant. */
  lemma ReadsChosen(st: Store, O: seq<string>, n: Name, v: Name, p: Parse, R: set<Name>)
    requires EvalsTo(st, O, Content(n), p, R) && Selected(st, O, n) == Some(v)
    ensures v in R
  {
    hide Choose, Find, ExpandOpt, Trim;
    var f: nat :| Eval(st, O, Content(n), f) == Done(p, R);
    assert Raw(st, O, n, f - 1).Done? && Eval(st, O, Content(v), f - 1).Done?;
  }

  /**
   With single-part keys, and unless OVERRIDES was read through `v` with the value already: the memos of
   settling are right after the write exactly when it changes no choice and was not seen.
   */
  lemma AfterSeedIff(st: Store, O: seq<string>, v: Name, x: string, cache: map<Key, Parse>, seen: map<Key, set<Name>>)
    requires |st.chain| > 0 && Clean(st) && v in st.over && ActiveNames(st.over[v], O) == []
    requires CacheOk(Stripped(st, v), Some(O), cache, seen) && Seeded(cache, seen)
    requires var R := seen[Content(OVERRIDES)];
             && SingleParts(Assigned(st, O, v, x), O, R)
             && (v !in R || LocalFlag(Stripped(st, v), Content(v)) != Some(x))
    ensures var R := seen[Content(OVERRIDES)];
            CacheOk(Assigned(st, O, v, x), Some(O), cache, seen) <==>
            ChoicesStay(st, O, v, x, R) && NotSeen(st, v, x, R)
  {
    hide Assigned, Stripped, ClosedCache, EvalsTo, Selected, ActiveNames, Clean, LocalFlag;
    var R := seen[Content(OVERRIDES)];
    AfterSeed(st, O, v, x, cache, seen);
    if CacheOk(Assigned(st, O, v, x), Some(O), cache, seen) {
      SeededNames(Stripped(st, v), O, cache, seen, v);
      if v in R {
        MemoOfWritten(st, O, v, x, cache[Content(v)], seen[Content(v)]);
      }
      forall n <- R | n != v
        ensures Selected(Stripped(st, v), O, n) == Selected(Assigned(st, O, v, x), O, n)
      {
        ChangedChoice(st, O, v, x, n);
        SeededNames(Stripped(st, v), O, cache, seen, n);
        if Selected(Assigned(st, O, v, x), O, n) == Some(v) {
          ReadsChosen(Assigned(st, O, v, x), O, n, v, cache[Content(n)], seen[Content(n)]);
        }
      }
    }
  }

  lemma WrittenTwice(st: Store, v: Name, x: string)
    requires |st.chain| > 0
    ensures Written(WithData(st, v, Current(st, v)), v, x) == Written(st, v, x)
    ensures v in WithData(st, v, Current(st, v)).chain[0]
  {
    var d := Current(st, v);
    assert st.chain[0][v := d][v := d.(text := d.text[CONTENT := x])] ==
      st.chain[0][v := d.(text := d.text[CONTENT := x])];
  }

  lemma KeywordsAlone()
    ensures KeywordAt(":append") == Some((Append, "")) && KeywordAt(":prepend") == Some((Prepend, ""))
  {
    assert ":append"[7..] == "" && ":prepend"[8..] == "";
    assert ":prepend"[..7][1] == 'p' && ":append"[1] == 'a';
  }

  lemma NoKeywordAt(s: string)
    requires s != "" && s[0] != ':'
    ensures KeywordAt(s).None?
  {
    assert forall p: string :: StartsWith(s, p) && p != "" ==> s[..|p|][0] == p[0];
  }

  lemma {:induction false} ColonFreeName(s: string)
    requires ':' !in s
    ensures ParseName(s).None?
  {
    hide GoodTail, KeywordAt;
    if s != "" {
      NoKeywordAt(s);
      ColonFreeName(s[1..]);
    } else {
      NoKeywordInNothing();
    }
  }

  lemma NoKeywordInNothing()
    ensures KeywordAt("").None?
  {
  }

  /** `appendVar` and `prependVar` add a keyword to the name; it is the one that `setVar` finds. */
  lemma {:induction false} SuffixParses(v: Name, k: Keyword)
    requires ':' !in v && k != Remove
    ensures ParseName(DelayedName(v, k)) == Some(Parsed(v, k, ""))
  {
    hide GoodTail, KeywordAt;
    var suffix := if k == Append then ":append" else ":prepend";
    if v == "" {
      assert v + suffix == suffix;
      KeywordsAlone();
    } else {
      var s := v + suffix;
      assert s[0] == v[0] && s[0] != ':';
      NoKeywordAt(s);
      assert s[1..] == v[1..] + suffix;
      SuffixParses(v[1..], k);
      assert [s[0]] + v[1..] == v;
    }
  }

  lemma FlaggedParts(st: Store, v: Name, flag: string, x: string)
    requires |st.chain| > 0
    ensures var d := Current(st, v);
      WithData(st, v, d.(text := d.text[flag := x])).over == st.over
  {
  }

  /** No `:remove` list lands on an override variant. */
  ghost predicate RenameKeepsClean(st: Store, key: Name, newkey: Name)
    requires |st.chain| > 0
  {
    && KeepsClean(newkey)
    && (Remove in Current(Valued(st, key, newkey), key).lists ==> Places(newkey) == [])
  }

  lemma PlainResult(st: Store, O: seq<string>, v: Name, x: string)
    requires |st.chain| > 0 && ParseName(v).None?
    ensures SetVarResult(st, O, v, x, false) == Assigned(st, O, v, x)
  {
  }

  lemma ParsingIgnoresOverrides(st: Store, O: seq<string>, v: Name, x: string)
    requires |st.chain| > 0
    ensures SetVarResult(st, O, v, x, true) == SetVarResult(st, [], v, x, true)
  {
  }

  lemma ValuedClean(st: Store, key: Name, newkey: Name)
    requires Clean(st) && RenameKeepsClean(st, key, newkey)
    ensures Clean(Valued(st, key, newkey))
  {
    hide Clean, Places, ParseName, SetVarResult;
    match LocalContent(Current(st, key))
    case None =>
    case Some(x) => SetVarClean(st, [], newkey, x, true);
  }

  lemma GatheredClean(st: Store, v: Name, more: map<Keyword, seq<Item>>)
    requires Clean(st) && (Remove in more ==> Places(v) == [])
    ensures Clean(Gathered(st, v, more))
  {
    hide Places;
    if Places(v) != [] { CurrentClean(st, v); }
    if more != map[] { WithDataClean(st, v, Joined(Current(st, v), more)); }
  }

  lemma IndexedClean(st: Store, v: Name)
    requires Clean(st)
    ensures Clean(st.(over := AddEntries(st.over, v, Places(v))))
  {
    MaybeAddClean(st.over, v);
  }

  /**
   Renaming moves a variable: the old name has no dictionary entries and no index list afterwards. Without
   variants, the new name has the value and, behind its own delayed operations, those of the old name.
   */
  lemma RenameMoves(st: Store, key: Name, newkey: Name, depth: nat)
    requires |st.chain| > 0 && key != newkey && ParseName(newkey).None?
    requires RenamedUpTo(st, key, newkey, depth).Some?
    ensures var r := RenamedUpTo(st, key, newkey, depth).value; Current(r, key) == NODATA && key !in r.over
    ensures key !in Valued(st, key, newkey).over ==>
      var (was, now) := (Current(st, key), Current(RenamedUpTo(st, key, newkey, depth).value, newkey));
      && (LocalContent(was).Some? ==> now.Flag(CONTENT) == LocalContent(was))
      && (LocalContent(was).None? ==> now.text == Current(st, newkey).text)
      && forall k :: now.ListOf(k) == Current(st, newkey).ListOf(k) + was.ListOf(k)
  {
    hide Places, ParseName, AddEntries, DropEntries, VariantsMoved;
    LeftIsGone(Moved(st, key, newkey, depth - 1).value, key, newkey, LocalContent(Current(st, key)));
    var st1 := Valued(st, key, newkey);
    assert Current(st1, key) == Current(st, key);
    assert forall k :: Current(st1, newkey).ListOf(k) == Current(st, newkey).ListOf(k);
  }

  /** Without variants, no other variable is touched. */
  lemma RenameOther(st: Store, key: Name, newkey: Name, depth: nat, n: Name)
    requires |st.chain| > 0 && key != newkey && ParseName(newkey).None? && n != key && n != newkey
    requires RenamedUpTo(st, key, newkey, depth).Some? && key !in Valued(st, key, newkey).over
    ensures Current(RenamedUpTo(st, key, newkey, depth).value, n) == Current(st, n)
  {
    hide Places, ParseName, AddEntries, DropEntries, VariantsMoved;
  }

  /** What `renameVar` has done when it comes to its only variant, whose new name is already entered. */
  function BeforeVariant(st: Store, key: Name, newkey: Name): Store
    requires |st.chain| > 0 && key in Valued(st, key, newkey).over && |Valued(st, key, newkey).over[key]| > 0
  {
    var st1 := Valued(st, key, newkey);
    var e := st1.over[key][0];
    var st2 := Gathered(st1, newkey, Current(st1, key).lists);
    Entered(st2.(over := st2.over[newkey := []]), newkey, Entry(Replace(e.name, key, newkey), e.key))
  }

  /**
   A variable and its only variant move together: both new names have the old values, both old names are
   empty. The four names differ, and the variant has no variants of its own.
   */
  lemma VariantMoves(st: Store, key: Name, newkey: Name, depth: nat, v: Name, o: string)
    requires |st.chain| > 0 && key != newkey && ParseName(newkey).None? && RenamedUpTo(st, key, newkey, depth).Some?
    requires key in Valued(st, key, newkey).over && Valued(st, key, newkey).over[key] == [Entry(v, o)]
    requires var v' := Replace(v, key, newkey);
             v != v' && ParseName(v').None? && {v, v'} !! {key, newkey} &&
             v !in Valued(BeforeVariant(st, key, newkey), v, v').over
    ensures var r, v' := RenamedUpTo(st, key, newkey, depth).value, Replace(v, key, newkey);
            && Current(r, key) == NODATA == Current(r, v)
            && (LocalContent(Current(st, key)).Some? ==>
                Current(r, newkey).Flag(CONTENT) == LocalContent(Current(st, key)))
            && (LocalContent(Current(st, v)).Some? ==> Current(r, v').Flag(CONTENT) == LocalContent(Current(st, v)))
            && forall k :: Current(r, v').ListOf(k) == Current(st, v').ListOf(k) + Current(st, v).ListOf(k)
  {
    hide Places, ParseName, AddEntries, DropEntries, RenamedUpTo, Replace;
    var v' := Replace(v, key, newkey);
    var st4 := BeforeVariant(st, key, newkey);
    OnlyVariant(st, key, newkey, depth, v, o);
    RenameMoves(st4, v, v', depth - 1);
    RenameOther(st4, v, v', depth - 1, newkey);
    assert Current(st4, v) == Current(st, v) && Current(st4, v') == Current(st, v');
  }

  lemma OnlyVariant(st: Store, key: Name, newkey: Name, depth: nat, v: Name, o: string)
    requires |st.chain| > 0 && key != newkey && RenamedUpTo(st, key, newkey, depth).Some?
    requires key in Valued(st, key, newkey).over && Valued(st, key, newkey).over[key] == [Entry(v, o)]
    ensures depth > 0
    ensures var inner := RenamedUpTo(BeforeVariant(st, key, newkey), v, Replace(v, key, newkey), depth - 1);
            inner.Some? && RenamedUpTo(st, key, newkey, depth) ==
            Some(Left(inner.value, key, newkey, LocalContent(Current(st, key))))
  {
    hide Places, ParseName, Left, Valued, LocalContent, Replace;
    var st1 := Valued(st, key, newkey);
    var st2 := Gathered(st1, newkey, Current(st1, key).lists);
    var es := [Entry(v, o)];
    assert es[1..] == [];
    var st3 := st2.(over := st2.over[newkey := []]);
    assert Moved(st, key, newkey, depth - 1) == VariantsMoved(st3, es, key, newkey, depth - 1);
    assert VariantMoved(st3, es[0], key, newkey, depth - 1)
        == RenamedUpTo(BeforeVariant(st, key, newkey), v, Replace(v, key, newkey), depth - 1);
    LastVariant(st3, es, key, newkey, depth - 1);
    assert Moved(st, key, newkey, depth - 1).Some?;
    assert es[0] == Entry(v, o) && VariantMoved(st3, es[0], key, newkey, depth - 1).Some?;
  }

  lemma LastVariant(st: Store, es: seq<Entry>, key: Name, newkey: Name, depth: nat)
    requires |st.chain| > 0 && |es| == 1 && newkey in st.over
    ensures VariantsMoved(st, es, key, newkey, depth) == VariantMoved(st, es[0], key, newkey, depth)
  {
    hide VariantMoved;
    assert es[1..] == [];
  }

  lemma LeftIsGone(st: Store, key: Name, newkey: Name, val: Option<string>)
    requires |st.chain| > 0
    ensures Current(Left(st, key, newkey, val), key) == NODATA && key !in Left(st, key, newkey, val).over
  {
    var over := if ':' in newkey && val.None? then AddEntries(st.over, newkey, Places(newkey)) else st.over;
    DropEntriesKeys(over - {key}, key, Places(key));
  }

  /** A deeper limit changes nothing about a rename that ends. */
  lemma {:induction false} RenamedMono(st: Store, key: Name, newkey: Name, depth: nat)
    requires |st.chain| > 0 && RenamedUpTo(st, key, newkey, depth).Some?
    ensures RenamedUpTo(st, key, newkey, depth + 1) == RenamedUpTo(st, key, newkey, depth)
    decreases depth, 1, 0
  {
    hide Valued, Gathered, Left, Current, VariantsMoved;
    if key != newkey {
      var st1 := Valued(st, key, newkey);
      var st2 := Gathered(st1, newkey, Current(st1, key).lists);
      if key in st2.over {
        VariantsMono(st2.(over := st2.over[newkey := []]), st2.over[key], key, newkey, depth - 1);
      }
    }
  }

  lemma {:induction false} VariantsMono(st: Store, es: seq<Entry>, key: Name, newkey: Name, depth: nat)
    requires |st.chain| > 0 && VariantsMoved(st, es, key, newkey, depth).Some?
    ensures VariantsMoved(st, es, key, newkey, depth + 1) == VariantsMoved(st, es, key, newkey, depth)
    decreases depth, 2, |es|
  {
    hide Replace, Entered, RenamedUpTo;
    if |es| > 0 {
      var v := Replace(es[0].name, key, newkey);
      RenamedMono(Entered(st, newkey, Entry(v, es[0].key)), es[0].name, v, depth);
      VariantsMono(VariantMoved(st, es[0], key, newkey, depth).value, es[1..], key, newkey, depth);
    }
  }

  /** Without variants, a rename keeps the store free of `:remove` on variants. */
  lemma RenamedClean(st: Store, key: Name, newkey: Name, depth: nat)
    requires |st.chain| > 0 && Clean(st) && RenameKeepsClean(st, key, newkey) && key !in Valued(st, key, newkey).over
    requires RenamedUpTo(st, key, newkey, depth).Some?
    ensures Clean(RenamedUpTo(st, key, newkey, depth).value)
  {
    hide Clean, RenameKeepsClean, Valued, Gathered, Deleted, Places, Current, LocalContent;
    if key != newkey {
      var st1 := Valued(st, key, newkey);
      var lists := Current(st1, key).lists;
      ValuedClean(st, key, newkey);
      RemovesStay(st, key, newkey);
      GatheredClean(st1, newkey, lists);
      var st2 := Gathered(st1, newkey, lists);
      IndexedClean(st2, newkey);
      DeletedClean(if ':' in newkey && LocalContent(Current(st, key)).None?
                   then st2.(over := AddEntries(st2.over, newkey, Places(newkey))) else st2, key);
    }
  }

  lemma RemovesStay(st: Store, key: Name, newkey: Name)
    requires Clean(st) && RenameKeepsClean(st, key, newkey)
    ensures Remove in Current(Valued(st, key, newkey), key).lists ==> Places(newkey) == []
  {
  }
}
