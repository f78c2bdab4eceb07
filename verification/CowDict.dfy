/**
 The copy-on-write dictionary: a level is a Python class, its parent is the base class, an entry
 is a class attribute, and a mutable value is an object on the heap that a level copies from its
 ancestors when it is read for writing.
 */
module CowDict {
  import opened Wrappers
  import Text

  const MUTABLE := "__mutable__"

  predicate Dunder(s: string) { |s| >= 2 && s[..2] == "__" }

  /** A name that cannot be taken for the stored name of a mutable value. */
  predicate IsKey(key: string) { !Text.EndsWith(key, MUTABLE) }

  /** The key of an attribute. */
  function Key(name: string): string {
    if Text.EndsWith(name, MUTABLE) then name[..|name| - |MUTABLE|] else name
  }

  /** A list held by the dictionary, changed in place by whoever holds it. */
  class Cell {
    var items: seq<string>

    constructor (items: seq<string>)
      ensures this.items == items
    {
      this.items := items;
    }

    /** `value.copy()` */
    method Copy() returns (c: Cell)
      ensures fresh(c) && c.items == items
    {
      c := new Cell(items);
    }
  }

  /** `Deleted` is the marker, which is the empty tuple. */
  datatype Value = Nothing | Fixed(s: string) | Deleted | Ref(cell: Cell)

  /** The attribute a value is kept under. */
  function Stored(key: string, v: Value): string {
    if v.Ref? then key + MUTABLE else key
  }

  /** All levels and the objects they hold; it exists for the proof only. */
  class Family {
    ghost var levels: set<Level>
    ghost var cells: set<Cell>
    ghost var last: map<Level, map<string, Value>>
    ghost var home: map<Cell, (Level, string)>

    ghost function Now(): State
      reads this, levels, cells
    {
      State(map l | l in levels :: l.slots, last, map c | c in cells :: c.items, home)
    }

    ghost predicate Valid()
      reads this, levels, cells
    {
      Sound(Now()) && forall l <- levels :: l.family == this
    }

    ghost constructor ()
      ensures Valid() && levels == {} && cells == {}
    {
      levels, cells, last, home := {}, {}, map[], map[];
    }
  }

  /** A class made by `cow`. */
  class Level {
    const parent: Level?
    const count: nat
    var slots: map<string, Value>
    ghost const family: Family

    constructor Base(ghost family: Family)
      requires family.Valid()
      modifies family
      ensures family.Valid() && this.family == family && parent == null && slots == map[]
      ensures family.levels == old(family.levels) + {this} && fresh(this)
      ensures family.Now() == Branched(old(family.Now()), this) && family.cells == old(family.cells)
    {
      hide Separate, NamesFit, Tied, IsKey;
      this.family := family;
      parent, count, slots := null, 0, map[];
      new;
      family.levels := family.levels + {this};
      family.last := family.last[this := map[]];
      BranchedIsSound(old(family.Now()), this);
      assert family.Now().slots == Branched(old(family.Now()), this).slots;
      assert family.Now().texts == old(family.Now()).texts;
    }

    constructor Above(parent: Level)
      requires parent.family.Valid() && parent in parent.family.levels
      modifies parent.family
      ensures this.parent == parent && family == parent.family && count == parent.count + 1
      ensures family.Valid() && family.levels == old(parent.family.levels) + {this}
      ensures family.Now() == Branched(old(parent.family.Now()), this) && family.cells == old(parent.family.cells)
    {
      hide Separate, NamesFit, Tied, IsKey;
      this.parent, count, slots, family := parent, parent.count + 1, map[], parent.family;
      new;
      family.levels := family.levels + {this};
      family.last := family.last[this := map[]];
      BranchedIsSound(old(parent.family.Now()), this);
      assert family.Now().slots == Branched(old(parent.family.Now()), this).slots;
      assert family.Now().texts == old(parent.family.Now()).texts;
    }

    ghost function Getting(key: string): Option<Value>
      requires family.Valid() && this in family.levels
      reads family, family.levels, family.cells
    {
      Get(family.Now().slots, this, key)
    }

    /** The dictionary `d.copy()` returns. */
    method Cow() returns (c: Level)
      requires family.Valid() && this in family.levels
      modifies family
      ensures fresh(c) && c.parent == this && c.family == family && c.count == count + 1
      ensures family.Valid() && family.levels == old(family.levels) + {c} && family.cells == old(family.cells)
      ensures family.Now() == Branched(old(family.Now()), c)
    {
      hide Separate, NamesFit, Tied, IsKey, Branched;
      c := new Level.Above(this);
    }

    /** `d[key] = value`; a mutable value is handed over to this level. */
    method SetItem(key: string, value: Value)
      requires family.Valid() && this in family.levels && IsKey(key)
      requires value.Ref? ==> value.cell !in family.cells
      modifies this, family
      ensures family.Valid() && family.levels == old(family.levels)
      ensures family.cells == old(family.cells) + if value.Ref? then {value.cell} else {}
      ensures family.Now() == Written(old(family.Now()), this, key, value, if value.Ref? then value.cell.items else [])
      ensures OnlyBelow(old(family.Now()), key)
      ensures !value.Ref? ==> Getting(key) == if value.Deleted? then None else Some(value)
      ensures value.Ref? ==> (Getting(key) == Some(value) <==> old(Find(family.Now().slots, this, key)).None?)
      ensures value.Ref? && Getting(key) != Some(value) ==> Getting(key) == old(Getting(key))
    {
      hide Sound, IsKey, Closed, Get, View, Under, Find;
      ghost var was := family.Now();
      SlotsOf(was);
      ghost var items := if value.Ref? then value.cell.items else [];
      WrittenIsSound(was, this, key, value, items);
      if value.Ref? {
        slots := slots[key + MUTABLE := value];
        family.cells := family.cells + {value.cell};
        family.home := family.home[value.cell := (this, key + MUTABLE)];
      } else {
        slots := slots[key := value];
      }
      family.last := Put(family.last, this, key, value);
      assert family.Now().slots == Put(was.slots, this, Stored(key, value), value);
      assert family.Now().texts == Written(was, this, key, value, items).texts;
      WriteSeen(was, key, value, items);
    }

    lemma WriteSeen(was: State, key: string, v: Value, items: seq<string>)
      requires Sound(was) && IsKey(key) && this in was.slots && was.slots.Keys == family.levels && family.Valid()
      requires family.Now() == Written(was, this, key, v, items)
      requires v.Ref? ==> v.cell !in was.texts
      ensures OnlyBelow(was, key)
      ensures !v.Ref? ==> Getting(key) == if v.Deleted? then None else Some(v)
      ensures v.Ref? ==> (Getting(key) == Some(v) <==> Find(was.slots, this, key).None?)
      ensures v.Ref? && Find(was.slots, this, key).Some? ==> Getting(key) == Get(was.slots, this, key)
    {
      hide IsKey, Text.EndsWith, Find, View, Under, Get, Separate, Tied, NamesFit;
      forall m, k | m in family.levels && IsKey(k) && (k != key || !Under(m, this, family.levels))
        ensures View(family.Now(), m, k) == View(was, m, k)
      {
        WriteStaysBelow(was, this, key, v, items, m, k);
      }
      WriteTakesEffect(was, this, key, v, items);
    }

    /** `del d[key]`, which stores the marker and never fails. */
    method DelItem(key: string)
      requires family.Valid() && this in family.levels && IsKey(key)
      modifies this, family
      ensures family.Valid() && family.levels == old(family.levels) && family.cells == old(family.cells)
      ensures family.Now() == Written(old(family.Now()), this, key, Deleted, [])
      ensures OnlyBelow(old(family.Now()), key) && Getting(key) == None
    {
      hide Sound, IsKey, Closed, Written;
      SetItem(key, Deleted);
    }

    /** `getattr`, along the base classes. */
    method GetAttr(name: string) returns (v: Option<Value>)
      requires family.Valid() && this in family.levels
      ensures v == Find(family.Now().slots, this, name)
    {
      hide Separate, NamesFit, Tied;
      var l: Level? := this;
      while l != null && name !in l.slots
        invariant l != null ==> l in family.levels
        invariant Find(family.Now().slots, this, name)
          == if l == null then None else Find(family.Now().slots, l, name)
        decreases if l == null then 0 else l.count + 1
      {
        l := l.parent;
      }
      v := if l == null then None else Some(l.slots[name]);
    }

    /** `__getmutable__` */
    method GetMutable(key: string, readonly: bool) returns (r: Result<Value>)
      requires family.Valid() && this in family.levels && IsKey(key)
      requires Find(family.Now().slots, this, key).None?
      modifies this, family
      ensures family.Valid() && family.levels == old(family.levels)
      ensures r.Ok? <==> old(Getting(key)).Some?
      ensures r.Raised? || readonly || old(key + MUTABLE in slots) ==> family.Now() == old(family.Now())
      ensures r.Ok? && (readonly || old(key + MUTABLE in slots)) ==> Some(r.value) == old(Getting(key))
      ensures r.Ok? && !readonly && old(key + MUTABLE !in slots) ==> CopiedHere(old(family.Now()), key, r.value)
      ensures SameViews(old(family.Now()))
      ensures r.Ok? ==> Getting(key) == Some(r.value) && r.value.Ref? && r.value.cell in family.cells
      ensures r.Ok? && !readonly ==> key + MUTABLE in slots && slots[key + MUTABLE] == r.value
      ensures old(family.cells) <= family.cells && fresh(family.cells - old(family.cells))
    {
      hide Sound, IsKey, Closed, Text.EndsWith, Find, Written, See;
      ghost var was := family.Now();
      SlotsOf(was);
      if key + MUTABLE in slots {
        FindOwn(was, key + MUTABLE);
        MutableIsRef(was, key);
        return Ok(slots[key + MUTABLE]);
      }
      var found := GetAttr(key + MUTABLE);
      if found.None? {
        return Raised;
      }
      MutableIsRef(was, key);
      if readonly {
        return Ok(found.value);
      }
      var value := found.value.cell.Copy();
      assert value !in family.cells && was.texts[found.value.cell] == value.items;
      SetItem(key, Ref(value));
      r := Ok(Ref(value));
      CopyKeepsViews(was, key, Ref(value));
    }

    /** Same levels, and every reader sees what it saw. */
    ghost predicate SameViews(was: State)
      requires family.Valid()
      reads family, family.levels, family.cells
    {
      && was.slots.Keys == family.levels
      && forall m, k | m in family.levels && IsKey(k) :: View(family.Now(), m, k) == View(was, m, k)
    }

    /** Same levels, and whoever reads another key, or reads outside this level's subtree, sees what it saw. */
    ghost predicate OnlyBelow(was: State, key: string)
      requires family.Valid()
      reads family, family.levels, family.cells
    {
      && was.slots.Keys == family.levels
      && forall m, k | m in family.levels && IsKey(k) && (k != key || !Under(m, this, family.levels)) ::
           View(family.Now(), m, k) == View(was, m, k)
    }

    /**
     `__getitem__`: a deleted or missing key gives the default or raises KeyError. Nobody's view changes;
     an object that may be changed in place is held by this level.
     */
    method GetItem(key: string, default: Option<Value>, readonly: bool) returns (r: Result<Value>)
      requires family.Valid() && this in family.levels && IsKey(key)
      modifies this, family
      ensures family.Valid() && family.levels == old(family.levels) && SameViews(old(family.Now()))
      ensures old(Getting(key)).None? ==> r == if default.Some? then Ok(default.value) else Raised
      ensures old(Getting(key)).Some? ==> r.Ok? && Getting(key) == Some(r.value)
      ensures readonly ==>
        family.Now() == old(family.Now()) && (old(Getting(key)).Some? ==> r == Ok(old(Getting(key)).value))
      ensures old(Getting(key)).Some? && r.value.Ref? ==> old(Getting(key)).value.Ref? && r.value.cell in family.cells
      ensures old(Getting(key)).Some? && !r.value.Ref? ==> !old(Getting(key)).value.Ref?
      ensures old(Getting(key)).Some? && r.value.Ref? && !readonly ==>
        key + MUTABLE in slots && slots[key + MUTABLE] == r.value
      ensures old(family.cells) <= family.cells && fresh(family.cells - old(family.cells))
    {
      hide Sound, IsKey, Closed, Text.EndsWith, Find, Written, CopiedHere, See;
      ghost var was := family.Now();
      SlotsOf(was);
      var plain := GetAttr(key);
      if plain.None? {
        if Find(was.slots, this, key + MUTABLE).Some? { MutableIsRef(was, key); }
        var v := GetMutable(key, readonly);
        if v.Ok? {
          return v;
        }
      } else if !plain.value.Deleted? {
        PlainIsFixed(was, key);
        return Ok(plain.value);
      }
      r := if default.Some? then Ok(default.value) else Raised;
    }

    /** `key in d` */
    method HasKey(key: string) returns (has: bool)
      requires family.Valid() && this in family.levels && IsKey(key)
      modifies this, family
      ensures family.Valid() && family.Now() == old(family.Now()) && family.levels == old(family.levels)
      ensures has <==> old(Getting(key)).Some?
    {
      hide Sound, IsKey, Closed, Text.EndsWith, Find, See, View, Get;
      SlotsOf(family.Now());
      var value := GetItem(key, Some(Deleted), true);
      GotIsNotDeleted(old(family.Now()), key);
      has := value != Ok(Deleted);
    }

    lemma GotIsNotDeleted(was: State, key: string)
      requires family.Valid() && this in family.levels && was == family.Now() && IsKey(key)
      ensures Getting(key) != Some(Deleted)
    {
      hide Tied, Text.EndsWith, Separate;
      FindIsHeld(was.slots, this, key);
    }

    /**
     What a caller does that reads a list and changes it: only readers of that key at or below this level
     see it, and this level does.
     */
    method Edit(key: string, items: seq<string>) returns (done: bool)
      requires family.Valid() && this in family.levels && IsKey(key)
      modifies this, family, family.cells
      ensures family.Valid() && family.levels == old(family.levels) && OnlyBelow(old(family.Now()), key)
      ensures done <==> old(Getting(key)).Some? && old(Getting(key)).value.Ref?
      ensures done ==> View(family.Now(), this, key) == Some(Items(items))
      ensures !done ==> SameViews(old(family.Now()))
      ensures old(family.cells) <= family.cells && fresh(family.cells - old(family.cells))
    {
      hide Sound, IsKey, Closed, Text.EndsWith, Find, View, Get;
      SlotsOf(family.Now());
      var r := GetItem(key, None, false);
      done := r.Ok? && r.value.Ref?;
      if done {
        ghost var mid := family.Now();
        r.value.cell.items := items;
        assert family.Now() == Edited(mid, r.value.cell, items);
        EditKeepsOthers(mid, key, r.value.cell, items);
      }
    }

    lemma EditKeepsOthers(was: State, key: string, c: Cell, items: seq<string>)
      requires Sound(was) && IsKey(key) && was.slots.Keys == family.levels && this in family.levels
      requires family.Now() == Edited(was, c, items) && c in was.texts
      requires (forall l <- family.levels :: l.family == family)
      requires key + MUTABLE in was.slots[this] && was.slots[this][key + MUTABLE] == Ref(c)
      requires Get(was.slots, this, key) == Some(Ref(c))
      ensures family.Valid() && OnlyBelow(was, key) && View(family.Now(), this, key) == Some(Items(items))
    {
      hide IsKey, Text.EndsWith, Find, Under, Get, Separate, Tied, NamesFit;
      forall m, k | m in family.levels && IsKey(k) && (k != key || !Under(m, this, family.levels))
        ensures View(family.Now(), m, k) == View(was, m, k)
      {
        EditStaysBelow(was, this, key, items, m, k);
      }
    }

    ghost predicate Finds(l: Level?, name: string)
      requires family.Valid() && (l == null || l in family.levels)
      reads family, family.levels, family.cells
    {
      l != null && Find(family.Now().slots, l, name).Some?
    }

    /** `dir(cls)`: every attribute name on the chain. */
    method Dir() returns (names: set<string>)
      requires family.Valid() && this in family.levels
      ensures forall n :: n in names <==> Finds(this, n)
    {
      hide Separate, NamesFit, Tied;
      var l: Level? := this;
      names := {};
      while l != null
        invariant l != null ==> l in family.levels
        invariant forall n :: Finds(this, n) <==> n in names || Finds(l, n)
        decreases if l == null then 0 else l.count + 1
      {
        names := names + l.slots.Keys;
        l := l.parent;
      }
    }

    ghost function Showing(v: Value): Seen
      reads if v.Ref? then {v.cell} else {}
    {
      if v.Ref? then Items(v.cell.items) else Plain(v)
    }

    /** No key that can be read has both attribute names, as when a key never changes its kind. */
    ghost predicate OneName(was: State)
      requires Closed(was.slots.Keys) && this in was.slots
    {
      forall k | IsKey(k) && Get(was.slots, this, k).Some? ::
        Find(was.slots, this, k).None? || Find(was.slots, this, k + MUTABLE).None?
    }

    /** Keys that `dir` shows under no name starting with two underscores. */
    static predicate Listable(key: string) { IsKey(key) && !Dunder(key) && !Dunder(key + MUTABLE) }

    /**
     `list(d.iteritems(readonly))`: every key that can be read, with its value, and each once if no key
     that can be read has both attribute names.
     */
    method ListItems(readonly: bool) returns (items: seq<(string, Value)>)
      requires family.Valid() && this in family.levels
      modifies this, family
      ensures family.Valid() && family.levels == old(family.levels) && SameViews(old(family.Now()))
      ensures readonly ==> family.Now() == old(family.Now())
      ensures forall p <- items :: IsKey(p.0) && View(old(family.Now()), this, p.0) == Some(Showing(p.1))
      ensures forall k | Listable(k) && old(Getting(k)).Some? :: exists i :: 0 <= i < |items| && items[i].0 == k
      ensures OneName(old(family.Now())) ==> forall i, j :: 0 <= i < j < |items| ==> items[i].0 != items[j].0
    {
      hide Sound, IsKey, Closed, Text.EndsWith, Find, Get, Under, Dunder, Key, Listable, Listed, View, OneName,
           SameViews,
           See, Family.Valid, Family.Now, Paired;
      ghost var was := family.Now();
      SlotsOf(was);
      var names := Dir();
      items := [];
      ghost var via: seq<string> := [];
      var todo := names;
      ghost var visited: set<string> := {};
      ListedNone(was);
      PairedNone();
      SameViewsNow(was);
      while todo != {}
        invariant family.Valid() && family.levels == old(family.levels) && SameViews(was)
        invariant readonly ==> family.Now() == was
        invariant visited + todo == names && visited !! todo && Listed(was, via, visited)
        invariant Paired(via, items)
        invariant forall p <- items :: IsKey(p.0) && View(was, this, p.0) == Some(Showing(p.1))
        decreases |todo|
      {
        var name :| name in todo;
        ListedMore(was, via, visited, name);
        todo, visited := todo - {name}, visited + {name};
        if !Dunder(name) {
          var key := Key(name);
          FoundNameIsKey(was, name);
          var r := Listing(was, key, readonly);
          if r.Ok? {
            PairedMore(via, items, name, r.value);
            items := items + [(key, r.value)];
            via := via + [name];
          }
        }
      }
      AllListed(was, via, names);
      PairedMeans(via, items);
      forall k | Listable(k) && Get(was.slots, this, k).Some?
        ensures exists i :: 0 <= i < |items| && items[i].0 == k
      {
        var i := FindListed(was, via, names, k);
      }
    }

    /** One read of the iteration, whose generator skips a key that is missing. */
    method Listing(ghost was: State, key: string, readonly: bool) returns (r: Result<Value>)
      requires family.Valid() && this in family.levels && IsKey(key) && SameViews(was)
      requires Closed(was.slots.Keys)
      modifies this, family
      ensures family.Valid() && family.levels == old(family.levels) && SameViews(was)
      ensures readonly ==> family.Now() == old(family.Now())
      ensures r.Ok? ==> View(was, this, key) == Some(Showing(r.value))
      ensures r.Raised? ==> View(was, this, key) == None
    {
      hide Sound, IsKey, Closed, Text.EndsWith, Find, Get, Under;
      r := GetItem(key, None, readonly);
      assert View(family.Now(), this, key) == View(was, this, key);
    }

    /** The names visited so far, and the ones among them that gave an item. */
    ghost predicate Listed(was: State, via: seq<string>, visited: set<string>)
      requires Closed(was.slots.Keys) && this in was.slots
    {
      && (forall n <- via :: n in visited)
      && (forall i, j :: 0 <= i < j < |via| ==> via[i] != via[j])
      && (forall n <- via :: Get(was.slots, this, Key(n)).Some?)
      && (forall n <- visited :: !Dunder(n) && Get(was.slots, this, Key(n)).Some? ==> n in via)
    }

    /** The keys of the items are those of the names in `via`. */
    static ghost predicate Paired(via: seq<string>, items: seq<(string, Value)>) {
      |via| == |items| && forall i :: 0 <= i < |via| ==> items[i].0 == Key(via[i])
    }

    static lemma PairedNone()
      ensures Paired([], [])
    {
    }

    static lemma PairedMore(via: seq<string>, items: seq<(string, Value)>, name: string, v: Value)
      requires Paired(via, items)
      ensures Paired(via + [name], items + [(Key(name), v)])
    {
      hide Key;
    }

    static lemma PairedMeans(via: seq<string>, items: seq<(string, Value)>)
      requires Paired(via, items)
      ensures |via| == |items| && forall i :: 0 <= i < |via| ==> items[i].0 == Key(via[i])
    {
      hide Key;
    }

    lemma SameViewsNow(was: State)
      requires family.Valid() && was == family.Now()
      ensures SameViews(was) && Sound(was)
    {
    }

    lemma ListedNone(was: State)
      requires Closed(was.slots.Keys) && this in was.slots
      ensures Listed(was, [], {})
    {
    }

    lemma ListedMore(was: State, via: seq<string>, visited: set<string>, name: string)
      requires Closed(was.slots.Keys) && this in was.slots && Listed(was, via, visited) && name !in visited
      ensures Dunder(name) || View(was, this, Key(name)).None? ==> Listed(was, via, visited + {name})
      ensures View(was, this, Key(name)).Some? ==> Listed(was, via + [name], visited + {name})
    {
      hide Get, Find, Key, Dunder, Closed;
    }

    lemma AllListed(was: State, via: seq<string>, names: set<string>)
      requires Sound(was) && this in was.slots && Listed(was, via, names)
      requires forall n :: n in names <==> Find(was.slots, this, n).Some?
      ensures OneName(was) ==> forall i, j :: 0 <= i < j < |via| ==> Key(via[i]) != Key(via[j])
    {
      hide Get, Find, Key, Dunder, Tied, Separate, NamesFit, IsKey;
      if OneName(was) {
        forall i, j | 0 <= i < j < |via|
          ensures Key(via[i]) != Key(via[j])
        {
          TwoNames(via[i], via[j]);
          FoundNameIsKey(was, via[i]);
          assert via[i] in via && via[j] in via;
        }
      }
    }

    lemma FindListed(was: State, via: seq<string>, names: set<string>, k: string) returns (i: nat)
      requires Sound(was) && this in was.slots && Listed(was, via, names)
      requires forall n :: n in names <==> Find(was.slots, this, n).Some?
      requires Listable(k) && Get(was.slots, this, k).Some?
      ensures i < |via| && Key(via[i]) == k
    {
      hide Get, Find, Key, Dunder, Tied, Separate, NamesFit, IsKey;
      var name := GotByName(was, k);
      i :| 0 <= i < |via| && via[i] == name;
    }

    lemma FoundNameIsKey(was: State, name: string)
      requires Sound(was) && this in was.slots && Find(was.slots, this, name).Some?
      ensures IsKey(Key(name))
    {
      hide Separate, Tied, IsKey, Key;
      var _ := FoundAt(was.slots, this, name);
    }

    lemma GotByName(was: State, key: string) returns (name: string)
      requires Sound(was) && this in was.slots && IsKey(key) && Get(was.slots, this, key).Some?
      ensures (name == key || name == key + MUTABLE) && Find(was.slots, this, name).Some? && Key(name) == key
    {
      hide Separate, Tied, NamesFit;
      SuffixIsInjective(key, key);
      name := if Find(was.slots, this, key).Some? then key else key + MUTABLE;
    }

    static lemma TwoNames(a: string, b: string)
      ensures a == Key(a) || a == Key(a) + MUTABLE
      ensures a != b && Key(a) == Key(b) ==>
        (a == Key(a) && b == Key(a) + MUTABLE) || (b == Key(a) && a == Key(a) + MUTABLE)
    {
      if Text.EndsWith(a, MUTABLE) { assert a == Key(a) + MUTABLE; }
      if Text.EndsWith(b, MUTABLE) { assert b == Key(b) + MUTABLE; }
    }

    /** The level now holds its own copy, `v`, of the object it read. */
    ghost predicate CopiedHere(was: State, key: string, v: Value)
      reads family, family.levels, family.cells
    {
      && Closed(was.slots.Keys) && this in was.slots && this in was.last
      && v.Ref? && v.cell !in was.texts
      && var o := Get(was.slots, this, key);
      && o.Some? && o.value.Ref? && o.value.cell in was.texts
      && family.Now() == Written(was, this, key, v, was.texts[o.value.cell])
    }

    lemma CopyKeepsViews(was: State, key: string, v: Value)
      requires Sound(was) && IsKey(key) && family.Valid() && this in family.levels && CopiedHere(was, key, v)
      requires Find(was.slots, this, key).None?
      ensures SameViews(was) && Getting(key) == Some(v) && key + MUTABLE in slots && slots[key + MUTABLE] == v
    {
      hide Sound, IsKey, Get, Text.EndsWith, Find, View, Under;
      SlotsOf(family.Now());
      SameLevels(was);
      forall m, k | m in family.levels && IsKey(k)
        ensures View(family.Now(), m, k) == View(was, m, k)
      {
        CopyChangesNoView(was, this, key, v.cell, m, k);
      }
      WriteTakesEffect(was, this, key, v, was.texts[Get(was.slots, this, key).value.cell]);
    }

    lemma SameLevels(was: State)
      requires Sound(was)
      ensures Closed(was.slots.Keys) && was.last.Keys == was.slots.Keys && was.home.Keys == was.texts.Keys
    {
    }

    lemma FindOwn(was: State, name: string)
      requires family.Valid() && this in family.levels && was == family.Now() && name in slots
      ensures Find(was.slots, this, name) == Some(slots[name])
    {
    }

    lemma PlainIsFixed(was: State, key: string)
      requires family.Valid() && this in family.levels && was == family.Now() && IsKey(key)
      ensures Find(was.slots, this, key).Some? ==> !Find(was.slots, this, key).value.Ref?
    {
      hide Tied, Text.EndsWith, Separate;
      FindIsHeld(was.slots, this, key);
    }

    lemma MutableIsRef(was: State, key: string)
      requires family.Valid() && this in family.levels && was == family.Now() && IsKey(key)
      requires Find(was.slots, this, key + MUTABLE).Some?
      ensures Find(was.slots, this, key + MUTABLE).value.Ref?
      ensures Find(was.slots, this, key + MUTABLE).value.cell in family.cells
    {
      hide Tied, Text.EndsWith;
      FindIsHeld(was.slots, this, key);
      var _ := FoundAt(was.slots, this, key + MUTABLE);
    }

    lemma SlotsOf(was: State)
      requires family.Valid() && this in family.levels && was == family.Now()
      ensures this in was.slots && was.slots[this] == slots && this in was.last
      ensures Closed(was.slots.Keys) && was.slots.Keys == family.levels && was.texts.Keys == family.cells
    {
    }
  }

  // ----- the abstract state of all levels -----

  /** What a reader sees: the contents of a mutable value, not which object holds them. */
  datatype Seen = Plain(v: Value) | Items(items: seq<string>)

  /** `last` is the latest write, deletion or copy at each level, by key. */
  datatype State = State(
    slots: map<Level, map<string, Value>>,
    last: map<Level, map<string, Value>>,
    texts: map<Cell, seq<string>>,
    home: map<Cell, (Level, string)>)

  ghost predicate Closed(levels: set<Level>) {
    forall l <- levels :: l.parent != null ==> l.parent in levels && l.parent.count < l.count
  }

  /** `getattr`: the attribute of the nearest class that has it. */
  ghost function Find(slots: map<Level, map<string, Value>>, l: Level, name: string): Option<Value>
    requires Closed(slots.Keys) && l in slots
    decreases l.count
  {
    if name in slots[l] then Some(slots[l][name])
    else if l.parent == null then None
    else Find(slots, l.parent, name)
  }

  /** `__getitem__`: the plain name first, through the whole chain, and only then the mutable one. */
  ghost function Get(slots: map<Level, map<string, Value>>, l: Level, key: string): Option<Value>
    requires Closed(slots.Keys) && l in slots
  {
    var plain := Find(slots, l, key);
    if plain == Some(Deleted) then None
    else if plain.Some? then plain
    else Find(slots, l, key + MUTABLE)
  }

  ghost function See(texts: map<Cell, seq<string>>, v: Value): Seen {
    if v.Ref? && v.cell in texts then Items(texts[v.cell]) else Plain(v)
  }

  ghost function View(st: State, l: Level, key: string): Option<Seen>
    requires Closed(st.slots.Keys) && l in st.slots
  {
    var v := Get(st.slots, l, key);
    if v.None? then None else Some(See(st.texts, v.value))
  }

  /** Level `l` is `a` or a level made from `a`, directly or not. */
  ghost predicate Under(l: Level, a: Level, levels: set<Level>)
    requires Closed(levels) && l in levels
    decreases l.count
  {
    l == a || (l.parent != null && Under(l.parent, a, levels))
  }

  /** The latest write on the chain: the nearest level that wrote the key decides. */
  ghost function Nearest(last: map<Level, map<string, Value>>, l: Level, key: string): Option<Value>
    requires Closed(last.Keys) && l in last
    decreases l.count
  {
    if key in last[l] then Some(last[l][key])
    else if l.parent == null then None
    else Nearest(last, l.parent, key)
  }

  /** A name says what kind of value it holds. */
  ghost predicate NamesFit(slots: map<Level, map<string, Value>>) {
    forall l <- slots.Keys, n <- slots[l].Keys :: (slots[l][n].Ref? <==> Text.EndsWith(n, MUTABLE)) && IsKey(Key(n))
  }

  /** Every object is held in one place only, its home. */
  ghost predicate Separate(slots: map<Level, map<string, Value>>, home: map<Cell, (Level, string)>) {
    forall l <- slots.Keys, n <- slots[l].Keys ::
      slots[l][n].Ref? ==> slots[l][n].cell in home && home[slots[l][n].cell] == (l, n)
  }

  /** The latest write of a key is still stored, and nothing is stored for other keys. */
  ghost predicate Tied(slots: map<string, Value>, last: map<string, Value>) {
    && (forall k <- last.Keys :: IsKey(k) && Stored(k, last[k]) in slots && slots[Stored(k, last[k])] == last[k])
    && (forall k | IsKey(k) && k !in last :: k !in slots && k + MUTABLE !in slots)
  }

  ghost predicate Sound(st: State) {
    && Closed(st.slots.Keys)
    && st.last.Keys == st.slots.Keys
    && NamesFit(st.slots)
    && Separate(st.slots, st.home) && st.home.Keys == st.texts.Keys
    && (forall l <- st.slots.Keys :: Tied(st.slots[l], st.last[l]))
  }

  // ----- what the operations do to it -----

  ghost function Put(slots: map<Level, map<string, Value>>, l: Level, name: string, v: Value)
    : map<Level, map<string, Value>>
    requires l in slots
  {
    slots[l := slots[l][name := v]]
  }

  /** A value is stored at level `l`; `items` are the contents of a mutable one. */
  ghost function Written(st: State, l: Level, key: string, v: Value, items: seq<string>): State
    requires l in st.slots && l in st.last
  {
    State(Put(st.slots, l, Stored(key, v), v), Put(st.last, l, key, v),
          if v.Ref? then st.texts[v.cell := items] else st.texts,
          if v.Ref? then st.home[v.cell := (l, key + MUTABLE)] else st.home)
  }

  /** An object is changed in place. */
  ghost function Edited(st: State, c: Cell, items: seq<string>): State {
    st.(texts := st.texts[c := items])
  }

  /** A new level is based on `l`. */
  ghost function Branched(st: State, c: Level): State {
    st.(slots := st.slots[c := map[]], last := st.last[c := map[]])
  }

  // ----- names -----

  lemma SuffixIsInjective(a: string, b: string)
    ensures a + MUTABLE == b + MUTABLE ==> a == b
    ensures Text.EndsWith(a + MUTABLE, MUTABLE) && Key(a + MUTABLE) == a
  {
    assert (a + MUTABLE)[..|a + MUTABLE| - |MUTABLE|] == a;
    assert (b + MUTABLE)[..|b + MUTABLE| - |MUTABLE|] == b;
  }

  // ----- lookup after a store -----

  lemma {:induction false} PutElsewhere(
      slots: map<Level, map<string, Value>>, l: Level, name: string, v: Value, m: Level, n: string)
    requires Closed(slots.Keys) && l in slots && m in slots
    requires n != name || !Under(m, l, slots.Keys)
    ensures Put(slots, l, name, v).Keys == slots.Keys
    ensures Find(Put(slots, l, name, v), m, n) == Find(slots, m, n)
    decreases m.count
  {
    if n !in slots[m] && m.parent != null {
      PutElsewhere(slots, l, name, v, m.parent, n);
    }
  }

  /** Below `l` a reader finds the new value, unless a nearer level has its own. */
  lemma {:induction false} PutBelow(
      slots: map<Level, map<string, Value>>, l: Level, name: string, v: Value, m: Level)
    requires Closed(slots.Keys) && l in slots && m in slots
    ensures Put(slots, l, name, v).Keys == slots.Keys
    ensures Find(Put(slots, l, name, v), m, name) == Find(slots, m, name)
         || (Find(Put(slots, l, name, v), m, name) == Some(v) && Find(slots, m, name) == Find(slots, l, name))
    decreases m.count
  {
    if m != l && name !in slots[m] && m.parent != null {
      PutBelow(slots, l, name, v, m.parent);
    }
  }

  /** Where a value that is found is stored. */
  lemma {:induction false} FoundAt(slots: map<Level, map<string, Value>>, l: Level, name: string) returns (a: Level)
    requires Closed(slots.Keys) && l in slots && Find(slots, l, name).Some?
    ensures a in slots && Under(l, a, slots.Keys) && name in slots[a] && Some(slots[a][name]) == Find(slots, l, name)
    decreases l.count
  {
    if name in slots[l] {
      a := l;
    } else {
      a := FoundAt(slots, l.parent, name);
    }
  }

  lemma {:induction false} FindIsHeld(slots: map<Level, map<string, Value>>, l: Level, key: string)
    requires Closed(slots.Keys) && l in slots && NamesFit(slots) && IsKey(key)
    ensures Find(slots, l, key).Some? ==> !Find(slots, l, key).value.Ref?
    ensures Find(slots, l, key + MUTABLE).Some? ==> Find(slots, l, key + MUTABLE).value.Ref?
  {
    SuffixIsInjective(key, key);
    if Find(slots, l, key).Some? { var _ := FoundAt(slots, l, key); }
    if Find(slots, l, key + MUTABLE).Some? { var _ := FoundAt(slots, l, key + MUTABLE); }
  }

  // ----- the operations keep the state sound -----

  lemma NamesApart(key: string, k: string)
    requires IsKey(key) && IsKey(k)
    ensures k != key + MUTABLE && key != k + MUTABLE
    ensures k + MUTABLE == key + MUTABLE ==> k == key
  {
    SuffixIsInjective(k, key);
    SuffixIsInjective(key, k);
  }

  lemma WrittenIsTied(slots: map<string, Value>, last: map<string, Value>, key: string, v: Value)
    requires Tied(slots, last) && IsKey(key)
    ensures Tied(slots[Stored(key, v) := v], last[key := v])
  {
    hide Text.EndsWith, IsKey;
    forall k | IsKey(k)
      ensures k != key + MUTABLE && key != k + MUTABLE && (k + MUTABLE == key + MUTABLE ==> k == key)
    {
      NamesApart(key, k);
    }
  }

  lemma WrittenNamesFit(slots: map<Level, map<string, Value>>, l: Level, key: string, v: Value)
    requires NamesFit(slots) && l in slots && IsKey(key)
    ensures NamesFit(Put(slots, l, Stored(key, v), v))
  {
    SuffixIsInjective(key, key);
    hide Text.EndsWith;
  }

  lemma WrittenIsSeparate(
      slots: map<Level, map<string, Value>>, home: map<Cell, (Level, string)>, l: Level, name: string, v: Value)
    requires Separate(slots, home) && l in slots
    requires v.Ref? ==> v.cell !in home
    ensures Separate(Put(slots, l, name, v), if v.Ref? then home[v.cell := (l, name)] else home)
  {
  }

  lemma WrittenIsSound(st: State, l: Level, key: string, v: Value, items: seq<string>)
    requires Sound(st) && l in st.slots && IsKey(key)
    requires v.Ref? ==> v.cell !in st.texts
    ensures Sound(Written(st, l, key, v, items))
  {
    hide Find, Get, View, Under, Nearest, Text.EndsWith, Separate, NamesFit, Tied, IsKey;
    var st' := Written(st, l, key, v, items);
    assert st'.slots.Keys == st.slots.Keys;
    WrittenIsTied(st.slots[l], st.last[l], key, v);
    WrittenNamesFit(st.slots, l, key, v);
    WrittenIsSeparate(st.slots, st.home, l, Stored(key, v), v);
  }

  lemma BranchedIsSeparate(slots: map<Level, map<string, Value>>, c: Level, home: map<Cell, (Level, string)>)
    requires NamesFit(slots) && Separate(slots, home)
    ensures NamesFit(slots[c := map[]]) && Separate(slots[c := map[]], home)
    ensures Tied(map[], map[])
  {
    hide Text.EndsWith;
  }

  lemma BranchedIsSound(st: State, c: Level)
    requires Sound(st) && c !in st.slots
    requires c.parent != null ==> c.parent in st.slots && c.parent.count < c.count
    ensures Sound(Branched(st, c))
  {
    hide Find, Get, View, Under, Nearest, Text.EndsWith, IsKey, Separate, NamesFit, Tied;
    BranchedIsSeparate(st.slots, c, st.home);
  }

  // ----- who can see a change -----

  /** A store reaches only readers of that key at or below the level. */
  lemma WriteStaysBelow(st: State, l: Level, key: string, v: Value, items: seq<string>, m: Level, k: string)
    requires Sound(st) && l in st.slots && m in st.slots && IsKey(key) && IsKey(k)
    requires v.Ref? ==> v.cell !in st.texts
    requires k != key || !Under(m, l, st.slots.Keys)
    ensures Written(st, l, key, v, items).slots.Keys == st.slots.Keys
    ensures View(Written(st, l, key, v, items), m, k) == View(st, m, k)
  {
    hide Tied, Text.EndsWith, IsKey;
    NamesApart(key, k);
    PutElsewhere(st.slots, l, Stored(key, v), v, m, k);
    PutElsewhere(st.slots, l, Stored(key, v), v, m, k + MUTABLE);
    if Find(st.slots, m, k + MUTABLE).Some? { var _ := FoundAt(st.slots, m, k + MUTABLE); }
    FindIsHeld(st.slots, m, k);
  }

  /**
   What the writer itself then reads. An immutable value or a deletion always takes effect; a mutable
   value does so exactly when no level on the chain has an attribute with the plain name, which a
   deletion leaves behind.
   */
  lemma WriteTakesEffect(st: State, l: Level, key: string, v: Value, items: seq<string>)
    requires Sound(st) && l in st.slots && IsKey(key)
    requires v.Ref? ==> v.cell !in st.texts
    ensures Written(st, l, key, v, items).slots.Keys == st.slots.Keys
    ensures !v.Ref? ==> Get(Written(st, l, key, v, items).slots, l, key) == if v.Deleted? then None else Some(v)
    ensures v.Ref? ==> (Get(Written(st, l, key, v, items).slots, l, key) == Some(v) <==> Find(st.slots, l, key).None?)
    ensures v.Ref? && Find(st.slots, l, key).Some?
         ==> Get(Written(st, l, key, v, items).slots, l, key) == Get(st.slots, l, key)
  {
    SuffixIsInjective(key, key);
    if v.Ref? {
      PutElsewhere(st.slots, l, key + MUTABLE, v, l, key);
      FindIsHeld(st.slots, l, key);
    }
  }

  /** A copy made by a read changes what nobody sees. */
  lemma CopyChangesNoView(st: State, l: Level, key: string, c: Cell, m: Level, k: string)
    requires Sound(st) && l in st.slots && m in st.slots && IsKey(key) && IsKey(k)
    requires c !in st.texts && Get(st.slots, l, key).Some? && Get(st.slots, l, key).value.Ref?
    ensures Get(st.slots, l, key).value.cell in st.texts
    ensures var st' := Written(st, l, key, Ref(c), st.texts[Get(st.slots, l, key).value.cell]);
            st'.slots.Keys == st.slots.Keys && View(st', m, k) == View(st, m, k)
  {
    hide Tied, Text.EndsWith;
    FindIsHeld(st.slots, l, key);
    var _ := FoundAt(st.slots, l, key + MUTABLE);
    var items := st.texts[Get(st.slots, l, key).value.cell];
    if k != key {
      WriteStaysBelow(st, l, key, Ref(c), items, m, k);
    } else {
      SuffixIsInjective(key, key);
      FindIsHeld(st.slots, m, key);
      PutElsewhere(st.slots, l, key + MUTABLE, Ref(c), m, key);
      PutBelow(st.slots, l, key + MUTABLE, Ref(c), m);
      if Find(st.slots, m, key + MUTABLE).Some? { var _ := FoundAt(st.slots, m, key + MUTABLE); }
    }
  }

  /** A change in place of an object a level holds reaches only readers of that key at or below the level. */
  lemma EditStaysBelow(st: State, l: Level, key: string, items: seq<string>, m: Level, k: string)
    requires Sound(st) && l in st.slots && m in st.slots && IsKey(key) && IsKey(k)
    requires key + MUTABLE in st.slots[l] && st.slots[l][key + MUTABLE].Ref?
    requires k != key || !Under(m, l, st.slots.Keys)
    ensures View(Edited(st, st.slots[l][key + MUTABLE].cell, items), m, k) == View(st, m, k)
  {
    hide Tied, Text.EndsWith;
    FindIsHeld(st.slots, m, k);
    SuffixIsInjective(k, key);
    var v := Get(st.slots, m, k);
    if v.Some? && v.value.Ref? {
      var a := FoundAt(st.slots, m, k + MUTABLE);
      assert st.slots[a][k + MUTABLE] != st.slots[l][key + MUTABLE];
    }
  }

  /** A new level reads what its parent reads, and the others read what they read before. */
  lemma {:induction false} BranchReadsParent(st: State, c: Level, m: Level, name: string)
    requires Sound(st) && c !in st.slots && m in st.slots
    requires c.parent != null && c.parent in st.slots && c.parent.count < c.count
    ensures Closed(Branched(st, c).slots.Keys)
    ensures Find(Branched(st, c).slots, m, name) == Find(st.slots, m, name)
    ensures Find(Branched(st, c).slots, c, name) == Find(Branched(st, c).slots, c.parent, name)
    decreases m.count
  {
    hide Separate, Tied, NamesFit, Get, View, Under, Nearest;
    if name !in st.slots[m] && m.parent != null {
      BranchReadsParent(st, c, m.parent, name);
    }
  }

  // ----- the nearest write decides, and when it does not -----

  lemma {:induction false} NearestIsStored(st: State, l: Level, key: string)
    requires Sound(st) && l in st.slots && IsKey(key)
    ensures Nearest(st.last, l, key).None? ==> Find(st.slots, l, key).None? && Find(st.slots, l, key + MUTABLE).None?
    ensures Nearest(st.last, l, key).Some?
         ==> Find(st.slots, l, Stored(key, Nearest(st.last, l, key).value)) == Nearest(st.last, l, key)
    decreases l.count
  {
    hide Separate, Get, View, Under, Text.EndsWith, NamesFit;
    assert Tied(st.slots[l], st.last[l]);
    if key !in st.last[l] && l.parent != null {
      NearestIsStored(st, l.parent, key);
    }
  }

  /**
   A level reads the nearest write on its ancestor chain, a deletion reading as a missing key, unless
   that write is a mutable value and some level on the chain has an attribute with the plain name.
   */
  lemma NearestWriteDecides(st: State, l: Level, key: string)
    requires Sound(st) && l in st.slots && IsKey(key)
    ensures var nearest := Nearest(st.last, l, key);
            (Get(st.slots, l, key) == if nearest == Some(Deleted) then None else nearest)
            <==> (nearest.Some? && nearest.value.Ref? ==> Find(st.slots, l, key).None?)
  {
    hide Find, Nearest, Tied, Separate, View, Under, Text.EndsWith, NamesFit;
    NearestIsStored(st, l, key);
    FindIsHeld(st.slots, l, key);
  }

  lemma LastIsNearest(st: State, l: Level, key: string, v: Value, items: seq<string>)
    requires Sound(st) && l in st.slots
    ensures Closed(Written(st, l, key, v, items).last.Keys)
    ensures Nearest(Written(st, l, key, v, items).last, l, key) == Some(v)
  {
    hide Tied, Separate, NamesFit, Find;
    assert Written(st, l, key, v, items).last.Keys == st.last.Keys;
  }

  lemma DeletedIsPlain(st: State, l: Level, key: string)
    requires Sound(st) && l in st.slots
    ensures Closed(Written(st, l, key, Deleted, []).slots.Keys)
    ensures Find(Written(st, l, key, Deleted, []).slots, l, key) == Some(Deleted)
  {
  }

  /** Writing a list, deleting it and writing another one leaves the key missing. */
  lemma RewriteAfterDeleteIsLost(st: State, l: Level, key: string, b: Cell, items: seq<string>)
    requires Sound(st) && l in st.slots && IsKey(key) && b !in st.texts
    ensures var st2 := Written(Written(st, l, key, Deleted, []), l, key, Ref(b), items);
            Sound(st2) && Nearest(st2.last, l, key) == Some(Ref(b)) && Get(st2.slots, l, key) == None
  {
    hide Find, Nearest, Get, View, Under, Text.EndsWith, IsKey, Separate, NamesFit, Tied;
    var st1 := Written(st, l, key, Deleted, []);
    WrittenIsSound(st, l, key, Deleted, []);
    WrittenIsSound(st1, l, key, Ref(b), items);
    WriteTakesEffect(st1, l, key, Ref(b), items);
    WriteTakesEffect(st, l, key, Deleted, []);
    DeletedIsPlain(st, l, key);
    LastIsNearest(st1, l, key, Ref(b), items);
  }

  // ----- a whole run on a copy -----

  datatype Op =
    | SetFixed(key: string, s: string)
    | SetList(key: string, items: seq<string>)
    | Delete(key: string)
    | Read(key: string)
    | Change(key: string, items: seq<string>)

  lemma {:induction false} OldIsNotUnder(old_: set<Level>, levels: set<Level>, c: Level, m: Level)
    requires Closed(old_) && Closed(levels) && old_ <= levels && c !in old_ && m in old_
    ensures !Under(m, c, levels)
    decreases m.count
  {
    if m.parent != null { OldIsNotUnder(old_, levels, c, m.parent); }
  }

  /** Everyone who was there reads what they read before. */
  ghost predicate Untouched(was: State, family: Family)
    reads family, family.levels, family.cells
  {
    && family.Valid() && Closed(was.slots.Keys) && was.slots.Keys <= family.levels
    && forall m, k | m in was.slots && IsKey(k) :: View(family.Now(), m, k) == View(was, m, k)
  }

  lemma StaysUntouched(was: State, mid: State, c: Level, key: string)
    requires Closed(was.slots.Keys) && c !in was.slots && Sound(mid) && was.slots.Keys <= mid.slots.Keys
    requires forall m, k | m in was.slots && IsKey(k) :: View(mid, m, k) == View(was, m, k)
    requires c.family.Valid() && c in c.family.levels && c.OnlyBelow(mid, key)
    ensures Untouched(was, c.family)
  {
    hide Sound, View, IsKey, Closed, Family.Now;
    c.SameLevels(mid);
    c.SlotsOf(c.family.Now());
    forall m, k | m in was.slots && IsKey(k)
      ensures View(c.family.Now(), m, k) == View(was, m, k)
    {
      OldIsNotUnder(was.slots.Keys, mid.slots.Keys, c, m);
    }
  }

  /** No sequence of operations on a copy, lists changed in place included, is seen by any older level. */
  method RunOnCopy(base: Level, ops: seq<Op>) returns (c: Level)
    requires base.family.Valid() && base in base.family.levels
    requires forall op <- ops :: IsKey(op.key)
    modifies base.family, base.family.cells
    ensures fresh(c) && c.parent == base && c.family == base.family && c in c.family.levels
    ensures Untouched(old(base.family.Now()), base.family)
  {
    hide Sound, View, IsKey, Closed, Find, Get, Under, Text.EndsWith;
    ghost var family, was := base.family, base.family.Now();
    base.SlotsOf(was);
    base.SameViewsNow(was);
    c := base.Cow();
    BranchUntouched(was, c);
    for i := 0 to |ops|
      invariant c.family == family && fresh(c) && c in family.levels && c !in was.slots
      invariant Untouched(was, family)
      invariant old(family.cells) <= family.cells && fresh(family.cells - old(family.cells))
    {
      Apply(c, ops[i], was);
    }
  }

  method Apply(c: Level, op: Op, ghost was: State)
    requires Untouched(was, c.family) && c in c.family.levels && c !in was.slots && IsKey(op.key)
    modifies c, c.family, c.family.cells
    ensures Untouched(was, c.family) && c in c.family.levels
    ensures old(c.family.cells) <= c.family.cells && fresh(c.family.cells - old(c.family.cells))
  {
    hide Sound, View, IsKey, Closed, Find, Get, Under, Text.EndsWith, Written;
    ghost var mid := c.family.Now();
    c.SameViewsNow(mid);
    c.SlotsOf(mid);
    match op {
      case SetFixed(key, s) => c.SetItem(key, Fixed(s));
      case SetList(key, items) =>
        var cell := new Cell(items);
        c.SetItem(key, Ref(cell));
      case Delete(key) => c.DelItem(key);
      case Read(key) => var _ := c.GetItem(key, None, false);
      case Change(key, items) => var _ := c.Edit(key, items);
    }
    StaysUntouched(was, mid, c, op.key);
  }

  lemma BranchUntouched(was: State, c: Level)
    requires Sound(was) && c !in was.slots && c.family.Valid() && c.family.Now() == Branched(was, c)
    requires c.parent != null && c.parent in was.slots && c.parent.count < c.count && c in c.family.levels
    ensures Untouched(was, c.family)
  {
    hide Tied, Separate, NamesFit, IsKey, Find;
    c.SlotsOf(c.family.Now());
    forall m, k | m in was.slots && IsKey(k)
      ensures View(c.family.Now(), m, k) == View(was, m, k)
    {
      BranchReadsParent(was, c, m, k);
      BranchReadsParent(was, c, m, k + MUTABLE);
    }
  }
}
