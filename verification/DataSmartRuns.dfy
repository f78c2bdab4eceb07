/** Runs of operations on a store and on copies of it. */
module DataSmartRuns {
  import opened Wrappers
  import opened Text
  import opened OverrideChoice
  import opened DataModel
  import opened StoreUpdates
  import opened DataSmartStore

  /** One operation on a store. */
  datatype Op =
    | Set(v: Name, x: string, parsing: bool)
    | Append(v: Name, x: string)
    | Prepend(v: Name, x: string)
    | Del(v: Name)
    | SetFlag(v: Name, flag: string, x: string)
    | DelFlag(v: Name, flag: string)
    | Rename(v: Name, newkey: Name)
    | Get(v: Name)
    | Iterate

  /** Enough, before the operation, that no `:remove` list lands on an override variant. */
  ghost predicate OpKeepsClean(st: Store, op: Op)
    requires |st.chain| > 0
  {
    match op
    case Set(v, _, _) => KeepsClean(v)
    case Append(v, _) => KeepsClean(DelayedName(v, Keyword.Append))
    case Prepend(v, _) => KeepsClean(DelayedName(v, Keyword.Prepend))
    case Rename(key, newkey) => RenameKeepsClean(st, key, newkey) && key !in Valued(st, key, newkey).over
    case _ => true
  }

  /** A `setVar` of `v` settles on O, dropping no variant, and reads OVERRIDES through R to get there. */
  ghost predicate Settles(st: Store, v: Name, O: seq<string>, p: Parse, R: set<Name>)
    requires |st.chain| > 0
  {
    && v in st.over && ActiveNames(st.over[v], O) == []
    && Stable(Stripped(st, v), O) && EvalsTo(Stripped(st, v), O, Content(OVERRIDES), p, R)
  }

  ghost predicate Harmless(st: Store, O: seq<string>, v: Name, x: string, R: set<Name>)
    requires |st.chain| > 0
  {
    ChoicesStay(st, O, v, x, R) && NotSeen(st, v, x, R)
  }

  ghost predicate Spoils(st: Store, v: Name, x: string)
    requires |st.chain| > 0
  {
    exists O, p, R :: Settles(st, v, O, p, R) && !Harmless(st, O, v, x, R)
  }

  /**
   A `setVar` that first has to compute the overrides, of an untracked variable that OVERRIDES turns out
   to be read through, with a value it did not have.
   */
  ghost predicate Exposed(d: DataSmart, op: Op)
    reads d
  {
    && op.Set? && !op.parsing && ParseName(op.v).None?
    && d.overrides.None? && op.v !in d.overridevars
    && |d.contents.chain| > 0 && Spoils(d.contents, op.v, op.x)
  }

  lemma SettlesUnique(
      st: Store, v: Name, O: seq<string>, p: Parse, R: set<Name>, O': seq<string>, p': Parse, R': set<Name>)
    requires |st.chain| > 0 && Settles(st, v, O, p, R) && Settles(st, v, O', p', R')
    ensures O == O' && p == p' && R == R'
  {
    hide Stable, EvalsTo;
    StableUnique(Stripped(st, v), O, O');
    EvalsToUnique(Stripped(st, v), O, Content(OVERRIDES), p, R, p', R');
  }

  /** What settling on O before the write left behind decides. */
  lemma SpoilsIff(st: Store, v: Name, x: string, O: seq<string>, p: Parse, R: set<Name>)
    requires |st.chain| > 0 && Settles(st, v, O, p, R)
    ensures Spoils(st, v, x) <==> !Harmless(st, O, v, x, R)
  {
    hide Settles, Harmless;
    if Spoils(st, v, x) {
      var O', p', R' :| Settles(st, v, O', p', R') && !Harmless(st, O', v, x, R');
      SettlesUnique(st, v, O, p, R, O', p', R');
    }
  }

  /** An exposed write drops no variant under the list it settles on. */
  lemma SpoilsDropsNothing(st: Store, v: Name, x: string, O: seq<string>)
    requires |st.chain| > 0 && Spoils(st, v, x) && Stable(Stripped(st, v), O)
    ensures v in st.over && ActiveNames(st.over[v], O) == []
  {
    hide Harmless, Stable, EvalsTo;
    var O', p', R' :| Settles(st, v, O', p', R') && !Harmless(st, O', v, x, R');
    StableUnique(Stripped(st, v), O, O');
  }

  /**
   What settling on the overrides left behind tells whether the write did harm: the keys of the variants are
   single parts, and OVERRIDES was not read through `v` with the value already.
   */
  ghost predicate Decided(d: DataSmart, was: Store, v: Name, x: string)
    requires |was.chain| > 0
    reads d
  {
    d.overrides.Some? && Content(OVERRIDES) in d.seen ==>
      var R := d.seen[Content(OVERRIDES)];
      && SingleParts(d.contents, d.overrides.value, R)
      && (v !in R || LocalFlag(Stripped(was, v), Content(v)) != Some(x))
  }

  /** `setVar`: without a colon in the name, the memo table stays coherent exactly if the write is not exposed. */
  method SetOne(d: DataSmart, v: Name, x: string, parsing: bool) returns (ok: bool)
    requires d.Valid() && !d.inoverride
    modifies d, d.Owned()
    ensures d.Valid() && (ok ==> !d.inoverride) && (old(d.WillSet(v, parsing)) ==> ok)
    ensures ok && old(Clean(d.contents)) && KeepsClean(v) ==> Clean(d.contents)
    ensures ok && old(Clean(d.contents)) && Clean(d.contents) && !old(Exposed(d, Set(v, x, parsing))) ==> d.Coherent()
    ensures ok && old(Clean(d.contents)) && ':' !in v ==> (d.Coherent() <==> !old(Exposed(d, Set(v, x, parsing))))
    ensures |old(d.contents).chain| > 0
    ensures ok && old(Clean(d.contents)) && ParseName(v).None? && Decided(d, old(d.contents), v, x) ==>
      (d.Coherent() <==> !old(Exposed(d, Set(v, x, parsing))))
    ensures d.shared == old(d.shared) && fresh(d.Owned() - old(d.Owned()))
    ensures old(d.repr) <= d.repr && fresh(d.repr - old(d.repr))
  {
    hide DataSmart.Shape, Clean, Find, Stable, Stripped, ChoicesStay, NotSeen, SetVarResult, Places, ParseName, Spoils,
         ActiveNames,
         EvalsTo, OldSyntax;
    d.Levels();
    ghost var st := d.contents;
    var r, O := d.SetVar(v, x, parsing);
    ok := r.Ok?;
    if ':' !in v { ColonFreeName(v); }
    if ok && Clean(st) && old(Exposed(d, Set(v, x, parsing))) {
      SpoilsOver(st, v, x);
      SpoilsDropsNothing(st, v, x, O);
    }
    if ok && Clean(st) && old(d.Seeds(v, parsing, O)) {
      ghost var p, R := d.expandCache[Content(OVERRIDES)], d.seen[Content(OVERRIDES)];
      assert EvalsTo(Stripped(st, v), O, Content(OVERRIDES), p, R);
      SpoilsIff(st, v, x, O, p, R);
      PlainResult(st, O, v, x);
      if Decided(d, st, v, x) { AfterSeedIff(st, O, v, x, d.expandCache, d.seen); }
      if ':' !in v { ColonFreeChoicesStay(st, O, v, x, R); }
    }
  }

  /** Last write wins on the heap too: what `setVar` wrote is what `getVar(v, False)` gives, stale memos or not. */
  method WriteThenRead(d: DataSmart, v: Name, x: string, depth: nat)
    returns (r: Result<()>, val: Result<Option<string>>)
    requires d.Valid() && !d.inoverride && ParseName(v).None?
    modifies d, d.Owned()
    ensures r.Ok? ==> d.Valid() && val == Ok(Some(x))
  {
    hide DataSmart.Shape, Clean, Find, Stable, Stripped, ChoicesStay, NotSeen, Places, ParseName, ActiveNames, EvalsTo,
         OldSyntax, HasNoLists, LocalFlag, Assigned, CacheOk, Seeded, NotOwnVariant;
    d.Levels();
    ghost var st := d.contents;
    ghost var O;
    val := Raised;
    r, O := d.SetVar(v, x, false);
    if r.Ok? {
      LastWriteWins(st, O, v, x, O, 0);
      val := d.GetVarUnexpanded(v, depth);
    }
  }

  lemma SpoilsOver(st: Store, v: Name, x: string)
    requires |st.chain| > 0 && Spoils(st, v, x)
    ensures v in st.over
  {
    hide Harmless, Stable, EvalsTo;
  }

  /** Enough, before the operation, that it raises nothing. */
  ghost predicate Able(d: DataSmart, op: Op)
    reads d
  {
    match op
    case Set(v, _, parsing) => d.WillSet(v, parsing)
    case Append(v, _) => d.WillSet(DelayedName(v, Keyword.Append), true)
    case Prepend(v, _) => d.WillSet(DelayedName(v, Keyword.Prepend), true)
    case Rename(key, newkey) => |d.contents.chain| > 0 && RenameGoes(d.contents, key, newkey, d.limit, d.overridevars)
    case SetFlag(v, flag, _) => flag != DEFAULT || v !in d.overridevars
    case Get(v) =>
      Content(v) in d.expandCache ||
      (d.Coherent() && d.Goal().Some? && Eval(d.contents, d.Goal().value, Content(v), d.limit).Done?)
    case Iterate => d.overrides.Some? || (d.Coherent() && d.Goal().Some?)
    case _ => true
  }

  method Apply(d: DataSmart, op: Op) returns (ok: bool)
    requires d.Valid() && !d.inoverride
    modifies d, d.Owned()
    ensures d.Valid() && |old(d.contents).chain| > 0 && (ok ==> !d.inoverride) && (old(Able(d, op)) ==> ok)
    ensures ok && old(d.Coherent()) && !old(Exposed(d, op)) && Clean(d.contents) ==> d.Coherent()
    ensures ok && old(Clean(d.contents)) && op.Set? && ':' !in op.v ==> (d.Coherent() <==> !old(Exposed(d, op)))
    ensures ok && old(Clean(d.contents)) && OpKeepsClean(old(d.contents), op) ==> Clean(d.contents)
    ensures d.shared == old(d.shared) && fresh(d.Owned() - old(d.Owned()))
    ensures old(d.repr) <= d.repr && fresh(d.repr - old(d.repr))
  {
    hide DataSmart.Shape, Clean, Find, CacheOk, Seeded, Stable, Settled, Stripped, Spoils, SetVarResult, Delayed,
         Flagged, Unflagged,
         RenamedUpTo, Valued, Places, ParseName, KeepsClean, RenameKeepsClean, RenameGoes, Eval, DataSmart.WillSet;
    d.Levels();
    ghost var st := d.contents;
    match op {
      case Set(v, x, parsing) =>
        ok := SetOne(d, v, x, parsing);
      case Append(v, x) =>
        var r := d.AppendVar(v, x);
        ok := r.Ok?;
      case Prepend(v, x) =>
        var r := d.PrependVar(v, x);
        ok := r.Ok?;
      case Del(v) =>
        d.DelVar(v);
        ok := true;
      case SetFlag(v, flag, x) =>
        var r := d.SetVarFlag(v, flag, x);
        ok := r.Ok?;
      case DelFlag(v, flag) =>
        d.DelVarFlag(v, flag);
        if Clean(d.contents) { d.CoherentWhenEmpty(); }
        ok := true;
      case Rename(key, newkey) =>
        var r := d.RenameVar(key, newkey, d.limit);
        ok := r.Ok?;
        if ok && Clean(st) && OpKeepsClean(st, op) { RenamedClean(st, key, newkey, d.limit); }
      case Get(v) =>
        var r, _ := d.GetVarFlag(Content(v), d.limit);
        ok := r.Ok?;
      case Iterate =>
        var r := d.Keys();
        ok := r.Ok?;
    }
  }

  /**
   Copy isolation: no sequence of operations on a copy, whatever their names and values, changes a field of
   the store it was copied from, or of any dictionary or list that this store reaches. The run goes on
   after an operation that raises, unless it raised while computing the overrides.
   */
  method RunOnCopy(orig: DataSmart, copy: DataSmart, ops: seq<Op>) returns (n: nat)
    requires orig.Valid() && copy.Valid() && !copy.inoverride && orig != copy && orig.repr <= copy.shared
    requires copy !in orig.repr
    modifies copy, copy.Owned()
    ensures unchanged(orig) && unchanged(orig.repr) && orig.Valid() && copy.Valid()
    ensures n <= |ops| && (n == |ops| || copy.inoverride)
  {
    hide DataSmart.Shape, Clean;
    n := 0;
    while n < |ops| && !copy.inoverride
      invariant n <= |ops| && copy.Valid()
      invariant copy.shared == old(copy.shared) && fresh(copy.Owned() - old(copy.Owned()))
      invariant unchanged(orig) && unchanged(orig.repr)
    {
      copy.OwnedApart();
      var ok := Apply(copy, ops[n]);
      n := n + 1;
    }
  }

  /**
   Memoised lookup refines plain evaluation over whole runs: after any operations, none of them exposed when
   it ran and none leaving a `:remove` on a variant, every memo equals the value recomputed from the store.
   */
  method Run(d: DataSmart, ops: seq<Op>) returns (ok: bool, ghost safe: bool)
    requires d.Valid() && !d.inoverride && d.Coherent()
    modifies d, d.Owned()
    ensures d.Valid() && (ok ==> !d.inoverride)
    ensures ok && safe ==> d.Coherent()
  {
    hide DataSmart.Shape, Clean, CacheOk, Exposed;
    ok, safe := true, true;
    var i := 0;
    while i < |ops| && ok
      invariant 0 <= i <= |ops| && d.Valid() && (ok ==> !d.inoverride)
      invariant ok && safe ==> d.Coherent()
      invariant fresh(d.Owned() - old(d.Owned()))
    {
      safe := safe && !Exposed(d, ops[i]);
      ok := Apply(d, ops[i]);
      safe := safe && Clean(d.contents);
      i := i + 1;
    }
  }

  // ----- the exposed case fails -----

  function Plain(text: string): VarData { VarData(map[CONTENT := text], map[]) }

  /** OVERRIDES is `${A}`, A is `${B}`, B is `x` and has a variant `B:foo`. */
  const EXAMPLE := Store(
    [map["OVERRIDES" := Plain("${A}"), "A" := Plain("${B}"), "B" := Plain("x"), "B:foo" := Plain("y")]],
    map["B" := [Entry("B:foo", "foo")]])

  lemma EvalsPlain(st: Store, O: seq<string>, v: Name, text: string)
    requires Find(st.chain, v) == Some(Plain(text)) && Selected(st, O, v).None? && !HasMark(text)
    ensures EvalsTo(st, O, Content(v), Parse(Some(text), Some(text)), {v})
  {
    hide Find, Selected, HasMark, Choose, EvalsTo, DropWords;
    assert Assembled(st, O, v, None) == Some(text);
    RawsLocal(st, O, v);
    ExpandsPlain(st, O, v, text);
    BadWordsNil(st, O);
    DropNoWords(text);
    assert TrimsTo(st, O, v, Some(text), Some(text), {});
    EvalsContent(st, O, v, Some(text), {v}, Some(text), {}, Some(text), {});
    assert {v} + {v} + {} + {} == {v};
  }

  lemma EvalsReference(st: Store, O: seq<string>, v: Name, k: Name, text: string, x: string, p: Parse, R: set<Name>)
    requires Find(st.chain, v) == Some(Plain(text)) && v !in st.over && v != k
    requires HasMark(text) && Tokens(text) == [Ref(k)] && x != text
    requires EvalsTo(st, O, Content(k), p, R) && p.value == Some(x) && !HasMark(x)
    ensures EvalsTo(st, O, Content(v), Parse(Some(text), Some(x)), {v} + R)
  {
    hide Find, HasMark, EvalsTo, DropWords, Tokens;
    assert Assembled(st, O, v, None) == Some(text);
    RawsLocal(st, O, v);
    var ts := [Ref(k)];
    assert ts[1..] == [];
    SubsNil(st, O, v);
    SubsRef(st, O, v, ts, p, R, "", {});
    assert x + "" == x && R + {} == R;
    ExpandsPlain(st, O, v, x);
    ExpandsRound(st, O, v, text, x, R, x, {});
    BadWordsNil(st, O);
    DropNoWords(x);
    assert TrimsTo(st, O, v, Some(x), Some(x), {});
    EvalsContent(st, O, v, Some(text), {v}, Some(x), R, Some(x), {});
    assert {v} + {v} + R + {} == {v} + R;
  }

  lemma ExampleTexts()
    ensures Tokens("${A}") == [Ref("A")] && Tokens("${B}") == [Ref("B")]
    ensures HasMark("${A}") && HasMark("${B}") && !HasMark("x") && !HasMark("z")
    ensures Split("x", ':') == ["x"]
  {
    assert NameRun("A}") == 1 by { assert "A}"[1..] == "}"; }
    assert NameRun("B}") == 1 by { assert "B}"[1..] == "}"; }
    assert "${A}"[2..] == "A}" && "${A}"[..2] == "${" && "${B}"[2..] == "B}" && "${B}"[..2] == "${";
    assert RefLength("${A}") == 4 && RefLength("${B}") == 4;
    assert "${A}"[2..3] == "A" && "${B}"[2..3] == "B";
    assert "${A}"[4..] == "" && "${B}"[4..] == "";
    assert "x"[1..] == "" && "z"[1..] == "";
  }

  /** No active key, no choice. */
  lemma NothingChosen(O: seq<string>)
    requires "foo" !in O
    ensures Choose([Entry("B:foo", "foo")], O) == None && ActiveNames([Entry("B:foo", "foo")], O) == []
  {
    var es := [Entry("B:foo", "foo")];
    assert es[..0] == [] && es[0].key == "foo" && ':' !in "foo";
    RightmostOverrideWins(es, O);
  }

  lemma ExampleValues(st: Store, O: seq<string>, b: string)
    requires st.over == map["B" := [Entry("B:foo", "foo")]] || st.over == map[]
    requires Find(st.chain, "OVERRIDES") == Some(Plain("${A}")) && Find(st.chain, "A") == Some(Plain("${B}"))
    requires Find(st.chain, "B") == Some(Plain(b)) && !HasMark(b) && b != "${A}" && b != "${B}" && "foo" !in O
    ensures EvalsTo(st, O, Content("B"), Parse(Some(b), Some(b)), {"B"})
    ensures EvalsTo(st, O, Content("OVERRIDES"), Parse(Some("${A}"), Some(b)), {"OVERRIDES", "A", "B"})
  {
    hide Find, HasMark, EvalsTo, Tokens, Choose;
    ExampleTexts();
    NothingChosen(O);
    EvalsPlain(st, O, "B", b);
    EvalsReference(st, O, "A", "B", "${B}", b, Parse(Some(b), Some(b)), {"B"});
    EvalsReference(st, O, "OVERRIDES", "A", "${A}", b, Parse(Some("${B}"), Some(b)), {"A"} + {"B"});
    assert {"OVERRIDES"} + ({"A"} + {"B"}) == {"OVERRIDES", "A", "B"};
  }

  /** In the example, with B about to be set, OVERRIDES settles on `x` and is read through B on the way. */
  lemma ExampleSettles()
    ensures Settles(EXAMPLE, "B", ["x"], Parse(Some("${A}"), Some("x")), {"OVERRIDES", "A", "B"})
    ensures exists depth: nat :: SettlesFrom(Stripped(EXAMPLE, "B"), depth)
  {
    hide HasMark, EvalsTo, Tokens, Choose;
    ExampleTexts();
    NothingChosen(["x"]);
    var st := Stripped(EXAMPLE, "B");
    assert Current(EXAMPLE, "B").(lists := map[]) == Plain("x");
    ExampleValues(st, [], "x");
    ExampleValues(st, ["x"], "x");
    assert Next(st, [], ["x"]) && Next(st, ["x"], ["x"]);
    assert Round(st, 0, ["x"]);
    SettlesDeepEnough(st, ["x"], Parse(Some("${A}"), Some("x")), {"OVERRIDES", "A", "B"});
  }

  ghost predicate SettlesFrom(st: Store, depth: nat) {
    forall limit: nat :: limit >= depth ==> Settled(st, limit).Some?
  }

  lemma SettlesDeepEnough(st: Store, O: seq<string>, p: Parse, R: set<Name>)
    requires EvalsTo(st, [], Content(OVERRIDES), p, R) && EvalsTo(st, O, Content(OVERRIDES), p, R)
    requires O == OverrideList(p.value)
    ensures exists depth: nat :: SettlesFrom(st, depth)
  {
    hide Eval;
    var f: nat :| Eval(st, [], Content(OVERRIDES), f) == Done(p, R);
    var g: nat :| Eval(st, O, Content(OVERRIDES), g) == Done(p, R);
    forall limit: nat | limit >= f + g ensures Settled(st, limit).Some? {
      EvalUpTo(st, [], Content(OVERRIDES), f, limit);
      EvalUpTo(st, O, Content(OVERRIDES), g, limit);
      assert NextAt(st, [], limit) == Some(O) && NextAt(st, O, limit) == Some(O);
    }
    assert SettlesFrom(st, f + g);
  }

  // ----- building the example -----

  lemma {:induction false} ShortHasNo(s: string, pat: string)
    requires |s| < |pat|
    ensures !Contains(s, pat)
  {
    if s != "" { ShortHasNo(s[1..], pat); }
  }

  lemma {:induction false} ShortIsPlain(s: string)
    requires |s| < 7
    ensures ParseName(s).None? && !OldSyntax(s)
  {
    ShortHasNo(s, "_append");
    ShortHasNo(s, "_prepend");
    ShortHasNo(s, "_remove");
    if s != "" { ShortIsPlain(s[1..]); }
  }

  lemma NewFlag(m: VarMap, over: map<Name, seq<Entry>>, v: Name, x: string)
    requires v !in m
    ensures Flagged(Store([m], over), v, CONTENT, x) == Store([m[v := Plain(x)]], over)
  {
    assert Find([m][1..], v) == None;
    assert NODATA.text[CONTENT := x] == map[CONTENT := x];
    assert [m[v := Plain(x)]] + [m][1..] == [m[v := Plain(x)]];
  }

  lemma NewVariant(m: VarMap, x: string)
    requires "B:foo" !in m
    ensures Written(Store([m], map[]), "B:foo", x)
         == Store([m["B:foo" := Plain(x)]], map["B" := [Entry("B:foo", "foo")]])
  {
    assert Find([m][1..], "B:foo") == None;
    assert [m["B:foo" := Plain(x)]] + [m][1..] == [m["B:foo" := Plain(x)]];
    var v := "B:foo";
    assert v[1] == ':' && RFind(v, ':') == 1;
    assert v[2..] == "foo" && Before(v, 1) == "B" && !(':' in "B");
    assert Places(v) == [Place("B", "foo")];
    var ps := [Place("B", "foo")];
    assert ps[1..] == [];
    assert AddEntries(map[], v, ps) == AddEntry(map[], v, ps[0]);
    assert [] + [Entry(v, "foo")] == [Entry(v, "foo")];
    assert NODATA.text[CONTENT := x] == map[CONTENT := x];
  }

  /** The example as a store on the heap, built by plain writes. */
  method BuildExample(limit: nat) returns (d: DataSmart)
    ensures fresh(d) && fresh(d.Owned()) && d.Valid() && !d.inoverride && d.limit == limit
    ensures d.contents == EXAMPLE && d.overrides.None? && "B" !in d.overridevars
  {
    hide DataSmart.Shape, Clean, Find, Flagged, Written, Places, ParseName, OldSyntax, CacheOk;
    d := new DataSmart(limit);
    d.OwnedApart();
    var r1 := d.SetVarFlag("OVERRIDES", CONTENT, "${A}");
    NewFlag(map[], map[], "OVERRIDES", "${A}");
    var r2 := d.SetVarFlag("A", CONTENT, "${B}");
    NewFlag(map["OVERRIDES" := Plain("${A}")], map[], "A", "${B}");
    var r3 := d.SetVarFlag("B", CONTENT, "x");
    NewFlag(map["OVERRIDES" := Plain("${A}"), "A" := Plain("${B}")], map[], "B", "x");
    ShortIsPlain("B:foo");
    var r4, _ := d.SetVar("B:foo", "y", true);
    NewVariant(map["OVERRIDES" := Plain("${A}"), "A" := Plain("${B}"), "B" := Plain("x")], "y");
  }

  /**
   A stale memo, in a store built from nothing. Setting B to `z` settles on the overrides first and keeps
   the memos of doing so, because no variant of B is active; B is one of them, and its memo is the old
   `x`. The write succeeds at every recursion limit that lets the overrides settle, and there is one.
   */
  method ExposedWriteGoesStale(limit: nat) returns (d: DataSmart, ok: bool)
    ensures Settled(Stripped(EXAMPLE, "B"), limit).Some? ==> ok
    ensures ok ==> d.Valid() && d.contents == Assigned(EXAMPLE, ["x"], "B", "z") && !d.Coherent()
    ensures ok ==> Content("B") in d.expandCache && d.expandCache[Content("B")].value == Some("x")
    ensures ok ==> Raw(d.contents, ["x"], "B", 0) == Done(Some("z"), {"B"})
  {
    hide DataSmart.Shape, Clean, Find, Places, ParseName, OldSyntax, EvalsTo, Stable, Settled, Stripped, Assigned,
         NotSeen, ChoicesStay, ActiveNames, Raw;
    d := BuildExample(limit);
    ShortIsPlain("B");
    ExampleSettles();
    d.Levels();
    ExampleClean();
    assert d.Settling("B") <== Settled(Stripped(EXAMPLE, "B"), limit).Some?;
    var r, O := d.SetVar("B", "z", false);
    ok := r.Ok?;
    if ok {
      StableUnique(Stripped(EXAMPLE, "B"), O, ["x"]);
      StaleMemo(O, d.expandCache, d.seen);
      LastWriteWins(EXAMPLE, ["x"], "B", "z", ["x"], 0);
    }
  }

  /** What the write finds: the memos of settling, B among them. */
  lemma StaleMemo(O: seq<string>, cache: map<Key, Parse>, seen: map<Key, set<Name>>)
    requires Stable(Stripped(EXAMPLE, "B"), O) && CacheOk(Stripped(EXAMPLE, "B"), Some(O), cache, seen)
    requires Seeded(cache, seen)
    ensures O == ["x"] && "B" in seen[Content(OVERRIDES)] && Content("B") in cache
    ensures cache[Content("B")].value == Some("x")
    ensures !CacheOk(Assigned(EXAMPLE, O, "B", "z"), Some(O), cache, seen)
  {
    hide HasMark, EvalsTo, Tokens, Choose, Stable, Assigned, ClosedCache, Clean;
    var st := Stripped(EXAMPLE, "B");
    ExampleSettles();
    StableUnique(st, O, ["x"]);
    ExampleTexts();
    NothingChosen(O);
    ExampleValues(st, O, "x");
    assert Within(Some(O), O);
    EvalsToUnique(st, O, Content(OVERRIDES), cache[Content(OVERRIDES)], seen[Content(OVERRIDES)],
      Parse(Some("${A}"), Some("x")), {"OVERRIDES", "A", "B"});
    SeededNames(st, O, cache, seen, "B");
    EvalsToUnique(st, O, Content("B"), cache[Content("B")], seen[Content("B")], Parse(Some("x"), Some("x")), {"B"});
    ExampleClean();
    ColonFreeChoicesStay(EXAMPLE, O, "B", "z", seen[Content(OVERRIDES)]);
    AfterSeed(EXAMPLE, O, "B", "z", cache, seen);
    assert LocalFlag(st, Content("B")) == Some("x");
  }

  lemma ExampleClean()
    ensures Clean(EXAMPLE)
  {
    var v := "B:foo";
    assert v[1] == ':' && RFind(v, ':') == 1 && v[2..] == "foo";
  }
}
