/**
 What a `DataSmart` store means: a chain of dictionaries and an override index, evaluated
 without any cache. Every evaluation also reports the set of variables it read.
 */
module DataModel {
  import opened Wrappers
  import opened Text
  import opened OverrideChoice

  type Name = string

  /** The three delayed operations `:append`, `:prepend` and `:remove`. */
  datatype Keyword = Append | Prepend | Remove

  /** One delayed operation `[value, override]`; no override is "". */
  datatype Item = Item(text: string, cond: string)

  /** The flag dictionary of one variable: its text flags and its delayed operations. */
  datatype VarData = VarData(text: map<string, string>, lists: map<Keyword, seq<Item>>)
  {
    /** An empty dictionary, the mark of a deletion. */
    predicate Empty() { text == map[] && lists == map[] }

    function Flag(flag: string): Option<string> {
      if flag in text then Some(text[flag]) else None
    }

    function ListOf(k: Keyword): seq<Item> {
      if k in lists then lists[k] else []
    }
  }

  const CONTENT := "_content"
  const DEFAULT := "_defaultval"
  const OVERRIDES := "OVERRIDES"

  type VarMap = map<Name, VarData>

  /** `chain[0]` is the store's own dictionary, the others are reached through `_data`. */
  datatype Store = Store(chain: seq<VarMap>, over: map<Name, seq<Entry>>)

  /** The content flag has no cache name of its own. */
  type FlagName = flag: string | flag != "_content" witness ""

  /** A cache name: a variable or one of its other flags. */
  datatype Key = Content(v: Name) | Flag(v: Name, flag: FlagName)
  {
    function Text(): string {
      match this
      case Content(v) => v
      case Flag(v, flag) => v + "[" + flag + "]"
    }
  }

  /** The part of a `VariableParse` that lookups use. */
  datatype Parse = Parse(unexpanded: Option<string>, value: Option<string>)

  /** `_findVar` */
  function Find(chain: seq<VarMap>, v: Name): Option<VarData> {
    if |chain| == 0 then None
    else if v in chain[0] then Some(chain[0][v])
    else Find(chain[1..], v)
  }

  function Selected(st: Store, O: seq<string>, v: Name): Option<Name> {
    if v in st.over then Choose(st.over[v], O) else None
  }

  function LocalFlag(st: Store, k: Key): Option<string> {
    var d := Find(st.chain, k.v);
    if d.None? then None else
      match k
      case Flag(_, flag) => d.value.Flag(flag)
      case Content(_) => if CONTENT in d.value.text then d.value.Flag(CONTENT) else d.value.Flag(DEFAULT)
  }

  function ListOf(st: Store, v: Name, k: Keyword): seq<Item> {
    var d := Find(st.chain, v);
    if d.None? then [] else d.value.ListOf(k)
  }

  /** The variable has a dictionary, with no delayed operation in it. */
  predicate HasNoLists(st: Store, v: Name) {
    Find(st.chain, v).Some? && Find(st.chain, v).value.lists == map[]
  }

  predicate Applies(it: Item, O: seq<string>) {
    it.cond == "" || forall p :: p in Split(it.cond, ':') ==> p in O
  }

  /** The `:append` loop. */
  function Appended(items: seq<Item>, O: seq<string>, value: Option<string>): Option<string> {
    if |items| == 0 then value
    else
      var so := Appended(items[..|items| - 1], O, value);
      var it := items[|items| - 1];
      if Applies(it, O) then Some(so.GetOr("") + it.text) else so
  }

  /** The `:prepend` loop. */
  function Prepended(items: seq<Item>, O: seq<string>, value: Option<string>): Option<string> {
    if |items| == 0 then value
    else
      var so := Prepended(items[..|items| - 1], O, value);
      var it := items[|items| - 1];
      if Applies(it, O) then Some(it.text + so.GetOr("")) else so
  }

  /** Base value, then appends, then prepends. */
  function Assembled(st: Store, O: seq<string>, v: Name, chosen: Option<string>): Option<string> {
    var base := if chosen.None? then LocalFlag(st, Content(v)) else chosen;
    Prepended(ListOf(st, v, Prepend), O, Appended(ListOf(st, v, Append), O, base))
  }

  // ----- the evaluator -----

  /** A value with the variables read for it, or the exception that ended the evaluation. */
  datatype Out<+T> = Done(val: T, seen: set<Name>) | Stuck

  function HasMark(s: string): bool { Contains(s, "${") }

  /**
   `getVarFlag` without a cache, for the list O of overrides. `fuel` bounds the nesting
   of lookups and substitution rounds, as the recursion limit does.
   */
  ghost function Eval(st: Store, O: seq<string>, k: Key, fuel: nat): Out<Parse>
    decreases fuel, 0, 0
  {
    if fuel == 0 then Stuck else
      match k
      case Flag(v, _) =>
        (match ExpandOpt(st, O, k.Text(), LocalFlag(st, k), fuel - 1)
         case Stuck => Stuck
         case Done(value, R) => Done(Parse(LocalFlag(st, k), value), {v} + R))
      case Content(v) =>
        match Raw(st, O, v, fuel - 1)
        case Stuck => Stuck
        case Done(raw, R0) =>
          match ExpandOpt(st, O, v, raw, fuel - 1)
          case Stuck => Stuck
          case Done(full, R1) =>
            match Trim(st, O, v, full, fuel - 1)
            case Stuck => Stuck
            case Done(value, R2) => Done(Parse(raw, value), {v} + R0 + R1 + R2)
  }

  /** The value before expansion. */
  ghost function Raw(st: Store, O: seq<string>, v: Name, fuel: nat): Out<Option<string>>
    decreases fuel, 1, 0
  {
    match Selected(st, O, v)
    case None => Done(Assembled(st, O, v, None), {v})
    case Some(m) =>
      match Eval(st, O, Content(m), fuel)
      case Stuck => Stuck
      case Done(p, R) => Done(Assembled(st, O, v, p.unexpanded), {v} + R)
  }

  ghost function ExpandOpt(st: Store, O: seq<string>, who: string, s: Option<string>, fuel: nat): Out<Option<string>>
    decreases fuel, 3, 0
  {
    if s.None? then Done(None, {}) else
      match Expand(st, O, who, s.value, fuel)
      case Stuck => Stuck
      case Done(r, R) => Done(Some(r), R)
  }

  /** `expandWithRefs`: rounds of substitution until the text has no mark or stays the same. */
  ghost function Expand(st: Store, O: seq<string>, who: string, s: string, fuel: nat): Out<string>
    decreases fuel, 2, 0
  {
    if !HasMark(s) then Done(s, {})
    else if fuel == 0 then Stuck
    else
      match Sub(st, O, who, Tokens(s), fuel - 1)
      case Stuck => Stuck
      case Done(s', R) =>
        if s' == s then Done(s, R) else
          match Expand(st, O, who, s', fuel - 1)
          case Stuck => Stuck
          case Done(r, R') => Done(r, R + R')
  }

  /** One round: every reference is looked up; a reference to `who` itself is an error. */
  ghost function Sub(st: Store, O: seq<string>, who: string, ts: seq<Token>, fuel: nat): Out<string>
    decreases fuel, 1, |ts|
  {
    if |ts| == 0 then Done("", {}) else
      match ts[0]
      case Lit(c) =>
        (match Sub(st, O, who, ts[1..], fuel)
         case Stuck => Stuck
         case Done(r, R) => Done([c] + r, R))
      case Ref(k) =>
        if k == who then Stuck else
          match Eval(st, O, Content(k), fuel)
          case Stuck => Stuck
          case Done(p, R0) =>
            match Sub(st, O, who, ts[1..], fuel)
            case Stuck => Stuck
            case Done(r, R) => Done(p.value.GetOr(Spelled(ts[0])) + r, R0 + R)
  }

  /** The words that the active `:remove` items expand to. */
  ghost function BadWords(st: Store, O: seq<string>, items: seq<Item>, fuel: nat): Out<set<string>>
    decreases fuel, 3, |items|
  {
    if |items| == 0 then Done({}, {}) else
      match BadWords(st, O, items[..|items| - 1], fuel)
      case Stuck => Stuck
      case Done(ws, R) =>
        var it := items[|items| - 1];
        if !Applies(it, O) then Done(ws, R) else
          match Expand(st, O, "", it.text, fuel)
          case Stuck => Stuck
          case Done(r, R') => Done(ws + Words(r), R + R')
  }

  ghost function Trim(st: Store, O: seq<string>, v: Name, value: Option<string>, fuel: nat): Out<Option<string>>
    decreases fuel, 4, 0
  {
    if value == None || value == Some("") then Done(value, {}) else
      match BadWords(st, O, ListOf(st, v, Remove), fuel)
      case Stuck => Stuck
      case Done(bad, R) => Done(Some(DropWords(value.value, bad)), R)
  }

  // ----- more fuel never changes an answer -----

  lemma {:induction false} EvalMono(st: Store, O: seq<string>, k: Key, fuel: nat)
    requires Eval(st, O, k, fuel).Done?
    ensures Eval(st, O, k, fuel + 1) == Eval(st, O, k, fuel)
    decreases fuel, 0, 0
  {
    hide Raw, ExpandOpt, Trim;
    match k
    case Flag(v, _) => ExpandOptMono(st, O, k.Text(), LocalFlag(st, k), fuel - 1);
    case Content(v) =>
      RawMono(st, O, v, fuel - 1);
      var raw := Raw(st, O, v, fuel - 1).val;
      ExpandOptMono(st, O, v, raw, fuel - 1);
      TrimMono(st, O, v, ExpandOpt(st, O, v, raw, fuel - 1).val, fuel - 1);
  }

  lemma {:induction false} RawMono(st: Store, O: seq<string>, v: Name, fuel: nat)
    requires Raw(st, O, v, fuel).Done?
    ensures Raw(st, O, v, fuel + 1) == Raw(st, O, v, fuel)
    decreases fuel, 1, 0
  {
    match Selected(st, O, v)
    case None =>
    case Some(m) => EvalMono(st, O, Content(m), fuel);
  }

  lemma {:induction false} ExpandOptMono(st: Store, O: seq<string>, who: string, s: Option<string>, fuel: nat)
    requires ExpandOpt(st, O, who, s, fuel).Done?
    ensures ExpandOpt(st, O, who, s, fuel + 1) == ExpandOpt(st, O, who, s, fuel)
    decreases fuel, 3, 0
  {
    if s.Some? { ExpandMono(st, O, who, s.value, fuel); }
  }

  lemma {:induction false} ExpandMono(st: Store, O: seq<string>, who: string, s: string, fuel: nat)
    requires Expand(st, O, who, s, fuel).Done?
    ensures Expand(st, O, who, s, fuel + 1) == Expand(st, O, who, s, fuel)
    decreases fuel, 2, 0
  {
    hide Sub, Tokens, HasMark;
    if HasMark(s) {
      SubMono(st, O, who, Tokens(s), fuel - 1);
      var s' := Sub(st, O, who, Tokens(s), fuel - 1).val;
      if s' != s { ExpandMono(st, O, who, s', fuel - 1); }
    }
  }

  lemma {:induction false} SubMono(st: Store, O: seq<string>, who: string, ts: seq<Token>, fuel: nat)
    requires Sub(st, O, who, ts, fuel).Done?
    ensures Sub(st, O, who, ts, fuel + 1) == Sub(st, O, who, ts, fuel)
    decreases fuel, 1, |ts|
  {
    if |ts| > 0 {
      if ts[0].Ref? { EvalMono(st, O, Content(ts[0].name), fuel); }
      SubMono(st, O, who, ts[1..], fuel);
    }
  }

  lemma {:induction false} BadWordsMono(st: Store, O: seq<string>, items: seq<Item>, fuel: nat)
    requires BadWords(st, O, items, fuel).Done?
    ensures BadWords(st, O, items, fuel + 1) == BadWords(st, O, items, fuel)
    decreases fuel, 3, |items|
  {
    if |items| > 0 {
      BadWordsMono(st, O, items[..|items| - 1], fuel);
      var it := items[|items| - 1];
      if Applies(it, O) { ExpandMono(st, O, "", it.text, fuel); }
    }
  }

  lemma {:induction false} TrimMono(st: Store, O: seq<string>, v: Name, value: Option<string>, fuel: nat)
    requires Trim(st, O, v, value, fuel).Done?
    ensures Trim(st, O, v, value, fuel + 1) == Trim(st, O, v, value, fuel)
    decreases fuel, 4, 0
  {
    if !(value == None || value == Some("")) { BadWordsMono(st, O, ListOf(st, v, Remove), fuel); }
  }

  lemma {:induction false} EvalUpTo(st: Store, O: seq<string>, k: Key, f: nat, g: nat)
    requires f <= g && Eval(st, O, k, f).Done?
    ensures Eval(st, O, k, g) == Eval(st, O, k, f)
    decreases g - f
  {
    if f < g { EvalMono(st, O, k, f); EvalUpTo(st, O, k, f + 1, g); }
  }

  lemma {:induction false} RawUpTo(st: Store, O: seq<string>, v: Name, f: nat, g: nat)
    requires f <= g && Raw(st, O, v, f).Done?
    ensures Raw(st, O, v, g) == Raw(st, O, v, f)
    decreases g - f
  {
    if f < g { RawMono(st, O, v, f); RawUpTo(st, O, v, f + 1, g); }
  }

  lemma {:induction false} ExpandUpTo(st: Store, O: seq<string>, who: string, s: string, f: nat, g: nat)
    requires f <= g && Expand(st, O, who, s, f).Done?
    ensures Expand(st, O, who, s, g) == Expand(st, O, who, s, f)
    decreases g - f
  {
    if f < g { ExpandMono(st, O, who, s, f); ExpandUpTo(st, O, who, s, f + 1, g); }
  }

  lemma {:induction false} SubUpTo(st: Store, O: seq<string>, who: string, ts: seq<Token>, f: nat, g: nat)
    requires f <= g && Sub(st, O, who, ts, f).Done?
    ensures Sub(st, O, who, ts, g) == Sub(st, O, who, ts, f)
    decreases g - f
  {
    if f < g { SubMono(st, O, who, ts, f); SubUpTo(st, O, who, ts, f + 1, g); }
  }

  lemma {:induction false} BadWordsUpTo(st: Store, O: seq<string>, items: seq<Item>, f: nat, g: nat)
    requires f <= g && BadWords(st, O, items, f).Done?
    ensures BadWords(st, O, items, g) == BadWords(st, O, items, f)
    decreases g - f
  {
    if f < g { BadWordsMono(st, O, items, f); BadWordsUpTo(st, O, items, f + 1, g); }
  }

  // ----- evaluation as relations, free of fuel -----

  ghost predicate EvalsTo(st: Store, O: seq<string>, k: Key, p: Parse, R: set<Name>) {
    exists f: nat :: Eval(st, O, k, f) == Done(p, R)
  }

  ghost predicate RawsTo(st: Store, O: seq<string>, v: Name, raw: Option<string>, R: set<Name>) {
    exists f: nat :: Raw(st, O, v, f) == Done(raw, R)
  }

  ghost predicate ExpandsTo(st: Store, O: seq<string>, who: string, s: string, r: string, R: set<Name>) {
    exists f: nat :: Expand(st, O, who, s, f) == Done(r, R)
  }

  ghost predicate SubsTo(st: Store, O: seq<string>, who: string, ts: seq<Token>, r: string, R: set<Name>) {
    exists f: nat :: Sub(st, O, who, ts, f) == Done(r, R)
  }

  ghost predicate BadWordsTo(st: Store, O: seq<string>, items: seq<Item>, ws: set<string>, R: set<Name>) {
    exists f: nat :: BadWords(st, O, items, f) == Done(ws, R)
  }

  ghost predicate ExpandsOptTo(st: Store, O: seq<string>, who: string, s: Option<string>, r: Option<string>,
      R: set<Name>) {
    if s.None? then r.None? && R == {}
    else r.Some? && ExpandsTo(st, O, who, s.value, r.value, R)
  }

  ghost predicate TrimsTo(st: Store, O: seq<string>, v: Name, s: Option<string>, r: Option<string>, R: set<Name>) {
    if s == None || s == Some("") then r == s && R == {}
    else exists bad :: BadWordsTo(st, O, ListOf(st, v, Remove), bad, R) && r == Some(DropWords(s.value, bad))
  }

  /** The answer does not depend on the fuel. */
  lemma EvalsToUnique(st: Store, O: seq<string>, k: Key, p: Parse, R: set<Name>, p': Parse, R': set<Name>)
    requires EvalsTo(st, O, k, p, R) && EvalsTo(st, O, k, p', R')
    ensures p == p' && R == R'
  {
    var f: nat :| Eval(st, O, k, f) == Done(p, R);
    var g: nat :| Eval(st, O, k, g) == Done(p', R');
    if f <= g { EvalUpTo(st, O, k, f, g); } else { EvalUpTo(st, O, k, g, f); }
  }

  lemma EvalsContent(st: Store, O: seq<string>, v: Name, raw: Option<string>, R0: set<Name>,
                     full: Option<string>, R1: set<Name>, value: Option<string>, R2: set<Name>)
    requires RawsTo(st, O, v, raw, R0)
    requires ExpandsOptTo(st, O, v, raw, full, R1)
    requires TrimsTo(st, O, v, full, value, R2)
    ensures EvalsTo(st, O, Content(v), Parse(raw, value), {v} + R0 + R1 + R2)
  {
    var f0: nat :| Raw(st, O, v, f0) == Done(raw, R0);
    var f1: nat := 0;
    if raw.Some? { f1 :| Expand(st, O, v, raw.value, f1) == Done(full.value, R1); }
    var f2: nat := 0;
    var items := ListOf(st, v, Remove);
    var bad := {};
    if !(full == None || full == Some("")) {
      bad :| BadWordsTo(st, O, items, bad, R2) && value == Some(DropWords(full.value, bad));
      f2 :| BadWords(st, O, items, f2) == Done(bad, R2);
    }
    var f := f0 + f1 + f2;
    RawUpTo(st, O, v, f0, f);
    if raw.Some? { ExpandUpTo(st, O, v, raw.value, f1, f); }
    if !(full == None || full == Some("")) { BadWordsUpTo(st, O, items, f2, f); }
    assert Eval(st, O, Content(v), f + 1) == Done(Parse(raw, value), {v} + R0 + R1 + R2);
  }

  lemma EvalsFlag(st: Store, O: seq<string>, v: Name, flag: FlagName, value: Option<string>, R: set<Name>)
    requires ExpandsOptTo(st, O, Flag(v, flag).Text(), LocalFlag(st, Flag(v, flag)), value, R)
    ensures EvalsTo(st, O, Flag(v, flag), Parse(LocalFlag(st, Flag(v, flag)), value), {v} + R)
  {
    var k := Flag(v, flag);
    var raw := LocalFlag(st, k);
    var f: nat := 0;
    if raw.Some? { f :| Expand(st, O, k.Text(), raw.value, f) == Done(value.value, R); }
    assert Eval(st, O, k, f + 1) == Done(Parse(raw, value), {v} + R);
  }

  lemma RawsLocal(st: Store, O: seq<string>, v: Name)
    requires Selected(st, O, v).None?
    ensures RawsTo(st, O, v, Assembled(st, O, v, None), {v})
  {
    assert Raw(st, O, v, 0) == Done(Assembled(st, O, v, None), {v});
  }

  lemma RawsChosen(st: Store, O: seq<string>, v: Name, m: Name, p: Parse, R: set<Name>)
    requires Selected(st, O, v) == Some(m) && EvalsTo(st, O, Content(m), p, R)
    ensures RawsTo(st, O, v, Assembled(st, O, v, p.unexpanded), {v} + R)
  {
    var f: nat :| Eval(st, O, Content(m), f) == Done(p, R);
    assert Raw(st, O, v, f) == Done(Assembled(st, O, v, p.unexpanded), {v} + R);
  }

  lemma ExpandsPlain(st: Store, O: seq<string>, who: string, s: string)
    requires !HasMark(s)
    ensures ExpandsTo(st, O, who, s, s, {})
  {
    assert Expand(st, O, who, s, 0) == Done(s, {});
  }

  lemma ExpandsFixed(st: Store, O: seq<string>, who: string, s: string, R: set<Name>)
    requires HasMark(s) && SubsTo(st, O, who, Tokens(s), s, R)
    ensures ExpandsTo(st, O, who, s, s, R)
  {
    var f: nat :| Sub(st, O, who, Tokens(s), f) == Done(s, R);
    assert Expand(st, O, who, s, f + 1) == Done(s, R);
  }

  lemma CommonFuel(st: Store, O: seq<string>, who: string, ts: seq<Token>, r: string, R: set<Name>,
                   s: string, r': string, R': set<Name>) returns (h: nat)
    requires SubsTo(st, O, who, ts, r, R) && ExpandsTo(st, O, who, s, r', R')
    ensures Sub(st, O, who, ts, h) == Done(r, R) && Expand(st, O, who, s, h) == Done(r', R')
  {
    var f: nat :| Sub(st, O, who, ts, f) == Done(r, R);
    var g: nat :| Expand(st, O, who, s, g) == Done(r', R');
    h := f + g;
    SubUpTo(st, O, who, ts, f, h);
    ExpandUpTo(st, O, who, s, g, h);
  }

  lemma ExpandRoundAt(st: Store, O: seq<string>, who: string, s: string, s': string, R: set<Name>, r: string,
      R': set<Name>, f: nat)
    requires HasMark(s) && s' != s
    requires Sub(st, O, who, Tokens(s), f) == Done(s', R) && Expand(st, O, who, s', f) == Done(r, R')
    ensures Expand(st, O, who, s, f + 1) == Done(r, R + R')
  {
  }

  lemma ExpandsRound(st: Store, O: seq<string>, who: string, s: string, s': string, R: set<Name>, r: string,
      R': set<Name>)
    requires HasMark(s) && s' != s
    requires SubsTo(st, O, who, Tokens(s), s', R) && ExpandsTo(st, O, who, s', r, R')
    ensures ExpandsTo(st, O, who, s, r, R + R')
  {
    var h := CommonFuel(st, O, who, Tokens(s), s', R, s', r, R');
    ExpandRoundAt(st, O, who, s, s', R, r, R', h);
  }

  lemma SubsNil(st: Store, O: seq<string>, who: string)
    ensures SubsTo(st, O, who, [], "", {})
  {
    assert Sub(st, O, who, [], 0) == Done("", {});
  }

  lemma SubsLit(st: Store, O: seq<string>, who: string, ts: seq<Token>, r: string, R: set<Name>)
    requires |ts| > 0 && ts[0].Lit? && SubsTo(st, O, who, ts[1..], r, R)
    ensures SubsTo(st, O, who, ts, [ts[0].c] + r, R)
  {
    var f: nat :| Sub(st, O, who, ts[1..], f) == Done(r, R);
    assert Sub(st, O, who, ts, f) == Done([ts[0].c] + r, R);
  }

  lemma SubsRef(st: Store, O: seq<string>, who: string, ts: seq<Token>, p: Parse, R0: set<Name>, r: string,
      R: set<Name>)
    requires |ts| > 0 && ts[0].Ref? && ts[0].name != who
    requires EvalsTo(st, O, Content(ts[0].name), p, R0) && SubsTo(st, O, who, ts[1..], r, R)
    ensures SubsTo(st, O, who, ts, p.value.GetOr(Spelled(ts[0])) + r, R0 + R)
  {
    hide Eval;
    var f: nat :| Eval(st, O, Content(ts[0].name), f) == Done(p, R0);
    var g: nat :| Sub(st, O, who, ts[1..], g) == Done(r, R);
    EvalUpTo(st, O, Content(ts[0].name), f, f + g);
    SubUpTo(st, O, who, ts[1..], g, f + g);
    assert Sub(st, O, who, ts, f + g) == Done(p.value.GetOr(Spelled(ts[0])) + r, R0 + R);
  }

  lemma BadWordsNil(st: Store, O: seq<string>)
    ensures BadWordsTo(st, O, [], {}, {})
  {
    assert BadWords(st, O, [], 0) == Done({}, {});
  }

  lemma BadWordsSkip(st: Store, O: seq<string>, items: seq<Item>, ws: set<string>, R: set<Name>)
    requires |items| > 0 && !Applies(items[|items| - 1], O)
    requires BadWordsTo(st, O, items[..|items| - 1], ws, R)
    ensures BadWordsTo(st, O, items, ws, R)
  {
    var f: nat :| BadWords(st, O, items[..|items| - 1], f) == Done(ws, R);
    assert BadWords(st, O, items, f) == Done(ws, R);
  }

  lemma BadWordsAt(st: Store, O: seq<string>, items: seq<Item>, ws: set<string>, R: set<Name>, r: string, R': set<Name>,
      f: nat)
    requires |items| > 0 && Applies(items[|items| - 1], O)
    requires BadWords(st, O, items[..|items| - 1], f) == Done(ws, R)
    requires Expand(st, O, "", items[|items| - 1].text, f) == Done(r, R')
    ensures BadWords(st, O, items, f) == Done(ws + Words(r), R + R')
  {
  }

  lemma BadWordsMore(st: Store, O: seq<string>, items: seq<Item>, ws: set<string>, R: set<Name>, r: string,
      R': set<Name>)
    requires |items| > 0 && Applies(items[|items| - 1], O)
    requires BadWordsTo(st, O, items[..|items| - 1], ws, R)
    requires ExpandsTo(st, O, "", items[|items| - 1].text, r, R')
    ensures BadWordsTo(st, O, items, ws + Words(r), R + R')
  {
    hide Expand, BadWords, Words;
    var f: nat :| BadWords(st, O, items[..|items| - 1], f) == Done(ws, R);
    var it := items[|items| - 1];
    var g: nat :| Expand(st, O, "", it.text, g) == Done(r, R');
    BadWordsUpTo(st, O, items[..|items| - 1], f, f + g);
    ExpandUpTo(st, O, "", it.text, g, f + g);
    BadWordsAt(st, O, items, ws, R, r, R', f + g);
  }

  // ----- an evaluation depends only on what it reads -----

  /** All that an evaluation takes from one variable is the same in both stores. */
  ghost predicate AlikeAt(st: Store, st': Store, O: seq<string>, n: Name) {
    && Selected(st, O, n) == Selected(st', O, n)
    && (forall w :: ListOf(st, n, w) == ListOf(st', n, w))
    && (forall k: Key :: k.v == n ==> LocalFlag(st, k) == LocalFlag(st', k))
  }

  ghost predicate Alike(st: Store, st': Store, O: seq<string>, N: set<Name>) {
    forall n <- N :: AlikeAt(st, st', O, n)
  }

  lemma {:induction false} EvalFrame(st: Store, st': Store, O: seq<string>, k: Key, fuel: nat)
    requires Eval(st, O, k, fuel).Done? && Alike(st, st', O, Eval(st, O, k, fuel).seen)
    ensures Eval(st', O, k, fuel) == Eval(st, O, k, fuel)
    decreases fuel, 0, 0
  {
    hide Raw, ExpandOpt, Trim;
    assert k.v in Eval(st, O, k, fuel).seen;
    match k
    case Flag(v, _) =>
      ExpandOptFrame(st, st', O, k.Text(), LocalFlag(st, k), fuel - 1);
    case Content(v) =>
      RawFrame(st, st', O, v, fuel - 1);
      var raw := Raw(st, O, v, fuel - 1).val;
      ExpandOptFrame(st, st', O, v, raw, fuel - 1);
      TrimFrame(st, st', O, v, ExpandOpt(st, O, v, raw, fuel - 1).val, fuel - 1);
  }

  lemma {:induction false} RawFrame(st: Store, st': Store, O: seq<string>, v: Name, fuel: nat)
    requires Raw(st, O, v, fuel).Done? && Alike(st, st', O, Raw(st, O, v, fuel).seen)
    ensures Raw(st', O, v, fuel) == Raw(st, O, v, fuel)
    decreases fuel, 1, 0
  {
    assert v in Raw(st, O, v, fuel).seen;
    match Selected(st, O, v)
    case None =>
    case Some(m) => EvalFrame(st, st', O, Content(m), fuel);
  }

  lemma {:induction false} ExpandOptFrame(st: Store, st': Store, O: seq<string>, who: string, s: Option<string>,
      fuel: nat)
    requires ExpandOpt(st, O, who, s, fuel).Done? && Alike(st, st', O, ExpandOpt(st, O, who, s, fuel).seen)
    ensures ExpandOpt(st', O, who, s, fuel) == ExpandOpt(st, O, who, s, fuel)
    decreases fuel, 3, 0
  {
    if s.Some? { ExpandFrame(st, st', O, who, s.value, fuel); }
  }

  lemma {:induction false} ExpandFrame(st: Store, st': Store, O: seq<string>, who: string, s: string, fuel: nat)
    requires Expand(st, O, who, s, fuel).Done? && Alike(st, st', O, Expand(st, O, who, s, fuel).seen)
    ensures Expand(st', O, who, s, fuel) == Expand(st, O, who, s, fuel)
    decreases fuel, 2, 0
  {
    hide Sub, Tokens, HasMark;
    if HasMark(s) {
      SubFrame(st, st', O, who, Tokens(s), fuel - 1);
      var s' := Sub(st, O, who, Tokens(s), fuel - 1).val;
      if s' != s { ExpandFrame(st, st', O, who, s', fuel - 1); }
    }
  }

  lemma {:induction false} SubFrame(st: Store, st': Store, O: seq<string>, who: string, ts: seq<Token>, fuel: nat)
    requires Sub(st, O, who, ts, fuel).Done? && Alike(st, st', O, Sub(st, O, who, ts, fuel).seen)
    ensures Sub(st', O, who, ts, fuel) == Sub(st, O, who, ts, fuel)
    decreases fuel, 1, |ts|
  {
    if |ts| > 0 {
      if ts[0].Ref? { EvalFrame(st, st', O, Content(ts[0].name), fuel); }
      SubFrame(st, st', O, who, ts[1..], fuel);
    }
  }

  lemma {:induction false} BadWordsFrame(st: Store, st': Store, O: seq<string>, items: seq<Item>, fuel: nat)
    requires BadWords(st, O, items, fuel).Done? && Alike(st, st', O, BadWords(st, O, items, fuel).seen)
    ensures BadWords(st', O, items, fuel) == BadWords(st, O, items, fuel)
    decreases fuel, 3, |items|
  {
    if |items| > 0 {
      BadWordsFrame(st, st', O, items[..|items| - 1], fuel);
      var it := items[|items| - 1];
      if Applies(it, O) { ExpandFrame(st, st', O, "", it.text, fuel); }
    }
  }

  lemma {:induction false} TrimFrame(st: Store, st': Store, O: seq<string>, v: Name, value: Option<string>, fuel: nat)
    requires Trim(st, O, v, value, fuel).Done? && Alike(st, st', O, {v} + Trim(st, O, v, value, fuel).seen)
    ensures Trim(st', O, v, value, fuel) == Trim(st, O, v, value, fuel)
    decreases fuel, 4, 0
  {
    assert v in {v};
    if !(value == None || value == Some("")) { BadWordsFrame(st, st', O, ListOf(st, v, Remove), fuel); }
  }

  /** Changing what an evaluation does not read cannot change it. */
  lemma EvalsToFrame(st: Store, st': Store, O: seq<string>, k: Key, p: Parse, R: set<Name>)
    requires EvalsTo(st, O, k, p, R) && Alike(st, st', O, R)
    ensures EvalsTo(st', O, k, p, R)
  {
    var f: nat :| Eval(st, O, k, f) == Done(p, R);
    EvalFrame(st, st', O, k, f);
  }

  // ----- OVERRIDES -----

  function OverrideList(value: Option<string>): seq<string> {
    Split(value.GetOr(""), ':')
  }

  /** OVERRIDES, evaluated under the list O, splits into O'. */
  ghost predicate Next(st: Store, O: seq<string>, O': seq<string>) {
    exists p, R :: EvalsTo(st, O, Content(OVERRIDES), p, R) && O' == OverrideList(p.value)
  }

  /** The list after n further rounds, starting from the empty list. */
  ghost predicate Round(st: Store, n: nat, O: seq<string>) {
    if n == 0 then Next(st, [], O)
    else exists prev :: Round(st, n - 1, prev) && Next(st, prev, O)
  }

  /** A list that `need_overrides` may settle on. */
  ghost predicate Stable(st: Store, O: seq<string>) {
    Next(st, O, O) && exists n: nat :: n < 5 && Round(st, n, O)
  }

  lemma NextUnique(st: Store, O: seq<string>, A: seq<string>, B: seq<string>)
    requires Next(st, O, A) && Next(st, O, B)
    ensures A == B
  {
    var p, R :| EvalsTo(st, O, Content(OVERRIDES), p, R) && A == OverrideList(p.value);
    var q, S :| EvalsTo(st, O, Content(OVERRIDES), q, S) && B == OverrideList(q.value);
    EvalsToUnique(st, O, Content(OVERRIDES), p, R, q, S);
  }

  lemma {:induction false} RoundUnique(st: Store, n: nat, A: seq<string>, B: seq<string>)
    requires Round(st, n, A) && Round(st, n, B)
    ensures A == B
  {
    hide Next;
    if n == 0 {
      NextUnique(st, [], A, B);
    } else {
      var a :| Round(st, n - 1, a) && Next(st, a, A);
      var b :| Round(st, n - 1, b) && Next(st, b, B);
      RoundUnique(st, n - 1, a, b);
      NextUnique(st, a, A, B);
    }
  }

  /** Once a round is stable, every later round is the same. */
  lemma {:induction false} RoundStays(st: Store, n: nat, m: nat, A: seq<string>, B: seq<string>)
    requires n <= m && Round(st, n, A) && Next(st, A, A) && Round(st, m, B)
    ensures B == A
    decreases m - n
  {
    hide Next;
    if n == m {
      RoundUnique(st, n, A, B);
    } else {
      var b :| Round(st, m - 1, b) && Next(st, b, B);
      RoundStays(st, n, m - 1, A, b);
      NextUnique(st, A, A, B);
    }
  }

  /** The stable list is determined by the store. */
  lemma StableUnique(st: Store, A: seq<string>, B: seq<string>)
    requires Stable(st, A) && Stable(st, B)
    ensures A == B
  {
    var n: nat :| n < 5 && Round(st, n, A);
    var m: nat :| m < 5 && Round(st, m, B);
    if n <= m { RoundStays(st, n, m, A, B); } else { RoundStays(st, m, n, B, A); }
  }

  // ----- what a cache may hold -----

  /** Any list is possible while the overrides are not known. */
  predicate Within(ov: Option<seq<string>>, O: seq<string>) { ov.None? || ov.value == O }

  ghost predicate SoundIn(st: Store, ov: Option<seq<string>>, k: Key, p: Parse, R: set<Name>) {
    forall O :: Within(ov, O) ==> EvalsTo(st, O, k, p, R)
  }

  /** Every memo equals the value recomputed from the store under the current overrides. */
  ghost predicate CacheOk(st: Store, ov: Option<seq<string>>, cache: map<Key, Parse>, seen: map<Key, set<Name>>) {
    seen.Keys == cache.Keys && forall k :: k in cache ==> SoundIn(st, ov, k, cache[k], seen[k])
  }

  /** The variables behind a memo have memos of their own. */
  ghost predicate ClosedCache(cache: map<Key, Parse>, seen: map<Key, set<Name>>) {
    forall k, n :: k in cache && k in seen && n in seen[k] && n != k.v ==> Content(n) in cache
  }

  lemma CacheOkEmpty(st: Store, ov: Option<seq<string>>)
    ensures CacheOk(st, ov, map[], map[])
  {
  }

  /** The memos that settling on an override list leaves behind: those OVERRIDES was read through. */
  ghost predicate Seeded(cache: map<Key, Parse>, seen: map<Key, set<Name>>) {
    && Content(OVERRIDES) in cache && Content(OVERRIDES) in seen && ClosedCache(cache, seen)
    && forall k :: k in seen ==> seen[k] <= seen[Content(OVERRIDES)]
  }

  /** What one lookup of OVERRIDES leaves in an empty table. */
  lemma SeededAfter(cache: map<Key, Parse>, seen: map<Key, set<Name>>)
    ensures (Content(OVERRIDES) in cache && Content(OVERRIDES) in seen
             && Grew(map[], map[], cache, seen, seen[Content(OVERRIDES)], {})) ==> Seeded(cache, seen)
  {
  }

  /** In a seeded cache exactly the variables that OVERRIDES was read through have a memo. */
  lemma SeededNames(st: Store, O: seq<string>, cache: map<Key, Parse>, seen: map<Key, set<Name>>, v: Name)
    requires Seeded(cache, seen) && CacheOk(st, Some(O), cache, seen)
    ensures Content(v) in cache <==> v in seen[Content(OVERRIDES)]
  {
    if Content(v) in cache {
      var p, R := cache[Content(v)], seen[Content(v)];
      assert EvalsTo(st, O, Content(v), p, R);
    }
  }

  /** Memos survive a change of the store outside what they read. */
  lemma CacheOkFrame(st: Store, st': Store, O: seq<string>, cache: map<Key, Parse>, seen: map<Key, set<Name>>)
    requires CacheOk(st, Some(O), cache, seen) && Seeded(cache, seen) && Alike(st, st', O, seen[Content(OVERRIDES)])
    ensures CacheOk(st', Some(O), cache, seen)
  {
    forall k | k in cache
      ensures SoundIn(st', Some(O), k, cache[k], seen[k])
    {
      EvalsToFrame(st, st', O, k, cache[k], seen[k]);
    }
  }

  /**
   How lookups that read R grow a cache: old memos stay, new ones read no more than R, and a closed
   cache stays closed and covers what was read, except for `own`.
   */
  ghost predicate Grew(cache: map<Key, Parse>, seen: map<Key, set<Name>>,
                       cache': map<Key, Parse>, seen': map<Key, set<Name>>, R: set<Name>, own: set<Name>) {
    && (forall k :: k in cache ==> k in cache' && cache'[k] == cache[k])
    && (forall k :: k in seen' ==> (k in seen && seen'[k] == seen[k]) || seen'[k] <= R)
    && (ClosedCache(cache, seen) ==>
        ClosedCache(cache', seen') && forall n :: n in R && n !in own ==> Content(n) in cache')
  }

  lemma GrewHit(cache: map<Key, Parse>, seen: map<Key, set<Name>>, k: Key)
    requires k in cache && k in seen
    ensures Grew(cache, seen, cache, seen, seen[k], if k.Content? then {} else {k.v})
  {
  }

  lemma GrewNot(cache: map<Key, Parse>, seen: map<Key, set<Name>>)
    ensures Grew(cache, seen, cache, seen, {}, {})
  {
  }

  lemma GrewThen(c0: map<Key, Parse>, s0: map<Key, set<Name>>, c1: map<Key, Parse>, s1: map<Key, set<Name>>,
                 c2: map<Key, Parse>, s2: map<Key, set<Name>>, R1: set<Name>, own1: set<Name>,
                 R2: set<Name>, own2: set<Name>)
    requires Grew(c0, s0, c1, s1, R1, own1) && Grew(c1, s1, c2, s2, R2, own2)
    ensures Grew(c0, s0, c2, s2, R1 + R2, own1 + own2)
  {
    hide ClosedCache;
  }

  lemma GrewWith(c0: map<Key, Parse>, s0: map<Key, set<Name>>, c1: map<Key, Parse>, s1: map<Key, set<Name>>,
                 R: set<Name>, own: set<Name>, v: Name)
    requires Grew(c0, s0, c1, s1, R, own) && own <= {v}
    ensures Grew(c0, s0, c1, s1, {v} + R, {v})
  {
    hide ClosedCache;
  }

  lemma CacheOkInto(st: Store, ov: Option<seq<string>>, cache: map<Key, Parse>, seen: map<Key, set<Name>>, k: Key,
      p: Parse, R: set<Name>)
    requires CacheOk(st, ov, cache, seen) && SoundIn(st, ov, k, p, R)
    ensures CacheOk(st, ov, cache[k := p], seen[k := R])
  {
  }

  lemma GrewInto(c0: map<Key, Parse>, s0: map<Key, set<Name>>, c1: map<Key, Parse>, s1: map<Key, set<Name>>,
                 k: Key, p: Parse, R: set<Name>)
    requires Grew(c0, s0, c1, s1, R, {k.v}) && k !in c0 && c1.Keys == s1.Keys && c0.Keys == s0.Keys
    ensures Grew(c0, s0, c1[k := p], s1[k := R], R, if k.Content? then {} else {k.v})
  {
  }

  /** Later lookups know at least as much about the overrides. */
  predicate Later(ov: Option<seq<string>>, ov': Option<seq<string>>) { ov.None? || ov' == ov }

  ghost predicate RawIn(st: Store, ov: Option<seq<string>>, v: Name, raw: Option<string>, R: set<Name>) {
    forall O :: Within(ov, O) ==> RawsTo(st, O, v, raw, R)
  }

  ghost predicate ExpandIn(st: Store, ov: Option<seq<string>>, who: string, s: string, r: string, R: set<Name>) {
    forall O :: Within(ov, O) ==> ExpandsTo(st, O, who, s, r, R)
  }

  ghost predicate ExpandOptIn(st: Store, ov: Option<seq<string>>, who: string, s: Option<string>, r: Option<string>,
      R: set<Name>) {
    forall O :: Within(ov, O) ==> ExpandsOptTo(st, O, who, s, r, R)
  }

  ghost predicate SubIn(st: Store, ov: Option<seq<string>>, who: string, ts: seq<Token>, r: string, R: set<Name>) {
    forall O :: Within(ov, O) ==> SubsTo(st, O, who, ts, r, R)
  }

  ghost predicate BadWordsIn(st: Store, ov: Option<seq<string>>, items: seq<Item>, ws: set<string>, R: set<Name>) {
    forall O :: Within(ov, O) ==> BadWordsTo(st, O, items, ws, R)
  }

  ghost predicate TrimIn(st: Store, ov: Option<seq<string>>, v: Name, s: Option<string>, r: Option<string>,
      R: set<Name>) {
    forall O :: Within(ov, O) ==> TrimsTo(st, O, v, s, r, R)
  }

  lemma EvalContentIn(st: Store, ov0: Option<seq<string>>, ov1: Option<seq<string>>, ov2: Option<seq<string>>, v: Name,
                      raw: Option<string>, R0: set<Name>, full: Option<string>, R1: set<Name>, value: Option<string>,
                      R2: set<Name>)
    requires Later(ov0, ov1) && Later(ov1, ov2)
    requires RawIn(st, ov0, v, raw, R0) && ExpandOptIn(st, ov1, v, raw, full, R1) && TrimIn(st, ov2, v, full, value, R2)
    ensures SoundIn(st, ov2, Content(v), Parse(raw, value), {v} + R0 + R1 + R2)
  {
    hide RawsTo, ExpandsOptTo, TrimsTo, EvalsTo;
    forall O | Within(ov2, O)
      ensures EvalsTo(st, O, Content(v), Parse(raw, value), {v} + R0 + R1 + R2)
    {
      assert Within(ov1, O) && Within(ov0, O);
      EvalsContent(st, O, v, raw, R0, full, R1, value, R2);
    }
  }

  lemma RawLocalIn(st: Store, ov: Option<seq<string>>, v: Name, raw: Option<string>)
    requires forall O :: Within(ov, O) ==> Selected(st, O, v).None? && raw == Assembled(st, O, v, None)
    ensures RawIn(st, ov, v, raw, {v})
  {
    hide Assembled, Selected;
    forall O | Within(ov, O)
      ensures RawsTo(st, O, v, raw, {v})
    {
      RawsLocal(st, O, v);
    }
  }

  lemma RawChosenIn(st: Store, ov: Option<seq<string>>, v: Name, m: Name, p: Parse, R: set<Name>, raw: Option<string>)
    requires ov.Some? && Selected(st, ov.value, v) == Some(m) && SoundIn(st, ov, Content(m), p, R)
    requires raw == Assembled(st, ov.value, v, p.unexpanded)
    ensures RawIn(st, ov, v, raw, {v} + R)
  {
    hide Assembled, Selected;
    RawsChosen(st, ov.value, v, m, p, R);
  }

  lemma SubLitIn(st: Store, ov: Option<seq<string>>, who: string, ts: seq<Token>, r: string, R: set<Name>)
    requires |ts| > 0 && ts[0].Lit? && SubIn(st, ov, who, ts[1..], r, R)
    ensures SubIn(st, ov, who, ts, [ts[0].c] + r, R)
  {
    hide SubsTo;
    forall O | Within(ov, O)
      ensures SubsTo(st, O, who, ts, [ts[0].c] + r, R)
    {
      SubsLit(st, O, who, ts, r, R);
    }
  }

  lemma SubRefIn(st: Store, ov1: Option<seq<string>>, ov: Option<seq<string>>, who: string, ts: seq<Token>,
                 p: Parse, R0: set<Name>, r: string, R: set<Name>)
    requires |ts| > 0 && ts[0].Ref? && ts[0].name != who && Later(ov1, ov)
    requires SoundIn(st, ov1, Content(ts[0].name), p, R0) && SubIn(st, ov, who, ts[1..], r, R)
    ensures SubIn(st, ov, who, ts, p.value.GetOr(Spelled(ts[0])) + r, R0 + R)
  {
    hide SubsTo, EvalsTo;
    forall O | Within(ov, O)
      ensures SubsTo(st, O, who, ts, p.value.GetOr(Spelled(ts[0])) + r, R0 + R)
    {
      SubsRef(st, O, who, ts, p, R0, r, R);
    }
  }

  lemma SubNilIn(st: Store, ov: Option<seq<string>>, who: string)
    ensures SubIn(st, ov, who, [], "", {})
  {
    hide SubsTo;
    forall O | Within(ov, O)
      ensures SubsTo(st, O, who, [], "", {})
    {
      SubsNil(st, O, who);
    }
  }

  /** Rounds of substitution that read R have turned `s` into `t`. */
  ghost predicate Leads(st: Store, ov: Option<seq<string>>, who: string, s: string, t: string, R: set<Name>) {
    forall O, r, R' :: Within(ov, O) && ExpandsTo(st, O, who, t, r, R') ==> ExpandsTo(st, O, who, s, r, R + R')
  }

  lemma LeadsStart(st: Store, ov: Option<seq<string>>, who: string, s: string)
    ensures Leads(st, ov, who, s, s, {})
  {
    hide ExpandsTo;
    forall O, r, R' | Within(ov, O) && ExpandsTo(st, O, who, s, r, R')
      ensures ExpandsTo(st, O, who, s, r, {} + R')
    {
      assert {} + R' == R';
    }
  }

  lemma LeadsOn(st: Store, ov: Option<seq<string>>, ov': Option<seq<string>>, who: string, s: string, t: string,
                R: set<Name>, t': string, R1: set<Name>)
    requires Later(ov, ov') && Leads(st, ov, who, s, t, R)
    requires HasMark(t) && t' != t && SubIn(st, ov', who, Tokens(t), t', R1)
    ensures Leads(st, ov', who, s, t', R + R1)
  {
    hide ExpandsTo, SubsTo, Tokens, HasMark;
    forall O, r, R' | Within(ov', O) && ExpandsTo(st, O, who, t', r, R')
      ensures ExpandsTo(st, O, who, s, r, R + R1 + R')
    {
      ExpandsRound(st, O, who, t, t', R1, r, R');
      assert R + (R1 + R') == R + R1 + R';
    }
  }

  lemma LeadsToFixed(st: Store, ov: Option<seq<string>>, ov': Option<seq<string>>, who: string, s: string, t: string,
                     R: set<Name>, R1: set<Name>)
    requires Later(ov, ov') && Leads(st, ov, who, s, t, R)
    requires HasMark(t) && SubIn(st, ov', who, Tokens(t), t, R1)
    ensures ExpandIn(st, ov', who, s, t, R + R1)
  {
    hide ExpandsTo, SubsTo, Tokens, HasMark;
    forall O | Within(ov', O)
      ensures ExpandsTo(st, O, who, s, t, R + R1)
    {
      ExpandsFixed(st, O, who, t, R1);
    }
  }

  lemma LeadsToPlain(st: Store, ov: Option<seq<string>>, who: string, s: string, t: string, R: set<Name>)
    requires Leads(st, ov, who, s, t, R) && !HasMark(t)
    ensures ExpandIn(st, ov, who, s, t, R)
  {
    hide ExpandsTo, HasMark;
    forall O | Within(ov, O)
      ensures ExpandsTo(st, O, who, s, t, R)
    {
      ExpandsPlain(st, O, who, t);
      assert R + {} == R;
    }
  }

  lemma ExpandOptFrom(st: Store, ov: Option<seq<string>>, who: string, s: string, r: string, R: set<Name>)
    requires ExpandIn(st, ov, who, s, r, R)
    ensures ExpandOptIn(st, ov, who, Some(s), Some(r), R)
  {
    hide ExpandsTo;
  }

  lemma BadWordsNilIn(st: Store, ov: Option<seq<string>>)
    ensures BadWordsIn(st, ov, [], {}, {})
  {
    hide BadWordsTo;
    forall O | Within(ov, O)
      ensures BadWordsTo(st, O, [], {}, {})
    {
      BadWordsNil(st, O);
    }
  }

  lemma BadWordsSkipIn(st: Store, O: seq<string>, items: seq<Item>, ws: set<string>, R: set<Name>)
    requires |items| > 0 && !Applies(items[|items| - 1], O) && BadWordsIn(st, Some(O), items[..|items| - 1], ws, R)
    ensures BadWordsIn(st, Some(O), items, ws, R)
  {
    hide BadWordsTo, Applies;
    BadWordsSkip(st, O, items, ws, R);
  }

  lemma BadWordsMoreIn(st: Store, O: seq<string>, items: seq<Item>, ws: set<string>, R: set<Name>, r: string,
      R': set<Name>)
    requires |items| > 0 && Applies(items[|items| - 1], O) && BadWordsIn(st, Some(O), items[..|items| - 1], ws, R)
    requires ExpandIn(st, Some(O), "", items[|items| - 1].text, r, R')
    ensures BadWordsIn(st, Some(O), items, ws + Words(r), R + R')
  {
    hide BadWordsTo, ExpandsTo, Applies;
    BadWordsMore(st, O, items, ws, R, r, R');
  }

  lemma {:induction false} BadWordsPrefix(st: Store, O: seq<string>, items: seq<Item>, i: nat, fuel: nat)
    requires i < |items| && BadWords(st, O, items, fuel).Done? && Applies(items[i], O)
    ensures Expand(st, O, "", items[i].text, fuel).Done?
    decreases |items|
  {
    if i < |items| - 1 { BadWordsPrefix(st, O, items[..|items| - 1], i, fuel); }
  }

  /** Trimming with no `:remove`, and with the words that the active ones expand to. */
  lemma TrimIdle(st: Store, ov: Option<seq<string>>, v: Name, s: Option<string>)
    requires s == None || s == Some("") || ListOf(st, v, Remove) == []
    ensures TrimIn(st, ov, v, s, s, {})
  {
    hide BadWordsTo, DropWords;
    forall O | Within(ov, O)
      ensures TrimsTo(st, O, v, s, s, {})
    {
      if !(s == None || s == Some("")) {
        BadWordsNil(st, O);
        DropNoWords(s.value);
      }
    }
  }

  lemma TrimWith(st: Store, ov: Option<seq<string>>, v: Name, s: string, bad: set<string>, R: set<Name>)
    requires s != "" && BadWordsIn(st, ov, ListOf(st, v, Remove), bad, R)
    ensures TrimIn(st, ov, v, Some(s), Some(DropWords(s, bad)), R)
  {
    hide BadWordsTo, DropWords;
  }

  function RefNames(ts: seq<Token>): set<Name> {
    set t | t in ts && t.Ref? :: t.name
  }

  /** The references of every text that a round of substitution ran on. */
  function AllRefs(texts: seq<string>): set<Name> {
    set t, n | t in texts && n in RefNames(Tokens(t)) :: n
  }

  /** Each text is what one round of substitution makes of the one before it. */
  ghost predicate Rounds(st: Store, ov: Option<seq<string>>, who: string, texts: seq<string>) {
    forall i :: 0 <= i < |texts| - 1 ==> HasMark(texts[i]) && Becomes(st, ov, who, texts[i], texts[i + 1])
  }

  ghost predicate Becomes(st: Store, ov: Option<seq<string>>, who: string, s: string, s': string) {
    exists R :: SubIn(st, ov, who, Tokens(s), s', R)
  }

  lemma RoundsOn(st: Store, ov: Option<seq<string>>, ov': Option<seq<string>>, who: string,
                 texts: seq<string>, s': string, R: set<Name>)
    requires Rounds(st, ov, who, texts) && texts != [] && HasMark(texts[|texts| - 1]) && Later(ov, ov')
    requires SubIn(st, ov', who, Tokens(texts[|texts| - 1]), s', R)
    ensures Rounds(st, ov', who, texts + [s'])
  {
    hide HasMark, Tokens, SubsTo;
    var more := texts + [s'];
    forall i | 0 <= i < |more| - 1
      ensures HasMark(more[i]) && Becomes(st, ov', who, more[i], more[i + 1])
    {
      if i < |texts| - 1 {
        var R0 :| SubIn(st, ov, who, Tokens(texts[i]), texts[i + 1], R0);
        assert SubIn(st, ov', who, Tokens(more[i]), more[i + 1], R0);
      }
    }
  }

  lemma RoundsStart(st: Store, ov: Option<seq<string>>, who: string, s: string)
    ensures Rounds(st, ov, who, [s]) && AllRefs([]) == {}
  {
  }

  lemma AllRefsOn(texts: seq<string>)
    requires texts != []
    ensures AllRefs(texts) == AllRefs(texts[..|texts| - 1]) + RefNames(Tokens(texts[|texts| - 1]))
  {
    hide Tokens, RefNames;
    assert texts == texts[..|texts| - 1] + [texts[|texts| - 1]];
  }

  lemma RawAgrees(st: Store, ov: Option<seq<string>>, O: seq<string>, v: Name, f: nat, raw: Option<string>,
      R: set<Name>)
    requires RawIn(st, ov, v, raw, R) && Within(ov, O)
    ensures Raw(st, O, v, f).Done? ==> Raw(st, O, v, f) == Done(raw, R)
  {
    hide Raw;
    if Raw(st, O, v, f).Done? {
      assert RawsTo(st, O, v, raw, R);
      var g: nat :| Raw(st, O, v, g) == Done(raw, R);
      if f <= g { RawUpTo(st, O, v, f, g); } else { RawUpTo(st, O, v, g, f); }
    }
  }

  lemma ExpandAgrees(st: Store, ov: Option<seq<string>>, O: seq<string>, who: string, s: string, f: nat, r: string,
      R: set<Name>)
    requires ExpandIn(st, ov, who, s, r, R) && Within(ov, O)
    ensures Expand(st, O, who, s, f).Done? ==> Expand(st, O, who, s, f) == Done(r, R)
  {
    hide Expand;
    if Expand(st, O, who, s, f).Done? {
      assert ExpandsTo(st, O, who, s, r, R);
      var g: nat :| Expand(st, O, who, s, g) == Done(r, R);
      if f <= g { ExpandUpTo(st, O, who, s, f, g); } else { ExpandUpTo(st, O, who, s, g, f); }
    }
  }

  lemma ExpandOptAgrees(st: Store, ov: Option<seq<string>>, O: seq<string>, who: string, s: Option<string>, f: nat,
      r: Option<string>, R: set<Name>)
    requires ExpandOptIn(st, ov, who, s, r, R) && Within(ov, O)
    ensures ExpandOpt(st, O, who, s, f).Done? ==> ExpandOpt(st, O, who, s, f) == Done(r, R)
  {
    hide Expand;
    assert ExpandsOptTo(st, O, who, s, r, R);
    if s.Some? { ExpandAgrees(st, Some(O), O, who, s.value, f, r.value, R); }
  }

  lemma SubAgrees(st: Store, ov: Option<seq<string>>, O: seq<string>, who: string, ts: seq<Token>, f: nat, r: string,
      R: set<Name>)
    requires SubIn(st, ov, who, ts, r, R) && Within(ov, O)
    ensures Sub(st, O, who, ts, f).Done? ==> Sub(st, O, who, ts, f) == Done(r, R)
  {
    hide Sub;
    if Sub(st, O, who, ts, f).Done? {
      assert SubsTo(st, O, who, ts, r, R);
      var g: nat :| Sub(st, O, who, ts, g) == Done(r, R);
      if f <= g { SubUpTo(st, O, who, ts, f, g); } else { SubUpTo(st, O, who, ts, g, f); }
    }
  }

  lemma GoalValue(st: Store, ov: Option<seq<string>>, O: seq<string>, k: Key, fuel: nat, p: Parse, R: set<Name>)
    requires SoundIn(st, ov, k, p, R) && Within(ov, O) && Eval(st, O, k, fuel).Done?
    ensures Eval(st, O, k, fuel).val == p
  {
    hide Eval;
    var e := Eval(st, O, k, fuel);
    assert EvalsTo(st, O, k, e.val, e.seen);
    assert EvalsTo(st, O, k, p, R);
    EvalsToUnique(st, O, k, p, R, e.val, e.seen);
  }

  lemma EvalFlagIn(st: Store, ov: Option<seq<string>>, v: Name, flag: FlagName, value: Option<string>, R: set<Name>)
    requires ExpandOptIn(st, ov, Flag(v, flag).Text(), LocalFlag(st, Flag(v, flag)), value, R)
    ensures SoundIn(st, ov, Flag(v, flag), Parse(LocalFlag(st, Flag(v, flag)), value), {v} + R)
  {
    hide ExpandsOptTo, EvalsTo, LocalFlag;
    forall O | Within(ov, O)
      ensures EvalsTo(st, O, Flag(v, flag), Parse(LocalFlag(st, Flag(v, flag)), value), {v} + R)
    {
      EvalsFlag(st, O, v, flag, value, R);
    }
  }

  // ----- need_overrides within a recursion limit -----

  ghost function NextAt(st: Store, O: seq<string>, limit: nat): Option<seq<string>> {
    match Eval(st, O, Content(OVERRIDES), limit)
    case Stuck => None
    case Done(p, _) => Some(OverrideList(p.value))
  }

  ghost function SettleFrom(st: Store, O: seq<string>, tries: nat, limit: nat): Option<seq<string>>
    decreases tries
  {
    if tries == 0 then None else
      match NextAt(st, O, limit)
      case None => None
      case Some(O') => if O' == O then Some(O) else SettleFrom(st, O', tries - 1, limit)
  }

  /** The list that five rounds settle on, if they do. */
  ghost function Settled(st: Store, limit: nat): Option<seq<string>> {
    match NextAt(st, [], limit)
    case None => None
    case Some(O) => SettleFrom(st, O, 5, limit)
  }

  lemma NextHolds(st: Store, O: seq<string>, limit: nat)
    requires NextAt(st, O, limit).Some?
    ensures Next(st, O, NextAt(st, O, limit).value)
  {
    var e := Eval(st, O, Content(OVERRIDES), limit);
    assert EvalsTo(st, O, Content(OVERRIDES), e.val, e.seen);
  }

  lemma {:induction false} SettleFromStable(st: Store, O: seq<string>, tries: nat, limit: nat)
    requires tries <= 5 && Round(st, 5 - tries, O) && SettleFrom(st, O, tries, limit).Some?
    ensures Stable(st, SettleFrom(st, O, tries, limit).value)
    decreases tries
  {
    var O' := NextAt(st, O, limit).value;
    hide Eval;
    NextHolds(st, O, limit);
    if O' != O {
      assert Round(st, 5 - tries + 1, O');
      SettleFromStable(st, O', tries - 1, limit);
    }
  }

  lemma SettledStable(st: Store, limit: nat)
    requires Settled(st, limit).Some?
    ensures Stable(st, Settled(st, limit).value)
  {
    var O := NextAt(st, [], limit).value;
    NextHolds(st, [], limit);
    SettleFromStable(st, O, 5, limit);
  }

  lemma NextAtIsNext(st: Store, O: seq<string>, limit: nat, O': seq<string>)
    requires NextAt(st, O, limit).Some? && Next(st, O, O')
    ensures NextAt(st, O, limit) == Some(O')
  {
    NextHolds(st, O, limit);
    NextUnique(st, O, O', NextAt(st, O, limit).value);
  }

  /** `need_overrides` has reached list O in round n, on its way to `goal` if that is known. */
  ghost predicate Progress(st: Store, limit: nat, n: nat, O: seq<string>, goal: Option<seq<string>>) {
    n <= 5 && Round(st, n, O) && (goal.Some? ==> goal == SettleFrom(st, O, 5 - n, limit))
  }

  lemma ProgressStart(st: Store, limit: nat, O: seq<string>)
    requires Next(st, [], O)
    ensures Progress(st, limit, 0, O, Settled(st, limit))
  {
    hide Next, SettleFrom;
    if Settled(st, limit).Some? { NextAtIsNext(st, [], limit, O); }
  }

  lemma ProgressStep(st: Store, limit: nat, n: nat, O: seq<string>, goal: Option<seq<string>>, O': seq<string>)
    requires n < 5 && Progress(st, limit, n, O, goal) && Next(st, O, O')
    ensures O' == O ==> Stable(st, O) && (goal.Some? ==> goal == Some(O))
    ensures O' != O ==> Progress(st, limit, n + 1, O', goal)
  {
    hide Next, NextAt;
    if goal.Some? { NextAtIsNext(st, O, limit, O'); }
  }

  /** A goal is only known when the next evaluation of OVERRIDES stays within the limit. */
  lemma ProgressContinues(st: Store, limit: nat, n: nat, O: seq<string>, goal: Option<seq<string>>)
    requires Progress(st, limit, n, O, goal) && goal.Some?
    ensures n < 5 && NextAt(st, O, limit).Some?
  {
  }

  lemma SettledContinues(st: Store, limit: nat)
    requires Settled(st, limit).Some?
    ensures NextAt(st, [], limit).Some? && NextAt(st, NextAt(st, [], limit).value, limit).Some?
  {
  }

  /** A cache filled before the overrides were known is right for any list. */
  lemma CacheOkLater(st: Store, ov: Option<seq<string>>, cache: map<Key, Parse>, seen: map<Key, set<Name>>)
    requires CacheOk(st, None, cache, seen)
    ensures CacheOk(st, ov, cache, seen)
  {
  }

  // ----- iteration -----

  /** An override variant of `n` is active. */
  predicate HasActiveVariant(st: Store, O: seq<string>, n: Name) {
    n in st.over && exists e :: e in st.over[n] && IsActive(e.key, O)
  }

  /** The topmost dictionary of `n` is not empty. */
  predicate TopEntry(chain: seq<VarMap>, n: Name) {
    Find(chain, n).Some? && !Find(chain, n).value.Empty()
  }

  /** What iteration yields. */
  predicate Visible(st: Store, O: seq<string>, n: Name) {
    TopEntry(st.chain, n) || HasActiveVariant(st, O, n)
  }
}
